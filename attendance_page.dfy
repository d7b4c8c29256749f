/** The attendance page of one class: the map from student id to status is
    built from the fetched records, the Present/Absent buttons toggle one entry,
    Save turns the map into one record per rostered student, and the search box
    filters the displayed roster by name. */
module AttendancePage {
  import opened Js

  datatype Status = Present | Absent

  datatype Student = Student(id: int, name: string)

  datatype AttendanceRecord = AttendanceRecord(studentId: int, status: Status, date: string)

  /** `j` is the index of the last record for student `id`. */
  predicate IsLastRecordOf(records: seq<AttendanceRecord>, id: int, j: int)
  {
    0 <= j < |records| && records[j].studentId == id
    && forall k :: j < k < |records| ==> records[k].studentId != id
  }

  /** The status the map should hold for `id`: the one of the last record for
      that student, since later writes overwrite earlier ones. */
  function LastStatus(records: seq<AttendanceRecord>, id: int): (r: Option<Status>)
    ensures r.None? <==> forall i :: 0 <= i < |records| ==> records[i].studentId != id
    ensures r.Some? ==> exists j :: IsLastRecordOf(records, id, j) && r.value == records[j].status
  {
    if records == [] then None
    else if records[|records| - 1].studentId == id then
      assert IsLastRecordOf(records, id, |records| - 1);
      Some(records[|records| - 1].status)
    else
      var r := LastStatus(records[..|records| - 1], id);
      assert r.Some? ==> exists j :: IsLastRecordOf(records, id, j) && r.value == records[j].status by {
        if r.Some? {
          var j :| IsLastRecordOf(records[..|records| - 1], id, j) && r.value == records[..|records| - 1][j].status;
          LastRecordInPrefix(records, id, j);
        }
      }
      r
  }

  /** A record that was last in all but the final record, when the final
      record is for another student, stays last. */
  lemma LastRecordInPrefix(records: seq<AttendanceRecord>, id: int, j: int)
    requires records != [] && records[|records| - 1].studentId != id
    requires IsLastRecordOf(records[..|records| - 1], id, j)
    ensures IsLastRecordOf(records, id, j) && records[j] == records[..|records| - 1][j]
  {
  }

  function Lookup(m: map<int, Status>, id: int): Option<Status>
  {
    if id in m then Some(m[id]) else None
  }

  /** The initialisation effect: `records.forEach(r => map[r.studentId] = r.status)`. */
  method BuildAttendanceMap(records: seq<AttendanceRecord>) returns (m: map<int, Status>)
    ensures forall id :: Lookup(m, id) == LastStatus(records, id)
    ensures forall id :: id in m <==> exists i :: 0 <= i < |records| && records[i].studentId == id
  {
    m := map[];
    var i := 0;
    while i < |records|
      invariant 0 <= i <= |records|
      invariant forall id :: Lookup(m, id) == LastStatus(records[..i], id)
    {
      assert records[..i + 1][..i] == records[..i];
      m := m[records[i].studentId := records[i].status];
      i := i + 1;
    }
    assert records[..i] == records;
    forall id
      ensures id in m <==> exists j :: 0 <= j < |records| && records[j].studentId == id
    {
      assert Lookup(m, id) == LastStatus(records, id);
    }
  }

  /** `toggleAttendance`: present becomes absent, anything else (absent or
      unmarked) becomes present; every other entry is kept. */
  function Toggle(m: map<int, Status>, id: int): (m': map<int, Status>)
    ensures m'.Keys == m.Keys + {id}
    ensures m'[id] == (if id in m && m[id] == Present then Absent else Present)
    ensures forall k :: k in m && k != id ==> m'[k] == m[k]
  {
    m[id := if id in m && m[id] == Present then Absent else Present]
  }

  /** For a student already marked, two toggles restore the map. */
  lemma ToggleTwiceRestores(m: map<int, Status>, id: int)
    requires id in m
    ensures Toggle(Toggle(m, id), id) == m
  {
  }

  /** An unmarked student goes to present, then to absent. */
  lemma ToggleFromUnmarked(m: map<int, Status>, id: int)
    requires id !in m
    ensures Toggle(m, id)[id] == Present
    ensures Toggle(Toggle(m, id), id)[id] == Absent
  {
  }

  /** `handleSave`: one record per rostered student, in roster order, with the
      selected date; a student with no entry is saved as absent. */
  function SaveRecords(roster: seq<Student>, m: map<int, Status>, date: string): (r: seq<AttendanceRecord>)
    ensures |r| == |roster|
    ensures forall i :: 0 <= i < |roster| ==>
      r[i].studentId == roster[i].id && r[i].date == date
      && r[i].status == (if roster[i].id in m then m[roster[i].id] else Absent)
  {
    if roster == [] then []
    else
      var s := roster[0];
      [AttendanceRecord(s.id, if s.id in m then m[s.id] else Absent, date)] + SaveRecords(roster[1..], m, date)
  }

  /** Saving what was loaded gives back the loaded statuses of the marked
      students, and absent for the others. */
  lemma {:induction false} SaveAfterLoad(roster: seq<Student>, records: seq<AttendanceRecord>, m: map<int, Status>, date: string)
    requires forall id :: Lookup(m, id) == LastStatus(records, id)
    ensures forall i :: 0 <= i < |roster| ==>
      SaveRecords(roster, m, date)[i].status
        == (match LastStatus(records, roster[i].id) case Some(st) => st case None => Absent)
  {
    forall i | 0 <= i < |roster|
      ensures SaveRecords(roster, m, date)[i].status
        == (match LastStatus(records, roster[i].id) case Some(st) => st case None => Absent)
    {
      assert Lookup(m, roster[i].id) == LastStatus(records, roster[i].id);
    }
  }

  predicate NameMatches(s: Student, term: string)
  {
    Includes(Lower(s.name), Lower(term))
  }

  /** `filteredStudents`: the displayed roster, name containing the search
      term ignoring case. */
  function FilteredStudents(roster: seq<Student>, term: string): (r: seq<Student>)
    ensures forall s :: s in r <==> s in roster && NameMatches(s, term)
  {
    Filter(roster, s => NameMatches(s, term))
  }

  lemma FilteredStudentsKeepOrder(roster: seq<Student>, term: string)
    ensures IsSubsequence(FilteredStudents(roster, term), roster)
  {
    FilterIsSubsequence(roster, s => NameMatches(s, term));
  }

  /** The ids the map marks present. */
  function PresentIds(m: map<int, Status>): set<int>
  {
    set id | id in m && m[id] == Present
  }

  /** `presentCount`: every present entry of the map, on the roster or not. */
  function PresentCount(m: map<int, Status>): (n: nat)
    ensures n <= |m|
  {
    assert PresentIds(m) <= m.Keys;
    SubsetCardinality(PresentIds(m), m.Keys);
    |PresentIds(m)|
  }

  lemma SubsetCardinality(a: set<int>, b: set<int>)
    requires a <= b
    ensures |a| <= |b|
  {
    if a != b {
      assert |b - a| > 0;
      assert b == a + (b - a);
    }
  }

  /** A toggle moves the present count by exactly one: down when the student
      was present, up otherwise. */
  lemma ToggleMovesPresentCount(m: map<int, Status>, id: int)
    ensures id in m && m[id] == Present ==> PresentCount(Toggle(m, id)) == PresentCount(m) - 1
    ensures !(id in m && m[id] == Present) ==> PresentCount(Toggle(m, id)) == PresentCount(m) + 1
  {
    PresentIdsAfterToggle(m, id);
  }

  lemma PresentIdsAfterToggle(m: map<int, Status>, id: int)
    ensures id in m && m[id] == Present ==> PresentIds(Toggle(m, id)) == PresentIds(m) - {id}
    ensures !(id in m && m[id] == Present) ==> PresentIds(Toggle(m, id)) == PresentIds(m) + {id}
  {
  }

  /** The header shows `presentCount / totalCount`, and the first can exceed
      the second: a record of a student outside the class is counted too. */
  lemma PresentCountCanExceedRoster()
    ensures var m := map[7 := Present];
      PresentCount(m) == 1 && PresentCount(m) > |SaveRecords([], m, "2024-01-15")|
  {
    var m := map[7 := Present];
    assert PresentIds(m) == {7};
  }

  /** The page's state. */
  class AttendanceView {
    var roster: seq<Student>
    var selectedDate: string
    var searchTerm: string
    var attendanceMap: map<int, Status>

    constructor (students: seq<Student>, today: string)
      ensures roster == students && selectedDate == today && searchTerm == "" && attendanceMap == map[]
    {
      roster := students;
      selectedDate := today;
      searchTerm := "";
      attendanceMap := map[];
    }

    /** The effect that runs whenever new records arrive. */
    method LoadRecords(records: seq<AttendanceRecord>)
      modifies this
      ensures forall id :: Lookup(attendanceMap, id) == LastStatus(records, id)
      ensures roster == old(roster) && selectedDate == old(selectedDate) && searchTerm == old(searchTerm)
    {
      attendanceMap := BuildAttendanceMap(records);
    }

    method ToggleAttendance(id: int)
      modifies this
      ensures attendanceMap == Toggle(old(attendanceMap), id)
      ensures roster == old(roster) && selectedDate == old(selectedDate) && searchTerm == old(searchTerm)
    {
      attendanceMap := Toggle(attendanceMap, id);
    }

    method SetSearchTerm(term: string)
      modifies this
      ensures searchTerm == term
      ensures roster == old(roster) && selectedDate == old(selectedDate) && attendanceMap == old(attendanceMap)
    {
      searchTerm := term;
    }

    /** Picking another date; the map is rebuilt only when that date's records
        arrive (LoadRecords). */
    method SetSelectedDate(date: string)
      modifies this
      ensures selectedDate == date
      ensures roster == old(roster) && searchTerm == old(searchTerm) && attendanceMap == old(attendanceMap)
    {
      selectedDate := date;
    }

    /** The payload handed to the save mutation; the search term plays no part. */
    method HandleSave() returns (records: seq<AttendanceRecord>)
      ensures records == SaveRecords(roster, attendanceMap, selectedDate)
      ensures |records| == |roster|
    {
      records := SaveRecords(roster, attendanceMap, selectedDate);
    }
  }
}
