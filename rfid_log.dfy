/** The mock access-decision endpoint `handleRFIDLog`: look a card UID up in the
    student list, then apply the checks in their fixed order (unknown card,
    blocked card, unpaid fees, valid access); the first that matches decides.
    The 500 ms delay is not modelled; `Math.random()` is the parameter `random`. */
module RfidLog {
  import opened Js

  datatype CardStatus = Active | Blocked

  datatype Student = Student(id: int, name: string, cardUID: string, hasPaid: bool, cardStatus: CardStatus)

  datatype Access = Allowed | Denied

  datatype Response = Response(
    success: bool,
    access: Access,
    reason: string,
    studentName: Option<string>,
    logId: Option<int>)

  const NotFoundReason: string := "Card not found in system"
  const BlockedReason: string := "Card blocked"
  const UnpaidReason: string := "Unpaid fees"
  const ValidReason: string := "Valid access"

  /** The hard-coded student list of the endpoint. */
  const MockStudents: seq<Student> := [
    Student(1, "John Doe", "RFID001", true, Active),
    Student(2, "Jane Smith", "RFID002", false, Active),
    Student(3, "Mike Johnson", "RFID003", true, Blocked)
  ]

  /** The position `students.findIndex(s => s.cardUID === cardUID)` reports:
      the first student holding exactly that card UID. */
  function FindIndex(students: seq<Student>, cardUID: string): (r: Option<nat>)
    ensures r.None? <==> forall i :: 0 <= i < |students| ==> students[i].cardUID != cardUID
    ensures r.Some? ==> r.value < |students| && students[r.value].cardUID == cardUID
    ensures r.Some? ==> forall j :: 0 <= j < r.value ==> students[j].cardUID != cardUID
  {
    if students == [] then None
    else if students[0].cardUID == cardUID then Some(0)
    else match FindIndex(students[1..], cardUID)
      case None => None
      case Some(i) => Some(i + 1)
  }

  /** `students.find(s => s.cardUID === cardUID)`. */
  function Find(students: seq<Student>, cardUID: string): (r: Option<Student>)
    ensures r.Some? ==> r.value in students && r.value.cardUID == cardUID
    ensures r.None? <==> forall s :: s in students ==> s.cardUID != cardUID
  {
    match FindIndex(students, cardUID)
    case None => None
    case Some(i) => Some(students[i])
  }

  /** `Math.floor(random * 10000)`. */
  function LogId(random: real): (id: int)
    requires 0.0 <= random < 1.0
    ensures 0 <= id < 10000
  {
    (random * 10000.0).Floor
  }

  /** The decision for one tap, over the given student directory. */
  function Decide(students: seq<Student>, cardUID: string, random: real): (r: Response)
    requires 0.0 <= random < 1.0
    ensures r.success
    ensures var found := Find(students, cardUID);
      found.None? ==> r == Response(true, Denied, NotFoundReason, None, None)
    ensures var found := Find(students, cardUID);
      found.Some? ==> r.studentName == Some(found.value.name)
    ensures var found := Find(students, cardUID);
      (found.Some? && found.value.cardStatus == Blocked) ==>
        (r.access == Denied && r.reason == BlockedReason)
    ensures var found := Find(students, cardUID);
      (found.Some? && found.value.cardStatus == Active && !found.value.hasPaid) ==>
        (r.access == Denied && r.reason == UnpaidReason)
    ensures var found := Find(students, cardUID);
      r.access == Allowed <==> (found.Some? && found.value.cardStatus == Active && found.value.hasPaid)
    ensures r.access == Allowed ==> r.reason == ValidReason
    ensures r.logId.Some? <==> r.access == Allowed
    ensures r.logId.Some? ==> 0 <= r.logId.value < 10000
  {
    match Find(students, cardUID)
    case None => Response(true, Denied, NotFoundReason, None, None)
    case Some(student) =>
      if student.cardStatus == Blocked then
        Response(true, Denied, BlockedReason, Some(student.name), None)
      else if !student.hasPaid then
        Response(true, Denied, UnpaidReason, Some(student.name), None)
      else
        Response(true, Allowed, ValidReason, Some(student.name), Some(LogId(random)))
  }

  /** `handleRFIDLog(cardUID)` as written: the decision over the hard-coded list. */
  function HandleRfidLog(cardUID: string, random: real): (r: Response)
    requires 0.0 <= random < 1.0
    ensures r.success
    ensures r.access == Allowed <==> cardUID == "RFID001"
    ensures r.studentName.None? <==> cardUID !in {"RFID001", "RFID002", "RFID003"}
  {
    Decide(MockStudents, cardUID, random)
  }

  // ---------------------------------------------------------------------------
  // The precedence order as an explicit table of checks, evaluated top to bottom
  // ---------------------------------------------------------------------------

  datatype Check = CardNotFound | CardBlocked | FeesUnpaid | ValidAccess

  const CheckOrder: seq<Check> := [CardNotFound, CardBlocked, FeesUnpaid, ValidAccess]

  predicate Applies(c: Check, found: Option<Student>)
  {
    match c
    case CardNotFound => found.None?
    case CardBlocked => found.Some? && found.value.cardStatus == Blocked
    case FeesUnpaid => found.Some? && !found.value.hasPaid
    case ValidAccess => true
  }

  function ReasonOf(c: Check): string
  {
    match c
    case CardNotFound => NotFoundReason
    case CardBlocked => BlockedReason
    case FeesUnpaid => UnpaidReason
    case ValidAccess => ValidReason
  }

  /** The first check in `order` that applies. */
  function FirstApplicable(order: seq<Check>, found: Option<Student>): Option<Check>
  {
    if order == [] then None
    else if Applies(order[0], found) then Some(order[0])
    else FirstApplicable(order[1..], found)
  }

  /** The nested conditionals of `handleRFIDLog` agree with the table read top to
      bottom: the reason returned is that of the first check that applies, and
      access is allowed exactly when that check is the last one. */
  lemma DecisionFollowsCheckOrder(students: seq<Student>, cardUID: string, random: real)
    requires 0.0 <= random < 1.0
    ensures FirstApplicable(CheckOrder, Find(students, cardUID)).Some?
    ensures Decide(students, cardUID, random).reason
         == ReasonOf(FirstApplicable(CheckOrder, Find(students, cardUID)).value)
    ensures Decide(students, cardUID, random).access == Allowed
        <==> FirstApplicable(CheckOrder, Find(students, cardUID)) == Some(ValidAccess)
  {
    var found := Find(students, cardUID);
    var rest := [CardBlocked, FeesUnpaid, ValidAccess];
    assert CheckOrder[1..] == rest;
    assert rest[1..] == [FeesUnpaid, ValidAccess];
    assert rest[1..][1..] == [ValidAccess];
    if found.None? {
      assert FirstApplicable(CheckOrder, found) == Some(CardNotFound);
    } else if found.value.cardStatus == Blocked {
      assert FirstApplicable(rest, found) == Some(CardBlocked);
    } else if !found.value.hasPaid {
      assert FirstApplicable(rest[1..], found) == Some(FeesUnpaid);
    } else {
      assert FirstApplicable(rest[1..][1..], found) == Some(ValidAccess);
      assert FirstApplicable(rest[1..], found) == Some(ValidAccess);
      assert FirstApplicable(rest, found) == Some(ValidAccess);
    }
  }

  /** Blocked beats unpaid: a blocked card is reported as blocked whatever the
      payment flag, and the two students differing only in `hasPaid` get the
      same response. */
  lemma {:induction false} BlockedTakesPrecedence(s: Student, others: seq<Student>, random: real)
    requires 0.0 <= random < 1.0
    requires s.cardStatus == Blocked
    ensures Decide([s] + others, s.cardUID, random)
         == Response(true, Denied, BlockedReason, Some(s.name), None)
    ensures Decide([s.(hasPaid := !s.hasPaid)] + others, s.cardUID, random)
         == Decide([s] + others, s.cardUID, random)
  {
    assert FindIndex([s] + others, s.cardUID) == Some(0);
    assert FindIndex([s.(hasPaid := !s.hasPaid)] + others, s.cardUID) == Some(0);
  }

  /** Only the first student holding a card UID is ever consulted. */
  lemma {:induction false} LaterDuplicatesIgnored(students: seq<Student>, dup: Student, cardUID: string)
    requires Find(students, cardUID).Some?
    ensures Find(students + [dup], cardUID) == Find(students, cardUID)
  {
    FindIndexExtend(students, [dup], cardUID);
  }

  lemma {:induction false} FindIndexExtend(a: seq<Student>, b: seq<Student>, cardUID: string)
    requires FindIndex(a, cardUID).Some?
    ensures FindIndex(a + b, cardUID) == FindIndex(a, cardUID)
  {
    if a[0].cardUID != cardUID {
      assert (a + b)[1..] == a[1..] + b;
      FindIndexExtend(a[1..], b, cardUID);
    }
  }

  /** The four worked scenarios of the endpoint's hard-coded directory. */
  lemma MockScenarios(random: real)
    requires 0.0 <= random < 1.0
    ensures HandleRfidLog("RFID001", random)
         == Response(true, Allowed, ValidReason, Some("John Doe"), Some(LogId(random)))
    ensures HandleRfidLog("RFID002", random)
         == Response(true, Denied, UnpaidReason, Some("Jane Smith"), None)
    ensures HandleRfidLog("RFID003", random)
         == Response(true, Denied, BlockedReason, Some("Mike Johnson"), None)
    ensures HandleRfidLog("UNKNOWN999", random)
         == Response(true, Denied, NotFoundReason, None, None)
  {
  }
}
