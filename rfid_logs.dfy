/** The access-log table: search over student name and card UID, a status
    filter, fifteen entries per page, and the three statistics cards, which are
    computed over every log whatever the search, filter or page. */
module RfidLogs {
  import opened Js
  import Paging
  import RfidLog

  const LogsPerPage: nat := 15

  datatype Log = Log(id: int, studentName: string, cardUID: string, status: RfidLog.Access, reason: string)

  /** `'all'`, or one of the two statuses. */
  datatype StatusFilter = AnyStatus | OnlyStatus(status: RfidLog.Access)

  /** The hard-coded log list the component displays. */
  const MockLogs: seq<Log> := [
    Log(1, "John Doe", "RFID001", RfidLog.Allowed, "Valid access"),
    Log(2, "Jane Smith", "RFID002", RfidLog.Denied, "Unpaid fees"),
    Log(3, "Mike Johnson", "RFID003", RfidLog.Allowed, "Valid access"),
    Log(4, "Sarah Wilson", "RFID004", RfidLog.Allowed, "Valid access"),
    Log(5, "Tom Brown", "RFID005", RfidLog.Denied, "Card blocked"),
    Log(6, "Alice Johnson", "RFID006", RfidLog.Allowed, "Valid access"),
    Log(7, "Bob Davis", "RFID007", RfidLog.Denied, "Outside allowed hours"),
    Log(8, "Carol White", "RFID008", RfidLog.Allowed, "Valid access")
  ]

  predicate MatchesSearch(log: Log, term: string)
  {
    Includes(Lower(log.studentName), Lower(term)) || Includes(Lower(log.cardUID), Lower(term))
  }

  predicate MatchesStatus(log: Log, f: StatusFilter)
  {
    f == AnyStatus || f == OnlyStatus(log.status)
  }

  /** `filteredLogs`. */
  function FilteredLogs(logs: seq<Log>, term: string, f: StatusFilter): (r: seq<Log>)
    ensures forall l :: l in r <==> l in logs && MatchesSearch(l, term) && MatchesStatus(l, f)
    ensures f.OnlyStatus? ==> forall l :: l in r ==> l.status == f.status
  {
    Filter(logs, l => MatchesSearch(l, term) && MatchesStatus(l, f))
  }

  lemma FilteredLogsKeepOrder(logs: seq<Log>, term: string, f: StatusFilter)
    ensures IsSubsequence(FilteredLogs(logs, term, f), logs)
  {
    FilterIsSubsequence(logs, l => MatchesSearch(l, term) && MatchesStatus(l, f));
  }

  function TotalPages(filtered: seq<Log>): (t: nat)
    ensures t * LogsPerPage >= |filtered|
    ensures t > 0 ==> (t - 1) * LogsPerPage < |filtered|
  {
    Paging.TotalPages(|filtered|, LogsPerPage)
  }

  /** `paginatedLogs`: the fifteen entries of the current page. */
  function PaginatedLogs(filtered: seq<Log>, page: int): (r: seq<Log>)
    ensures |r| <= LogsPerPage
    ensures page >= 1 ==> r == filtered[Min((page - 1) * 15, |filtered|)..Min((page - 1) * 15 + 15, |filtered|)]
  {
    Paging.PageOf(filtered, page, LogsPerPage)
  }

  datatype Statistics = Statistics(total: nat, allowed: nat, denied: nat)

  predicate IsAllowed(l: Log) { l.status == RfidLog.Allowed }

  predicate IsDenied(l: Log) { l.status == RfidLog.Denied }

  /** The three cards: all attempts, successful, denied. */
  function Stats(logs: seq<Log>): (s: Statistics)
    ensures s.total == |logs|
    ensures s.allowed == |Filter(logs, IsAllowed)| && s.denied == |Filter(logs, IsDenied)|
    ensures s.allowed + s.denied == s.total
  {
    CountComplement(logs, IsAllowed, IsDenied);
    Statistics(|logs|, Count(logs, IsAllowed), Count(logs, IsDenied))
  }

  lemma MockStatistics()
    ensures Stats(MockLogs) == Statistics(8, 5, 3)
  {
    var s := MockLogs;
    assert s[8..] == [];
    assert s[7..][1..] == s[8..];
    assert s[6..][1..] == s[7..];
    assert s[5..][1..] == s[6..];
    assert s[4..][1..] == s[5..];
    assert s[3..][1..] == s[4..];
    assert s[2..][1..] == s[3..];
    assert s[1..][1..] == s[2..];
    assert Count(s[7..], IsAllowed) == 1;
    assert Count(s[6..], IsAllowed) == 1;
    assert Count(s[5..], IsAllowed) == 2;
    assert Count(s[4..], IsAllowed) == 2;
    assert Count(s[3..], IsAllowed) == 3;
    assert Count(s[2..], IsAllowed) == 4;
    assert Count(s[1..], IsAllowed) == 4;
    assert Count(s, IsAllowed) == 5;
  }

  /** The component's state. The log list is fixed for the component's life. */
  class LogsView {
    const allLogs: seq<Log>
    var searchTerm: string
    var statusFilter: StatusFilter
    var currentPage: int

    ghost predicate Valid()
      reads this
    {
      currentPage >= 1
    }

    function Filtered(): seq<Log>
      reads this
    {
      FilteredLogs(allLogs, searchTerm, statusFilter)
    }

    function Pages(): nat
      reads this
    {
      TotalPages(Filtered())
    }

    function Visible(): seq<Log>
      reads this
    {
      PaginatedLogs(Filtered(), currentPage)
    }

    /** The statistics read only the log list. */
    function Cards(): Statistics
    {
      Stats(allLogs)
    }

    constructor (logs: seq<Log>)
      ensures Valid()
      ensures allLogs == logs && searchTerm == "" && statusFilter == AnyStatus && currentPage == 1
    {
      allLogs := logs;
      searchTerm := "";
      statusFilter := AnyStatus;
      currentPage := 1;
    }

    method SetSearchTerm(term: string)
      modifies this
      ensures searchTerm == term
      ensures statusFilter == old(statusFilter) && currentPage == old(currentPage)
    {
      searchTerm := term;
    }

    method SetStatusFilter(f: StatusFilter)
      modifies this
      ensures statusFilter == f
      ensures searchTerm == old(searchTerm) && currentPage == old(currentPage)
    {
      statusFilter := f;
    }

    method ClickPrevious()
      requires Valid()
      modifies this
      ensures Valid()
      ensures Paging.ControlsVisible(old(Pages())) && !Paging.PreviousDisabled(old(currentPage)) ==>
        currentPage == Paging.Previous(old(currentPage)) && currentPage == old(currentPage) - 1
      ensures !(Paging.ControlsVisible(old(Pages())) && !Paging.PreviousDisabled(old(currentPage))) ==>
        currentPage == old(currentPage)
      ensures searchTerm == old(searchTerm) && statusFilter == old(statusFilter)
    {
      if Paging.ControlsVisible(Pages()) && !Paging.PreviousDisabled(currentPage) {
        currentPage := Paging.Previous(currentPage);
      }
    }

    method ClickNext()
      requires Valid()
      modifies this
      ensures Valid()
      ensures Paging.ControlsVisible(old(Pages())) && !Paging.NextDisabled(old(currentPage), old(Pages())) ==>
        currentPage == Paging.Next(old(currentPage), old(Pages())) && currentPage <= Pages()
      ensures !(Paging.ControlsVisible(old(Pages())) && !Paging.NextDisabled(old(currentPage), old(Pages()))) ==>
        currentPage == old(currentPage)
      ensures old(currentPage) <= old(Pages()) ==> currentPage <= Pages()
      ensures searchTerm == old(searchTerm) && statusFilter == old(statusFilter)
    {
      if Paging.ControlsVisible(Pages()) && !Paging.NextDisabled(currentPage, Pages()) {
        currentPage := Paging.Next(currentPage, Pages());
      }
    }
  }

  /** With eight logs there is a single page, so the pagination bar is hidden. */
  lemma MockLogsFitOnePage()
    ensures TotalPages(MockLogs) == 1
    ensures !Paging.ControlsVisible(TotalPages(MockLogs))
  {
  }
}
