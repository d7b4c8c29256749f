/** The student table of the dashboard: search and payment filter, ten students
    per page, the Previous/Next buttons, the payment and card-status toggles and
    the delete confirmation. Fetching and the mutations themselves are network
    calls; what is modelled is the request each handler issues. */
module StudentsManagement {
  import opened Js
  import Paging
  import RfidLog

  const StudentsPerPage: nat := 10

  datatype PaymentFilter = All | Paid | Unpaid

  datatype Student = Student(
    id: int,
    name: string,
    email: string,
    cardUID: string,
    hasPaid: bool,
    cardStatus: RfidLog.CardStatus)

  /** Name or e-mail contains the search term, ignoring case. */
  predicate MatchesSearch(s: Student, term: string)
  {
    Includes(Lower(s.name), Lower(term)) || Includes(Lower(s.email), Lower(term))
  }

  predicate MatchesFilter(s: Student, f: PaymentFilter)
  {
    f == All || (f == Paid && s.hasPaid) || (f == Unpaid && !s.hasPaid)
  }

  /** `filteredStudents`. */
  function FilteredStudents(all: seq<Student>, term: string, f: PaymentFilter): (r: seq<Student>)
    ensures forall s :: s in r <==> s in all && MatchesSearch(s, term) && MatchesFilter(s, f)
    ensures f == Paid ==> forall s :: s in r ==> s.hasPaid
    ensures f == Unpaid ==> forall s :: s in r ==> !s.hasPaid
  {
    Filter(all, s => MatchesSearch(s, term) && MatchesFilter(s, f))
  }

  /** Filtering keeps the fetched order. */
  lemma FilteredKeepsOrder(all: seq<Student>, term: string, f: PaymentFilter)
    ensures IsSubsequence(FilteredStudents(all, term, f), all)
  {
    FilterIsSubsequence(all, s => MatchesSearch(s, term) && MatchesFilter(s, f));
  }

  /** With an empty search box and filter `all`, the table shows the fetched list. */
  lemma {:induction false} NoSearchNoFilterIsIdentity(all: seq<Student>)
    ensures FilteredStudents(all, "", All) == all
  {
    var keep := s => MatchesSearch(s, "") && MatchesFilter(s, All);
    forall i | 0 <= i < |all| ensures keep(all[i]) {
      IncludesEmpty(Lower(all[i].name));
    }
    FilterKeepsAll(all, keep);
  }

  /** The paid and unpaid views split the `all` view between them. */
  lemma {:induction false} PaidAndUnpaidPartition(all: seq<Student>, term: string)
    ensures |FilteredStudents(all, term, Paid)| + |FilteredStudents(all, term, Unpaid)|
         == |FilteredStudents(all, term, All)|
  {
    if all != [] {
      PaidAndUnpaidPartition(all[1..], term);
    }
  }

  function TotalPages(filtered: seq<Student>): (t: nat)
    ensures t * StudentsPerPage >= |filtered|
    ensures t > 0 ==> (t - 1) * StudentsPerPage < |filtered|
  {
    Paging.TotalPages(|filtered|, StudentsPerPage)
  }

  /** `paginatedStudents`: at most ten students, the slice for the current page. */
  function PaginatedStudents(filtered: seq<Student>, page: int): (r: seq<Student>)
    ensures |r| <= StudentsPerPage
    ensures page >= 1 ==> r == filtered[Min((page - 1) * 10, |filtered|)..Min((page - 1) * 10 + 10, |filtered|)]
    ensures page > TotalPages(filtered) ==> r == []
  {
    if page > TotalPages(filtered) then
      Paging.PagePastEndIsEmpty(filtered, page, StudentsPerPage);
      Paging.PageOf(filtered, page, StudentsPerPage)
    else
      Paging.PageOf(filtered, page, StudentsPerPage)
  }

  datatype PaymentRequest = PaymentRequest(studentId: int, hasPaid: bool)

  datatype CardStatusRequest = CardStatusRequest(studentId: int, cardStatus: RfidLog.CardStatus)

  /** `togglePaymentStatus`: asks for the opposite of the current flag. */
  function TogglePaymentStatus(studentId: int, currentStatus: bool): (r: PaymentRequest)
    ensures r.studentId == studentId && r.hasPaid == !currentStatus
  {
    PaymentRequest(studentId, !currentStatus)
  }

  /** `toggleCardStatus`: active becomes blocked and blocked becomes active. */
  function ToggleCardStatus(studentId: int, currentStatus: RfidLog.CardStatus): (r: CardStatusRequest)
    ensures r.studentId == studentId && r.cardStatus != currentStatus
  {
    var next := if currentStatus == RfidLog.Active then RfidLog.Blocked else RfidLog.Active;
    CardStatusRequest(studentId, next)
  }

  lemma ToggleCardStatusTwice(studentId: int, s: RfidLog.CardStatus)
    ensures ToggleCardStatus(studentId, ToggleCardStatus(studentId, s).cardStatus).cardStatus == s
  {
  }

  datatype DeleteDialog = DeleteDialog(open: bool, studentId: Option<int>, studentName: Option<string>)

  const ClosedDialog: DeleteDialog := DeleteDialog(false, None, None)

  /** `confirmDelete`: the id to delete, if the dialog holds a truthy id
      (an absent id and the id 0 are both falsy). */
  function ConfirmDelete(dialog: DeleteDialog): (r: Option<int>)
    ensures r.Some? <==> dialog.studentId.Some? && dialog.studentId.value != 0
    ensures r.Some? ==> r.value == dialog.studentId.value
  {
    match dialog.studentId
    case Some(id) => if id != 0 then Some(id) else None
    case None => None
  }

  /** The state of the component and its handlers. */
  class StudentsView {
    var allStudents: seq<Student>
    var searchTerm: string
    var filterStatus: PaymentFilter
    var currentPage: int
    var deleteDialog: DeleteDialog

    /** No handler can take the page below 1. */
    ghost predicate Valid()
      reads this
    {
      currentPage >= 1
    }

    function Filtered(): seq<Student>
      reads this
    {
      FilteredStudents(allStudents, searchTerm, filterStatus)
    }

    function Pages(): nat
      reads this
    {
      TotalPages(Filtered())
    }

    function Visible(): seq<Student>
      reads this
    {
      PaginatedStudents(Filtered(), currentPage)
    }

    constructor (fetched: seq<Student>)
      ensures Valid()
      ensures allStudents == fetched && searchTerm == "" && filterStatus == All
      ensures currentPage == 1 && deleteDialog == ClosedDialog
    {
      allStudents := fetched;
      searchTerm := "";
      filterStatus := All;
      currentPage := 1;
      deleteDialog := ClosedDialog;
    }

    /** A refetch after a mutation replaces the list and nothing else. */
    method Refetch(fetched: seq<Student>)
      modifies this
      ensures allStudents == fetched
      ensures searchTerm == old(searchTerm) && filterStatus == old(filterStatus)
      ensures currentPage == old(currentPage) && deleteDialog == old(deleteDialog)
    {
      allStudents := fetched;
    }

    /** Typing in the search box; the page is not reset. */
    method SetSearchTerm(term: string)
      modifies this
      ensures searchTerm == term
      ensures allStudents == old(allStudents) && filterStatus == old(filterStatus)
      ensures currentPage == old(currentPage) && deleteDialog == old(deleteDialog)
    {
      searchTerm := term;
    }

    /** The All / Paid / Unpaid buttons; the page is not reset. */
    method SetFilterStatus(f: PaymentFilter)
      modifies this
      ensures filterStatus == f
      ensures allStudents == old(allStudents) && searchTerm == old(searchTerm)
      ensures currentPage == old(currentPage) && deleteDialog == old(deleteDialog)
    {
      filterStatus := f;
    }

    /** A click on Previous: it only acts when the bar is shown and the button
        is enabled. */
    method ClickPrevious()
      requires Valid()
      modifies this
      ensures Valid()
      ensures Paging.ControlsVisible(old(Pages())) && !Paging.PreviousDisabled(old(currentPage)) ==>
        currentPage == Paging.Previous(old(currentPage)) && currentPage == old(currentPage) - 1
      ensures !(Paging.ControlsVisible(old(Pages())) && !Paging.PreviousDisabled(old(currentPage))) ==>
        currentPage == old(currentPage)
      ensures allStudents == old(allStudents) && searchTerm == old(searchTerm)
      ensures filterStatus == old(filterStatus) && deleteDialog == old(deleteDialog)
    {
      if Paging.ControlsVisible(Pages()) && !Paging.PreviousDisabled(currentPage) {
        currentPage := Paging.Previous(currentPage);
      }
    }

    /** A click on Next. When a narrower search left the page beyond the last
        one, Next moves back to the last page. */
    method ClickNext()
      requires Valid()
      modifies this
      ensures Valid()
      ensures Paging.ControlsVisible(old(Pages())) && !Paging.NextDisabled(old(currentPage), old(Pages())) ==>
        currentPage == Paging.Next(old(currentPage), old(Pages())) && currentPage <= Pages()
      ensures !(Paging.ControlsVisible(old(Pages())) && !Paging.NextDisabled(old(currentPage), old(Pages()))) ==>
        currentPage == old(currentPage)
      ensures old(currentPage) <= old(Pages()) ==> currentPage <= Pages()
      ensures allStudents == old(allStudents) && searchTerm == old(searchTerm)
      ensures filterStatus == old(filterStatus) && deleteDialog == old(deleteDialog)
    {
      if Paging.ControlsVisible(Pages()) && !Paging.NextDisabled(currentPage, Pages()) {
        currentPage := Paging.Next(currentPage, Pages());
      }
    }

    /** The trash button opens the confirmation dialog for that student. */
    method HandleDeleteStudent(studentId: int, studentName: string)
      modifies this
      ensures deleteDialog == DeleteDialog(true, Some(studentId), Some(studentName))
      ensures allStudents == old(allStudents) && searchTerm == old(searchTerm)
      ensures filterStatus == old(filterStatus) && currentPage == old(currentPage)
    {
      deleteDialog := DeleteDialog(true, Some(studentId), Some(studentName));
    }

    /** Closing the dialog, or a successful delete, resets it to `{open: false}`. */
    method CloseDeleteDialog()
      modifies this
      ensures deleteDialog == ClosedDialog
      ensures ConfirmDelete(deleteDialog).None?
      ensures allStudents == old(allStudents) && searchTerm == old(searchTerm)
      ensures filterStatus == old(filterStatus) && currentPage == old(currentPage)
    {
      deleteDialog := ClosedDialog;
    }
  }

  /** Opening the dialog for a student with a non-zero id and confirming issues
      exactly that delete; for id 0 nothing is issued. */
  lemma DeleteFlow(studentId: int, studentName: string)
    ensures ConfirmDelete(DeleteDialog(true, Some(studentId), Some(studentName)))
         == (if studentId != 0 then Some(studentId) else None)
  {
  }
}
