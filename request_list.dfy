/**
 * The list view of src/components/RequestList.tsx: the sort state and its
 * comparator, pagination by ten, the selection of archived rows and the bulk
 * delete request.
 */
module RequestList {
  import opened Wrappers
  import opened Types
  import opened Seqs
  import opened Sorting
  import Text

  datatype SortField = Title | Assignee | CreatedAt | CompletedAt
  datatype SortDirection = Asc | Desc

  const ItemsPerPage: nat := 10

  /** `direction * x`, with direction 1 for ascending and -1 for descending. */
  function Directed(direction: SortDirection, x: int): int {
    if direction == Asc then x else -x
  }

  /** The comparator handed to `sort`: negative when `a` is shown before `b`. */
  function CompareRequests(a: ServiceRequest, b: ServiceRequest, field: SortField, direction: SortDirection): int {
    match field
    case Title => Directed(direction, Text.Compare(a.title, b.title))
    // The comparator reads `assignee`, which a ServiceRequest does not have, so both sides are ''.
    case Assignee => Directed(direction, Text.Compare("", ""))
    case CreatedAt => Directed(direction, a.createdAt - b.createdAt)
    case CompletedAt =>
      if a.completedAt.None? && b.completedAt.None? then 0
      else if a.completedAt.None? then Directed(direction, 1)
      else if b.completedAt.None? then Directed(direction, -1)
      else Directed(direction, a.completedAt.value - b.completedAt.value)
  }

  function RequestOrder(field: SortField, direction: SortDirection): (ServiceRequest, ServiceRequest) -> int {
    (a, b) => CompareRequests(a, b, field, direction)
  }

  /** Every field and direction orders the requests as a total preorder. */
  lemma RequestOrderIsTotalPreorder(field: SortField, direction: SortDirection)
    ensures Total(RequestOrder(field, direction))
    ensures Transitive(RequestOrder(field, direction))
  {
    var cmp := RequestOrder(field, direction);
    forall a, b
      ensures cmp(a, b) <= 0 || cmp(b, a) <= 0
    {
      Text.CompareAntisymmetric(a.title, b.title);
    }
    forall a, b, c | cmp(a, b) <= 0 && cmp(b, c) <= 0
      ensures cmp(a, c) <= 0
    {
      if field == Title {
        if direction == Asc {
          Text.CompareTransitive(a.title, b.title, c.title);
        } else {
          Text.CompareAntisymmetric(a.title, b.title);
          Text.CompareAntisymmetric(b.title, c.title);
          Text.CompareAntisymmetric(a.title, c.title);
          Text.CompareTransitive(c.title, b.title, a.title);
        }
      }
    }
  }

  /**
   * `[...requests].sort(comparator)`: a permutation of the requests, in
   * comparator order, with rows that compare equal kept in their input order.
   */
  function SortRequests(requests: seq<ServiceRequest>, field: SortField, direction: SortDirection): (sorted: seq<ServiceRequest>)
    ensures multiset(sorted) == multiset(requests)
    ensures Sorted(sorted, RequestOrder(field, direction))
    ensures forall y :: Filter(sorted, TiedWith(RequestOrder(field, direction), y))
                     == Filter(requests, TiedWith(RequestOrder(field, direction), y))
  {
    var cmp := RequestOrder(field, direction);
    RequestOrderIsTotalPreorder(field, direction);
    SortIsSorted(requests, cmp);
    assert forall y :: Filter(InsertionSort(requests, cmp), TiedWith(cmp, y)) == Filter(requests, TiedWith(cmp, y)) by {
      forall y
        ensures Filter(InsertionSort(requests, cmp), TiedWith(cmp, y)) == Filter(requests, TiedWith(cmp, y))
      {
        SortIsStable(requests, cmp, y);
      }
    }
    InsertionSort(requests, cmp)
  }

  /** Sorting by creation time or title orders rows by that key, in the chosen direction. */
  lemma SortedByKey(requests: seq<ServiceRequest>, direction: SortDirection, i: nat, j: nat)
    requires i < j < |requests|
    ensures var r := SortRequests(requests, CreatedAt, direction);
      if direction == Asc then r[i].createdAt <= r[j].createdAt else r[i].createdAt >= r[j].createdAt
    ensures var r := SortRequests(requests, Title, direction);
      if direction == Asc then Text.Compare(r[i].title, r[j].title) <= 0 else Text.Compare(r[i].title, r[j].title) >= 0
  {
    var r := SortRequests(requests, CreatedAt, direction);
    assert |r| == |requests| by { assert |multiset(r)| == |multiset(requests)|; }
    assert RequestOrder(CreatedAt, direction)(r[i], r[j]) <= 0;
    var t := SortRequests(requests, Title, direction);
    assert |t| == |requests| by { assert |multiset(t)| == |multiset(requests)|; }
    assert RequestOrder(Title, direction)(t[i], t[j]) <= 0;
  }

  /** By completion time, uncompleted rows come last ascending and first descending. */
  lemma UncompletedPlacement(requests: seq<ServiceRequest>, direction: SortDirection, i: nat, j: nat)
    requires i < j < |SortRequests(requests, CompletedAt, direction)|
    ensures var r := SortRequests(requests, CompletedAt, direction);
      if direction == Asc then !(r[i].completedAt.None? && r[j].completedAt.Some?)
      else !(r[i].completedAt.Some? && r[j].completedAt.None?)
  {
    var r := SortRequests(requests, CompletedAt, direction);
    assert RequestOrder(CompletedAt, direction)(r[i], r[j]) <= 0;
  }

  /** Sorting by assignee compares '' with '' throughout, so the list keeps its order. */
  lemma SortByAssigneeKeepsOrder(requests: seq<ServiceRequest>, direction: SortDirection)
    ensures SortRequests(requests, Assignee, direction) == requests
  {
    SortAllTiesIsIdentity(requests, RequestOrder(Assignee, direction));
  }

  /** `Math.ceil(n / ITEMS_PER_PAGE)`. */
  function TotalPages(n: nat): (pages: nat)
    ensures pages * ItemsPerPage >= n
    ensures pages > 0 ==> (pages - 1) * ItemsPerPage < n
  {
    (n + ItemsPerPage - 1) / ItemsPerPage
  }

  /** `s.slice(page * 10, page * 10 + 10)`: at most ten rows, read from the page's start. */
  function PageOf<T>(s: seq<T>, page: nat): (rows: seq<T>)
    ensures |rows| <= ItemsPerPage
    ensures page * ItemsPerPage >= |s| ==> rows == []
    ensures page * ItemsPerPage < |s| ==> |rows| == if |s| - page * ItemsPerPage < ItemsPerPage then |s| - page * ItemsPerPage else ItemsPerPage
    ensures forall k :: 0 <= k < |rows| ==> rows[k] == s[page * ItemsPerPage + k]
  {
    var start := page * ItemsPerPage;
    if start >= |s| then []
    else s[start..if start + ItemsPerPage <= |s| then start + ItemsPerPage else |s|]
  }

  /** Every row is shown on exactly one page, and the pages run out at `TotalPages`. */
  lemma EveryRowOnItsPage<T>(s: seq<T>, i: nat)
    requires i < |s|
    ensures i / ItemsPerPage < TotalPages(|s|)
    ensures PageOf(s, i / ItemsPerPage)[i % ItemsPerPage] == s[i]
  {
  }

  lemma PagesRunOut<T>(s: seq<T>, page: nat)
    ensures PageOf(s, page) == [] <==> page >= TotalPages(|s|)
  {
  }

  /** The view's state: the `requests` prop and the four `useState` fields. */
  class RequestListView {
    var requests: seq<ServiceRequest>
    var sortField: SortField
    var sortDirection: SortDirection
    /** The `Set` of selected ids, in insertion order (as `Array.from` lists it). */
    var selectedTasks: seq<string>
    var currentPage: nat

    ghost predicate Valid()
      reads this
    {
      Distinct(selectedTasks)
    }

    constructor (requests: seq<ServiceRequest>)
      ensures Valid()
      ensures this.requests == requests
      ensures sortField == CreatedAt && sortDirection == Desc
      ensures selectedTasks == [] && currentPage == 0
    {
      this.requests := requests;
      sortField, sortDirection := CreatedAt, Desc;
      selectedTasks, currentPage := [], 0;
    }

    function SortedRequests(): seq<ServiceRequest>
      reads this
    {
      SortRequests(requests, sortField, sortDirection)
    }

    function PaginatedRequests(): seq<ServiceRequest>
      reads this
    {
      PageOf(SortedRequests(), currentPage)
    }

    /** `handleSort(field)`: the current field flips direction, another field starts ascending. */
    method HandleSort(field: SortField)
      modifies this`sortField, this`sortDirection
      ensures sortField == field
      ensures field == old(sortField) ==> sortDirection == (if old(sortDirection) == Asc then Desc else Asc)
      ensures field != old(sortField) ==> sortDirection == Asc
    {
      if field == sortField {
        sortDirection := if sortDirection == Asc then Desc else Asc;
      } else {
        sortField := field;
        sortDirection := Asc;
      }
    }

    /** The Previous button: one page back, never below page 0. */
    method PreviousPage()
      modifies this`currentPage
      ensures currentPage == if old(currentPage) == 0 then 0 else old(currentPage) - 1
    {
      currentPage := if currentPage == 0 then 0 else currentPage - 1;
    }

    /** The Next button, shown only when there is more than one page: never past the last page. */
    method NextPage()
      requires TotalPages(|requests|) > 1
      modifies this`currentPage
      ensures currentPage < TotalPages(|requests|)
      ensures currentPage == if old(currentPage) + 1 < TotalPages(|requests|) then old(currentPage) + 1 else TotalPages(|requests|) - 1
    {
      var totalPages := TotalPages(|SortedRequests()|);
      currentPage := if totalPages - 1 < currentPage + 1 then totalPages - 1 else currentPage + 1;
    }

    /** `toggleTaskSelection(id)`: flips the membership of `id` alone. */
    method ToggleTaskSelection(taskId: string)
      requires Valid()
      modifies this`selectedTasks
      ensures Valid()
      ensures selectedTasks == Toggle(old(selectedTasks), taskId)
      ensures taskId in selectedTasks <==> taskId !in old(selectedTasks)
      ensures forall id :: id != taskId ==> (id in selectedTasks <==> id in old(selectedTasks))
    {
      ToggleKeepsOrder(selectedTasks, taskId);
      assert taskId !in selectedTasks ==> Distinct(selectedTasks + [taskId]);
      selectedTasks := Toggle(selectedTasks, taskId);
    }

    /**
     * `toggleAllTasks`: clears a selection as large as the page, otherwise selects
     * exactly the page, in page order (the order `handleBulkDelete` passes on).
     */
    method ToggleAllTasks()
      requires Valid()
      modifies this`selectedTasks
      ensures Valid()
      ensures |old(selectedTasks)| == |old(PaginatedRequests())| ==> selectedTasks == []
      ensures |old(selectedTasks)| != |old(PaginatedRequests())| ==>
        forall id :: id in selectedTasks <==> id in Ids(old(PaginatedRequests()))
      ensures |old(selectedTasks)| != |old(PaginatedRequests())| ==> selectedTasks == Dedup(Ids(old(PaginatedRequests())))
    {
      var page := PaginatedRequests();
      if |selectedTasks| == |page| {
        selectedTasks := [];
      } else {
        selectedTasks := Dedup(Ids(page));
      }
    }

    /**
     * `handleBulkDelete(selectedOnly)`: returns the ids handed to `onBulkDelete`,
     * or None when there is no handler or nothing to delete (the alert).
     */
    method HandleBulkDelete(selectedOnly: bool, hasHandler: bool) returns (deleted: Option<seq<string>>)
      requires Valid()
      modifies this`selectedTasks
      ensures Valid()
      ensures var targets := if selectedOnly then old(selectedTasks) else Ids(old(PaginatedRequests()));
        if hasHandler && targets != [] then deleted == Some(targets) && selectedTasks == []
        else deleted == None && selectedTasks == old(selectedTasks)
    {
      if !hasHandler {
        return None;
      }
      var targets := if selectedOnly then selectedTasks else Ids(PaginatedRequests());
      if targets == [] {
        return None;
      }
      deleted := Some(targets);
      selectedTasks := [];
    }
  }
}
