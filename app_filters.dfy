/**
 * The task lists of src/App.tsx: the category filter, its split into active
 * and completed tasks, and the category chips that set the filter.
 */
module AppFilters {
  import opened Wrappers
  import opened Types
  import opened Seqs
  import opened Sorting
  import Text

  /** A category id is "set" in the JavaScript sense: present and not the empty string. */
  predicate IsSet(filter: Option<string>) {
    filter.Some? && filter.value != ""
  }

  function InCategory(filter: Option<string>): ServiceRequest -> bool {
    (t: ServiceRequest) => t.categoryId == filter
  }

  predicate IsActive(t: ServiceRequest) {
    t.completedAt.None?
  }

  predicate IsCompleted(t: ServiceRequest) {
    t.completedAt.Some?
  }

  /** `filteredTasks`: every task with no filter set, otherwise the tasks of that category. */
  function FilteredTasks(tasks: seq<ServiceRequest>, filter: Option<string>): (shown: seq<ServiceRequest>)
    ensures !IsSet(filter) ==> shown == tasks
    ensures IsSet(filter) ==> forall t :: t in shown <==> t in tasks && t.categoryId == filter
    ensures IsSet(filter) ==>
      forall t :: multiset(shown)[t] == if t.categoryId == filter then multiset(tasks)[t] else 0
  {
    if IsSet(filter) then
      assert forall t :: multiset(Filter(tasks, InCategory(filter)))[t] == if t.categoryId == filter then multiset(tasks)[t] else 0 by {
        forall t ensures multiset(Filter(tasks, InCategory(filter)))[t] == if t.categoryId == filter then multiset(tasks)[t] else 0 {
          FilterCount(tasks, InCategory(filter), t);
        }
      }
      Filter(tasks, InCategory(filter))
    else tasks
  }

  /** `activeTasks`: the shown tasks without `completedAt`. */
  function ActiveTasks(shown: seq<ServiceRequest>): (active: seq<ServiceRequest>)
    ensures forall t :: t in active <==> t in shown && t.completedAt.None?
  {
    Filter(shown, IsActive)
  }

  /** `completedTasks`: the shown tasks with `completedAt`. */
  function CompletedTasks(shown: seq<ServiceRequest>): (completed: seq<ServiceRequest>)
    ensures forall t :: t in completed <==> t in shown && t.completedAt.Some?
  {
    Filter(shown, IsCompleted)
  }

  /** The filtered list keeps the tasks' order; active and completed split it, each in order. */
  lemma ActiveCompletedPartition(tasks: seq<ServiceRequest>, filter: Option<string>)
    ensures IsSubsequence(FilteredTasks(tasks, filter), tasks)
    ensures var shown := FilteredTasks(tasks, filter);
      multiset(ActiveTasks(shown)) + multiset(CompletedTasks(shown)) == multiset(shown)
    ensures var shown := FilteredTasks(tasks, filter);
      IsSubsequence(ActiveTasks(shown), shown) && IsSubsequence(CompletedTasks(shown), shown)
  {
    var shown := FilteredTasks(tasks, filter);
    if IsSet(filter) {
      FilterIsSubsequence(tasks, InCategory(filter));
    } else {
      FilterAll(tasks, (t: ServiceRequest) => true);
      FilterIsSubsequence(tasks, (t: ServiceRequest) => true);
    }
    FilterPartition(shown, IsActive, IsCompleted);
    FilterIsSubsequence(shown, IsActive);
    FilterIsSubsequence(shown, IsCompleted);
  }

  function CategoryNameOrder(): (Category, Category) -> int {
    (a: Category, b: Category) => Text.Compare(a.name, b.name)
  }

  /** The chips: a copy of the categories sorted by name; categories of the same name keep their order. */
  function CategoryChips(categories: seq<Category>): (chips: seq<Category>)
    ensures multiset(chips) == multiset(categories)
    ensures Sorted(chips, CategoryNameOrder())
    ensures forall y :: Filter(chips, TiedWith(CategoryNameOrder(), y)) == Filter(categories, TiedWith(CategoryNameOrder(), y))
  {
    var cmp := CategoryNameOrder();
    assert Total(cmp) by {
      forall a, b ensures cmp(a, b) <= 0 || cmp(b, a) <= 0 {
        Text.CompareAntisymmetric(a.name, b.name);
      }
    }
    assert Transitive(cmp) by {
      forall a, b, c | cmp(a, b) <= 0 && cmp(b, c) <= 0 ensures cmp(a, c) <= 0 {
        Text.CompareTransitive(a.name, b.name, c.name);
      }
    }
    SortIsSorted(categories, cmp);
    assert forall y :: Filter(InsertionSort(categories, cmp), TiedWith(cmp, y)) == Filter(categories, TiedWith(cmp, y)) by {
      forall y
        ensures Filter(InsertionSort(categories, cmp), TiedWith(cmp, y)) == Filter(categories, TiedWith(cmp, y))
      {
        SortIsStable(categories, cmp, y);
      }
    }
    InsertionSort(categories, cmp)
  }

  /** The App view's state that the lists are computed from. */
  class AppView {
    var tasks: seq<ServiceRequest>
    var categories: seq<Category>
    var filteredCategoryId: Option<string>

    constructor (tasks: seq<ServiceRequest>, categories: seq<Category>)
      ensures this.tasks == tasks && this.categories == categories && filteredCategoryId == None
    {
      this.tasks, this.categories := tasks, categories;
      filteredCategoryId := None;
    }

    /** The tasks handed to the statistics panel: all of them, whatever the filter. */
    function StatisticsTasks(): seq<ServiceRequest>
      reads this
    {
      tasks
    }

    /** A chip click: the chip of the current filter clears it, any other chip sets it. */
    method ClickCategoryChip(categoryId: string)
      modifies this`filteredCategoryId
      ensures old(filteredCategoryId) == Some(categoryId) ==> filteredCategoryId == None
      ensures old(filteredCategoryId) != Some(categoryId) ==> filteredCategoryId == Some(categoryId)
      ensures categories == old(categories) && tasks == old(tasks)
      ensures StatisticsTasks() == old(StatisticsTasks())
    {
      filteredCategoryId := if filteredCategoryId == Some(categoryId) then None else Some(categoryId);
    }
  }
}
