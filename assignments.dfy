/**
  * The assignments table: the list the student works on, the three filters
  * above it, the column sort with its direction toggle, and the button that
  * marks an assignment done or not done.
  *
  * `localeCompare` depends on the host's collation, so the model takes it as
  * a parameter `collate`, with `collate(x, y)` meaning
  * `x.localeCompare(y) <= 0`; only the lemmas about ordering assume it is a
  * total preorder.
  */
module Assignments {
  import opened Collections
  import opened Text
  import opened MockData

  // ---------------------------------------------------------------------------
  // the filter
  // ---------------------------------------------------------------------------

  /** The search box: the lower-cased query occurs in the lower-cased title, description or subject. */
  predicate MatchesSearch(a: Assignment, search: string)
  {
    var q := Lower(search);
    Contains(Lower(a.title), q) || Contains(Lower(a.description), q) || Contains(Lower(a.subject), q)
  }

  /** The subject drop-down: "all" or the exact subject name. */
  predicate MatchesSubject(a: Assignment, subjectFilter: string)
  {
    subjectFilter == "all" || a.subject == subjectFilter
  }

  /** The status drop-down: "all" or the exact status string. */
  predicate MatchesStatus(a: Assignment, statusFilter: string)
  {
    statusFilter == "all" || StatusName(a.status) == statusFilter
  }

  /** A row is shown when it passes the search, the subject filter and the status filter. */
  predicate MatchesAll(a: Assignment, search: string, subjectFilter: string, statusFilter: string)
  {
    MatchesSearch(a, search) && MatchesSubject(a, subjectFilter) && MatchesStatus(a, statusFilter)
  }

  function Criteria(search: string, subjectFilter: string, statusFilter: string): Assignment -> bool
  {
    (a: Assignment) => MatchesAll(a, search, subjectFilter, statusFilter)
  }

  /** An empty query matches every assignment. */
  lemma EmptySearchMatches(a: Assignment)
    ensures MatchesSearch(a, "")
  {
    ContainsEmpty(Lower(a.title));
  }

  /** The search ignores case: two queries that lower-case alike select alike. */
  lemma SearchIgnoresCase(a: Assignment, q1: string, q2: string)
    requires Lower(q1) == Lower(q2)
    ensures MatchesSearch(a, q1) <==> MatchesSearch(a, q2)
  {
  }

  /** An assignment is found by any piece of its title, whatever its case. */
  lemma TitlePieceMatches(a: Assignment, i: nat, j: nat)
    requires i <= j <= |a.title|
    ensures MatchesSearch(a, a.title[i..j])
  {
    assert Lower(a.title[i..j]) == Lower(a.title)[i..j];
    ContainsSlice(Lower(a.title), i, j);
  }

  /** The rows the three filters let through, in list order. */
  function FilterAssignments(items: seq<Assignment>, search: string, subjectFilter: string, statusFilter: string)
    : (r: seq<Assignment>)
    ensures forall a :: a in r <==> a in items && MatchesAll(a, search, subjectFilter, statusFilter)
    ensures forall a :: multiset(r)[a] == if MatchesAll(a, search, subjectFilter, statusFilter) then multiset(items)[a] else 0
  {
    FilterMembers(items, Criteria(search, subjectFilter, statusFilter));
    Filter(items, Criteria(search, subjectFilter, statusFilter))
  }

  /** The filter keeps list order: it distributes over concatenation. */
  lemma FilterAssignmentsInOrder(a: seq<Assignment>, b: seq<Assignment>, search: string, subjectFilter: string, statusFilter: string)
    ensures FilterAssignments(a + b, search, subjectFilter, statusFilter)
         == FilterAssignments(a, search, subjectFilter, statusFilter) + FilterAssignments(b, search, subjectFilter, statusFilter)
  {
    FilterConcat(a, b, Criteria(search, subjectFilter, statusFilter));
  }

  /** With every filter at its default, the table shows the whole list. */
  lemma DefaultFiltersKeepAll(items: seq<Assignment>)
    ensures FilterAssignments(items, "", "all", "all") == items
  {
    forall i | 0 <= i < |items|
      ensures Criteria("", "all", "all")(items[i])
    {
      EmptySearchMatches(items[i]);
    }
    FilterKeepsAll(items, Criteria("", "all", "all"));
  }

  /** Filtering the filtered rows again with the same settings changes nothing. */
  lemma FilterAssignmentsIdempotent(items: seq<Assignment>, search: string, subjectFilter: string, statusFilter: string)
    ensures var r := FilterAssignments(items, search, subjectFilter, statusFilter);
            FilterAssignments(r, search, subjectFilter, statusFilter) == r
  {
    FilterIdempotent(items, Criteria(search, subjectFilter, statusFilter));
  }

  // ---------------------------------------------------------------------------
  // the sort
  // ---------------------------------------------------------------------------

  datatype Direction = Asc | Desc

  /** The header's direction toggle: ascending and descending swap. */
  function Flip(d: Direction): (r: Direction)
    ensures r != d
  {
    if d == Asc then Desc else Asc
  }

  /**
    * The comparator as the relation "`a` may stay in front of `b`": by due date
    * when the sort field is "dueDate", by title for any other field; the
    * arguments swap for a descending sort.
    */
  function Before(field: string, dir: Direction, collate: (string, string) -> bool): (Assignment, Assignment) -> bool
  {
    if field == "dueDate" then
      if dir == Asc then (a: Assignment, b: Assignment) => a.dueDate <= b.dueDate
      else (a: Assignment, b: Assignment) => b.dueDate <= a.dueDate
    else
      if dir == Asc then (a: Assignment, b: Assignment) => collate(a.title, b.title)
      else (a: Assignment, b: Assignment) => collate(b.title, a.title)
  }

  /** The due-date comparator is always a total preorder, the title comparator when `collate` is. */
  lemma BeforePreorder(field: string, dir: Direction, collate: (string, string) -> bool)
    requires field == "dueDate" || TotalPreorder(collate)
    ensures TotalPreorder(Before(field, dir, collate))
  {
    var le := Before(field, dir, collate);
    if field == "dueDate" {
      assert forall a, b :: le(a, b) == (if dir == Asc then a.dueDate <= b.dueDate else b.dueDate <= a.dueDate);
    } else {
      assert forall a, b :: le(a, b) == (if dir == Asc then collate(a.title, b.title) else collate(b.title, a.title));
      forall a, b, c | le(a, b) && le(b, c)
        ensures le(a, c)
      {
        if dir == Asc {
          assert collate(a.title, b.title) && collate(b.title, c.title);
        } else {
          assert collate(c.title, b.title) && collate(b.title, a.title);
        }
      }
      forall a, b
        ensures le(a, b) || le(b, a)
      {
        assert collate(a.title, b.title) || collate(b.title, a.title);
      }
    }
  }

  /** The facts about the stable sort under `Before`, whenever that comparator is a total preorder. */
  lemma SortUnderBefore(items: seq<Assignment>, field: string, dir: Direction, collate: (string, string) -> bool)
    ensures var le := Before(field, dir, collate);
            field == "dueDate" || TotalPreorder(collate) ==>
              && SortedBy(InsertionSort(items, le), le)
              && forall a :: Filter(InsertionSort(items, le), EquivalentTo(le, a)) == Filter(items, EquivalentTo(le, a))
  {
    if field == "dueDate" || TotalPreorder(collate) {
      var le := Before(field, dir, collate);
      BeforePreorder(field, dir, collate);
      InsertionSortSorted(items, le);
      InsertionSortStableAll(items, le);
    }
  }

  /**
    * The table's row order: a stable sort of the filtered rows. When the
    * comparator is a total preorder (always for the due date, for the title
    * when `collate` is one) the rows come out ordered by it, and rows it
    * cannot tell apart keep their list order.
    */
  function SortAssignments(items: seq<Assignment>, field: string, dir: Direction, collate: (string, string) -> bool)
    : (r: seq<Assignment>)
    ensures multiset(r) == multiset(items)
    ensures field == "dueDate" || TotalPreorder(collate) ==> SortedBy(r, Before(field, dir, collate))
    ensures field == "dueDate" || TotalPreorder(collate) ==>
              forall a :: Filter(r, EquivalentTo(Before(field, dir, collate), a))
                       == Filter(items, EquivalentTo(Before(field, dir, collate), a))
  {
    SortUnderBefore(items, field, dir, collate);
    InsertionSort(items, Before(field, dir, collate))
  }

  /** What each sort setting puts first. */
  lemma SortAssignmentsOrder(items: seq<Assignment>, field: string, dir: Direction, collate: (string, string) -> bool)
    requires TotalPreorder(collate)
    ensures var r := SortAssignments(items, field, dir, collate);
      && (field == "dueDate" && dir == Asc ==> forall i, j :: 0 <= i < j < |r| ==> r[i].dueDate <= r[j].dueDate)
      && (field == "dueDate" && dir == Desc ==> forall i, j :: 0 <= i < j < |r| ==> r[i].dueDate >= r[j].dueDate)
      && (field != "dueDate" && dir == Asc ==> forall i, j :: 0 <= i < j < |r| ==> collate(r[i].title, r[j].title))
      && (field != "dueDate" && dir == Desc ==> forall i, j :: 0 <= i < j < |r| ==> collate(r[j].title, r[i].title))
  {
    var le := Before(field, dir, collate);
    var r := SortAssignments(items, field, dir, collate);
    assert forall i, j :: 0 <= i < j < |r| ==> le(r[i], r[j]);
  }

  /** Rows due on the same day keep their list order, in either direction. */
  lemma SortByDueDateStable(items: seq<Assignment>, dir: Direction, collate: (string, string) -> bool, a: Assignment)
    ensures var same := (b: Assignment) => b.dueDate == a.dueDate;
            Filter(SortAssignments(items, "dueDate", dir, collate), same) == Filter(items, same)
  {
    var le := Before("dueDate", dir, collate);
    var same := (b: Assignment) => b.dueDate == a.dueDate;
    FilterExtensional(SortAssignments(items, "dueDate", dir, collate), EquivalentTo(le, a), same);
    FilterExtensional(items, EquivalentTo(le, a), same);
  }

  /** Rows whose titles collate alike keep their list order, in either direction. */
  lemma SortByTitleStable(items: seq<Assignment>, field: string, dir: Direction, collate: (string, string) -> bool, a: Assignment)
    requires field != "dueDate" && TotalPreorder(collate)
    ensures var same := (b: Assignment) => collate(a.title, b.title) && collate(b.title, a.title);
            Filter(SortAssignments(items, field, dir, collate), same) == Filter(items, same)
  {
    var le := Before(field, dir, collate);
    var same := (b: Assignment) => collate(a.title, b.title) && collate(b.title, a.title);
    assert forall b :: EquivalentTo(le, a)(b) == same(b);
    FilterExtensional(SortAssignments(items, field, dir, collate), EquivalentTo(le, a), same);
    FilterExtensional(items, EquivalentTo(le, a), same);
  }

  // ---------------------------------------------------------------------------
  // status changes
  // ---------------------------------------------------------------------------

  /** `handleStatusChange`: every row with this id gets the new status; nothing else changes. */
  function WithStatus(items: seq<Assignment>, id: string, newStatus: Status): (r: seq<Assignment>)
    ensures |r| == |items|
    ensures forall i :: 0 <= i < |r| ==>
      && r[i].id == items[i].id && r[i].title == items[i].title
      && r[i].description == items[i].description && r[i].subject == items[i].subject
      && r[i].dueDate == items[i].dueDate
      && r[i].status == (if items[i].id == id then newStatus else items[i].status)
  {
    seq(|items|, i requires 0 <= i < |items| =>
      if items[i].id == id then items[i].(status := newStatus) else items[i])
  }

  /** Setting the same status twice is setting it once. */
  lemma WithStatusIdempotent(items: seq<Assignment>, id: string, s: Status)
    ensures WithStatus(WithStatus(items, id, s), id, s) == WithStatus(items, id, s)
  {
  }

  /** Rows with other ids are left exactly as they were. */
  lemma WithStatusLeavesOthers(items: seq<Assignment>, id: string, s: Status, i: nat)
    requires i < |items| && items[i].id != id
    ensures WithStatus(items, id, s)[i] == items[i]
  {
  }

  /** The row's action button: "done" for anything not completed, "not done" for completed work. */
  function ActionStatus(s: Status): (r: Status)
    ensures r != s
    ensures r == Completed <==> s != Completed
    ensures r != Overdue
  {
    if s != Completed then Completed else Pending
  }

  /** Pressing the button twice on completed work brings it back to completed. */
  lemma ActionStatusTwice(s: Status)
    ensures ActionStatus(ActionStatus(s)) == (if s == Completed then Completed else Pending)
  {
  }

  // ---------------------------------------------------------------------------
  // the sort header
  // ---------------------------------------------------------------------------

  /** `toggleSort`: the same column flips the direction, another column sorts by it ascending. */
  function NextSort(field: string, dir: Direction, clicked: string): (r: (string, Direction))
    ensures r.0 == clicked
    ensures field == clicked ==> r.1 != dir
    ensures field != clicked ==> r.1 == Asc
  {
    if field == clicked then (field, Flip(dir)) else (clicked, Asc)
  }

  /** Two clicks on one column leave it sorted by that column, back in the original direction if it was already the sort column, descending otherwise. */
  lemma NextSortTwice(field: string, dir: Direction, clicked: string)
    ensures var once := NextSort(field, dir, clicked);
            NextSort(once.0, once.1, clicked) == (clicked, if field == clicked then dir else Desc)
  {
  }

  // ---------------------------------------------------------------------------
  // the component's state
  // ---------------------------------------------------------------------------

  class AssignmentsTable {
    var assignments: seq<Assignment>
    var search: string
    var subjectFilter: string
    var statusFilter: string
    var sortField: string
    var sortDirection: Direction
    const collate: (string, string) -> bool

    /** The initial state: the seed list, no search, both filters on "all", by due date ascending. */
    constructor (initial: seq<Assignment>, collate: (string, string) -> bool)
      ensures assignments == initial && search == "" && subjectFilter == "all" && statusFilter == "all"
      ensures sortField == "dueDate" && sortDirection == Asc && this.collate == collate
    {
      assignments := initial;
      search := "";
      subjectFilter := "all";
      statusFilter := "all";
      sortField := "dueDate";
      sortDirection := Asc;
      this.collate := collate;
    }

    /**
      * The rows as the table shows them: the rows the filters let through,
      * ordered by the current sort settings, ties in list order.
      */
    function Rows(): (r: seq<Assignment>)
      reads this
      ensures multiset(r) == multiset(FilterAssignments(assignments, search, subjectFilter, statusFilter))
      ensures forall a :: a in r <==> a in assignments && MatchesAll(a, search, subjectFilter, statusFilter)
      ensures sortField == "dueDate" || TotalPreorder(collate) ==> SortedBy(r, Before(sortField, sortDirection, collate))
      ensures sortField == "dueDate" || TotalPreorder(collate) ==>
                forall a :: Filter(r, EquivalentTo(Before(sortField, sortDirection, collate), a))
                         == Filter(FilterAssignments(assignments, search, subjectFilter, statusFilter),
                                   EquivalentTo(Before(sortField, sortDirection, collate), a))
    {
      SortAssignments(FilterAssignments(assignments, search, subjectFilter, statusFilter),
                      sortField, sortDirection, collate)
    }

    method SetSearch(text: string)
      modifies this`search
      ensures search == text
    {
      search := text;
    }

    method SetSubjectFilter(value: string)
      modifies this`subjectFilter
      ensures subjectFilter == value
    {
      subjectFilter := value;
    }

    method SetStatusFilter(value: string)
      modifies this`statusFilter
      ensures statusFilter == value
    {
      statusFilter := value;
    }

    method HandleStatusChange(id: string, newStatus: Status)
      modifies this`assignments
      ensures assignments == WithStatus(old(assignments), id, newStatus)
    {
      assignments := WithStatus(assignments, id, newStatus);
    }

    /** The action button of a row showing `a`. */
    method PressAction(a: Assignment)
      modifies this`assignments
      ensures assignments == WithStatus(old(assignments), a.id, ActionStatus(a.status))
    {
      HandleStatusChange(a.id, ActionStatus(a.status));
    }

    method ToggleSort(field: string)
      modifies this`sortField, this`sortDirection
      ensures (sortField, sortDirection) == NextSort(old(sortField), old(sortDirection), field)
    {
      if sortField == field {
        sortDirection := Flip(sortDirection);
      } else {
        sortField := field;
        sortDirection := Asc;
      }
    }
  }

  /** With every filter at its default the table shows the whole list, reordered. */
  lemma DefaultRowsShowAll(t: AssignmentsTable)
    requires t.search == "" && t.subjectFilter == "all" && t.statusFilter == "all"
    ensures multiset(t.Rows()) == multiset(t.assignments)
  {
    DefaultFiltersKeepAll(t.assignments);
  }
}
