/**
  * The grades page: the grades of the chosen subject, the same grades in date
  * order for the trend chart, their mean, how many of each mark there are,
  * and the per-subject averages ranked from best to worst.
  *
  * JavaScript's floating-point division is replaced by exact division on
  * `real`, and `Math.round(x * 10) / 10` by the same rounding on reals.
  */
module Grades {
  import opened Collections
  import opened MockData

  // ---------------------------------------------------------------------------
  // the subject selector
  // ---------------------------------------------------------------------------

  function SubjectIs(name: string): Grade -> bool
  {
    (g: Grade) => g.subject == name
  }

  /** "all" shows every grade; any other choice shows the grades of that subject, in order. */
  function SelectedGrades(grades: seq<Grade>, selected: string): (r: seq<Grade>)
    ensures selected == "all" ==> r == grades
    ensures selected != "all" ==> forall g :: g in r <==> g in grades && g.subject == selected
    ensures selected != "all" ==> forall g :: multiset(r)[g] == if g.subject == selected then multiset(grades)[g] else 0
  {
    if selected == "all" then grades
    else
      FilterMembers(grades, SubjectIs(selected));
      Filter(grades, SubjectIs(selected))
  }

  /** The selection keeps list order: selecting from two lists one after the other is selecting from their concatenation. */
  lemma SelectedGradesInOrder(a: seq<Grade>, b: seq<Grade>, selected: string)
    ensures SelectedGrades(a + b, selected) == SelectedGrades(a, selected) + SelectedGrades(b, selected)
  {
    FilterConcat(a, b, SubjectIs(selected));
  }

  // ---------------------------------------------------------------------------
  // the trend chart's order
  // ---------------------------------------------------------------------------

  /** The comparator `a.date - b.date`: `a` may stay in front of `b` when it is not newer. */
  function OlderOrSame(a: Grade, b: Grade): bool
  {
    a.date <= b.date
  }

  /**
    * The selected grades oldest first, ties in their selected order. (The
    * comment beside this sort in the page says "newest first"; the comparator
    * orders by ascending date.)
    */
  function ChronologicalGrades(grades: seq<Grade>): (r: seq<Grade>)
    ensures multiset(r) == multiset(grades)
    ensures forall i, j :: 0 <= i < j < |r| ==> r[i].date <= r[j].date
  {
    InsertionSortSorted(grades, OlderOrSame);
    InsertionSort(grades, OlderOrSame)
  }

  /** Grades of one day keep the order they were selected in. */
  lemma ChronologicalGradesStable(grades: seq<Grade>, g: Grade)
    ensures var sameDay := (h: Grade) => h.date == g.date;
            Filter(ChronologicalGrades(grades), sameDay) == Filter(grades, sameDay)
  {
    var sameDay := (h: Grade) => h.date == g.date;
    InsertionSortStable(grades, OlderOrSame, g);
    FilterExtensional(ChronologicalGrades(grades), EquivalentTo(OlderOrSame, g), sameDay);
    FilterExtensional(grades, EquivalentTo(OlderOrSame, g), sameDay);
  }

  // ---------------------------------------------------------------------------
  // the mean
  // ---------------------------------------------------------------------------

  function GradeValue(g: Grade): int
  {
    g.value
  }

  /** `grades.reduce((sum, grade) => sum + grade.value, 0)`. */
  function Total(grades: seq<Grade>): int
  {
    SumOf(grades, GradeValue)
  }

  /** `m` times the number of grades is their total: `m` is their mean. */
  predicate IsMeanOf(m: real, grades: seq<Grade>)
  {
    m * (|grades| as real) == Total(grades) as real
  }

  /** The mean mark, `None` where the page shows "N/A". */
  function Average(grades: seq<Grade>): (r: Option<real>)
    ensures r.None? <==> grades == []
    ensures r.Some? ==> IsMeanOf(r.value, grades)
  {
    if |grades| > 0 then Some(Total(grades) as real / |grades| as real) else None
  }

  ghost predicate MarksInRange(grades: seq<Grade>)
  {
    forall i :: 0 <= i < |grades| ==> 1 <= grades[i].value <= 5
  }

  /** With every mark between 1 and 5, so is the mean. */
  lemma AverageInRange(grades: seq<Grade>)
    requires grades != [] && MarksInRange(grades)
    ensures 1.0 <= Average(grades).value <= 5.0
  {
    SumOfBounds(grades, GradeValue, 1, 5);
    var n := |grades| as real;
    var t := Total(grades);
    assert IsMeanOf(Average(grades).value, grades);
    assert |grades| <= t <= 5 * |grades|;
    QuotientBetween(1.0, 5.0, t as real, n, Average(grades).value);
  }

  /** A quotient of a total lying between `lo * n` and `hi * n` lies between `lo` and `hi`. */
  lemma QuotientBetween(lo: real, hi: real, t: real, n: real, q: real)
    requires 0.0 < n && q * n == t && lo * n <= t <= hi * n
    ensures lo <= q <= hi
  {
    if q < lo {
      ScaleStrict(q, lo, n);
    }
    if q > hi {
      ScaleStrict(hi, q, n);
    }
  }

  lemma ScaleStrict(a: real, b: real, n: real)
    requires a < b && 0.0 < n
    ensures a * n < b * n
  {
    assert (b - a) * n > 0.0;
  }

  // ---------------------------------------------------------------------------
  // the distribution
  // ---------------------------------------------------------------------------

  function ValueIs(v: int): Grade -> bool
  {
    (g: Grade) => g.value == v
  }

  /** The number of grades with mark `v`. */
  function CountOf(grades: seq<Grade>, v: int): nat
  {
    |Filter(grades, ValueIs(v))|
  }

  /** The marks of the grades, in order. */
  function Marks(grades: seq<Grade>): (r: seq<int>)
    ensures |r| == |grades| && forall i :: 0 <= i < |r| ==> r[i] == grades[i].value
  {
    seq(|grades|, i requires 0 <= i < |grades| => grades[i].value)
  }

  /** `filter(grade => grade.value === v).length` is how often `v` occurs among the marks. */
  lemma {:induction false} CountOfMarks(grades: seq<Grade>, v: int)
    ensures CountOf(grades, v) == multiset(Marks(grades))[v]
  {
    if grades != [] {
      CountOfMarks(grades[1..], v);
      assert Marks(grades) == [grades[0].value] + Marks(grades[1..]);
    }
  }

  datatype Distribution = Distribution(fives: nat, fours: nat, threes: nat, twos: nat, ones: nat)

  /** Each count is the number of grades carrying its own mark. */
  function GradeDistribution(grades: seq<Grade>): (d: Distribution)
    ensures d.fives == multiset(Marks(grades))[5] && d.fours == multiset(Marks(grades))[4]
    ensures d.threes == multiset(Marks(grades))[3] && d.twos == multiset(Marks(grades))[2]
    ensures d.ones == multiset(Marks(grades))[1]
    ensures d.fives <= |grades| && d.fours <= |grades| && d.threes <= |grades|
    ensures d.twos <= |grades| && d.ones <= |grades|
  {
    CountOfMarks(grades, 5);
    CountOfMarks(grades, 4);
    CountOfMarks(grades, 3);
    CountOfMarks(grades, 2);
    CountOfMarks(grades, 1);
    Distribution(CountOf(grades, 5), CountOf(grades, 4), CountOf(grades, 3), CountOf(grades, 2), CountOf(grades, 1))
  }

  function DistributionSum(d: Distribution): nat
  {
    d.fives + d.fours + d.threes + d.twos + d.ones
  }

  /**
    * The five counts never add up to more than there are grades, and add up
    * to exactly that many when every mark is between 1 and 5.
    */
  lemma DistributionTotal(grades: seq<Grade>)
    ensures DistributionSum(GradeDistribution(grades)) <= |grades|
    ensures MarksInRange(grades) ==> DistributionSum(GradeDistribution(grades)) == |grades|
  {
    CountsTotal(grades);
  }

  function CountsSum(grades: seq<Grade>): nat
  {
    CountOf(grades, 5) + CountOf(grades, 4) + CountOf(grades, 3) + CountOf(grades, 2) + CountOf(grades, 1)
  }

  lemma {:induction false} CountsTotal(grades: seq<Grade>)
    ensures CountsSum(grades) <= |grades|
    ensures MarksInRange(grades) ==> CountsSum(grades) == |grades|
  {
    if grades != [] {
      CountsTotal(grades[1..]);
      assert MarksInRange(grades) ==> MarksInRange(grades[1..]) by {
        if MarksInRange(grades) {
          forall i | 0 <= i < |grades[1..]|
            ensures 1 <= grades[1..][i].value <= 5
          {
            assert grades[1..][i] == grades[i + 1];
          }
        }
      }
    }
  }

  // ---------------------------------------------------------------------------
  // per-subject averages
  // ---------------------------------------------------------------------------

  /** `Math.round(x * 10) / 10` on exact reals: the nearest tenth, halves rounded up. */
  function RoundTenth(x: real): (r: real)
    ensures x - 0.05 < r <= x + 0.05
    ensures (r * 10.0).Floor as real == r * 10.0
  {
    var n := (x * 10.0 + 0.5).Floor;
    assert n as real <= x * 10.0 + 0.5 < n as real + 1.0;
    assert (n as real / 10.0) * 10.0 == n as real;
    n as real / 10.0
  }

  /** A value already on a tenth is left unchanged. */
  lemma RoundTenthExact(k: int)
    ensures RoundTenth(k as real / 10.0) == k as real / 10.0
  {
    var x := k as real / 10.0;
    assert x * 10.0 == k as real;
    assert (x * 10.0 + 0.5).Floor == k;
  }

  datatype SubjectAverage = SubjectAverage(subject: string, average: real, color: string)

  /** The mean of a subject's grades, 0 when it has none, so that its bar still shows. */
  function MeanOrZero(grades: seq<Grade>): real
  {
    match Average(grades)
    case None => 0.0
    case Some(a) => a
  }

  /** One row of the averages chart, computed over all grades, not only the selected ones. */
  function SubjectAverageOf(subjects: seq<Subject>, s: Subject, grades: seq<Grade>): (r: SubjectAverage)
    ensures r.subject == s.name
    ensures r.color == SubjectColor(subjects, s.name)
    ensures Filter(grades, SubjectIs(s.name)) == [] ==> r.average == 0.0
  {
    var own := Filter(grades, SubjectIs(s.name));
    RoundTenthExact(0);
    assert own == [] ==> MeanOrZero(own) == 0 as real / 10.0;
    SubjectAverage(s.name, RoundTenth(MeanOrZero(own)), SubjectColor(subjects, s.name))
  }

  /** A subject with grades shows its exact mean to within a twentieth, as a whole number of tenths. */
  lemma SubjectAverageClose(subjects: seq<Subject>, s: Subject, grades: seq<Grade>)
    requires Filter(grades, SubjectIs(s.name)) != []
    ensures var mean := Average(Filter(grades, SubjectIs(s.name))).value;
            mean - 0.05 < SubjectAverageOf(subjects, s, grades).average <= mean + 0.05
    ensures var avg := SubjectAverageOf(subjects, s, grades).average;
            (avg * 10.0).Floor as real == avg * 10.0
  {
  }

  /** The unsorted list: one row per subject, in the order of `subjects`. */
  function SubjectAverages(subjects: seq<Subject>, grades: seq<Grade>): (r: seq<SubjectAverage>)
    ensures |r| == |subjects|
    ensures forall i :: 0 <= i < |r| ==> r[i] == SubjectAverageOf(subjects, subjects[i], grades)
  {
    seq(|subjects|, i requires 0 <= i < |subjects| => SubjectAverageOf(subjects, subjects[i], grades))
  }

  /** The comparator `b.average - a.average`: `a` may stay in front of `b` when it is not lower. */
  function HigherOrSame(a: SubjectAverage, b: SubjectAverage): bool
  {
    a.average >= b.average
  }

  lemma HigherOrSamePreorder()
    ensures TotalPreorder(HigherOrSame)
  {
  }

  /**
    * The chart's rows: best average first, one row per subject, and rows with
    * equal averages in subject order.
    */
  function RankedSubjectAverages(subjects: seq<Subject>, grades: seq<Grade>): (r: seq<SubjectAverage>)
    ensures |r| == |subjects|
    ensures multiset(r) == multiset(SubjectAverages(subjects, grades))
    ensures forall i, j :: 0 <= i < j < |r| ==> r[i].average >= r[j].average
    ensures forall x :: Filter(r, EquivalentTo(HigherOrSame, x)) == Filter(SubjectAverages(subjects, grades), EquivalentTo(HigherOrSame, x))
  {
    HigherOrSamePreorder();
    InsertionSortStableAll(SubjectAverages(subjects, grades), HigherOrSame);
    InsertionSortSorted(SubjectAverages(subjects, grades), HigherOrSame);
    InsertionSort(SubjectAverages(subjects, grades), HigherOrSame)
  }

  /** Every subject has its row among the ranked ones, and every ranked row is some subject's. */
  lemma RankedCoversSubjects(subjects: seq<Subject>, grades: seq<Grade>)
    ensures forall i :: 0 <= i < |subjects| ==>
              SubjectAverageOf(subjects, subjects[i], grades) in RankedSubjectAverages(subjects, grades)
    ensures forall r :: r in RankedSubjectAverages(subjects, grades) ==>
              exists i :: 0 <= i < |subjects| && r == SubjectAverageOf(subjects, subjects[i], grades)
  {
    var u := SubjectAverages(subjects, grades);
    var ranked := RankedSubjectAverages(subjects, grades);
    forall i | 0 <= i < |subjects|
      ensures SubjectAverageOf(subjects, subjects[i], grades) in ranked
    {
      assert u[i] in multiset(u);
    }
    forall r | r in ranked
      ensures exists i :: 0 <= i < |subjects| && r == SubjectAverageOf(subjects, subjects[i], grades)
    {
      assert r in multiset(ranked);
      assert r in u;
    }
  }

  const ExampleSubjects: seq<Subject> :=
    [Subject("1", "Math", "", "#1"), Subject("2", "Art", "", "#2"), Subject("3", "Music", "", "#3")]

  const ExampleGrades: seq<Grade> :=
    [Grade("1", "Math", 5, 0, None), Grade("2", "Math", 4, 0, None), Grade("3", "Art", 3, 0, None)]

  lemma ExampleSelections(name: string)
    ensures var g1, g2, g3 := ExampleGrades[0], ExampleGrades[1], ExampleGrades[2];
            Filter(ExampleGrades, SubjectIs(name))
              == (if g1.subject == name then [g1] else []) + (if g2.subject == name then [g2] else [])
                 + (if g3.subject == name then [g3] else [])
  {
    var g1, g2, g3 := ExampleGrades[0], ExampleGrades[1], ExampleGrades[2];
    var p := SubjectIs(name);
    assert ExampleGrades == [g1, g2, g3];
    assert [g1, g2, g3][1..] == [g2, g3] && [g2, g3][1..] == [g3] && [g3][1..] == [];
    assert p(g1) == (g1.subject == name) && p(g2) == (g2.subject == name) && p(g3) == (g3.subject == name);
    assert Filter([g3], p) == (if p(g3) then [g3] else []) + Filter([], p);
    assert Filter([g2, g3], p) == (if p(g2) then [g2] else []) + Filter([g3], p);
  }

  lemma ExampleMath()
    ensures SubjectAverageOf(ExampleSubjects, ExampleSubjects[0], ExampleGrades) == SubjectAverage("Math", 4.5, "#1")
  {
    var g1, g2 := ExampleGrades[0], ExampleGrades[1];
    ExampleSelections("Math");
    assert Filter(ExampleGrades, SubjectIs("Math")) == [g1, g2];
    assert [g1, g2][1..] == [g2] && [g2][1..] == [];
    assert SumOf([g2], GradeValue) == GradeValue(g2) + SumOf([], GradeValue) == 4;
    assert Total([g1, g2]) == GradeValue(g1) + SumOf([g2], GradeValue) == 9;
    assert MeanOrZero([g1, g2]) == 4.5;
    assert (4.5 * 10.0 + 0.5).Floor == 45;
    assert ExampleSubjects[0].name == "Math";
  }

  lemma ExampleArt()
    ensures SubjectAverageOf(ExampleSubjects, ExampleSubjects[1], ExampleGrades) == SubjectAverage("Art", 3.0, "#2")
  {
    var g3 := ExampleGrades[2];
    ExampleSelections("Art");
    assert Filter(ExampleGrades, SubjectIs("Art")) == [g3];
    assert [g3][1..] == [];
    assert Total([g3]) == GradeValue(g3) + SumOf([], GradeValue) == 3;
    assert MeanOrZero([g3]) == 3.0;
    assert (3.0 * 10.0 + 0.5).Floor == 30;
    assert ExampleSubjects[0].name != "Art" && ExampleSubjects[1].name == "Art";
  }

  lemma ExampleMusic()
    ensures SubjectAverageOf(ExampleSubjects, ExampleSubjects[2], ExampleGrades) == SubjectAverage("Music", 0.0, "#3")
  {
    ExampleSelections("Music");
    assert RoundTenth(0.0) == 0.0;
    var subjects := ExampleSubjects;
    assert subjects[0].name != "Music" && subjects[1].name != "Music" && subjects[2].name == "Music";
  }

  lemma ExampleRows()
    ensures SubjectAverages(ExampleSubjects, ExampleGrades)
            == [SubjectAverage("Math", 4.5, "#1"), SubjectAverage("Art", 3.0, "#2"), SubjectAverage("Music", 0.0, "#3")]
  {
    ExampleMath();
    ExampleArt();
    ExampleMusic();
  }

  lemma SortTwo(a: SubjectAverage, u: SubjectAverage)
    requires a.average >= u.average
    ensures InsertionSort([a, u], HigherOrSame) == [a, u]
  {
    assert [a, u][1..] == [u] && [u][1..] == [];
    assert InsertionSort([u], HigherOrSame) == Insert(u, [], HigherOrSame);
    assert InsertionSort([a, u], HigherOrSame) == Insert(a, [u], HigherOrSame);
  }

  lemma ExampleSort(m: SubjectAverage, a: SubjectAverage, u: SubjectAverage)
    requires m.average >= a.average >= u.average
    ensures InsertionSort([m, a, u], HigherOrSame) == [m, a, u]
  {
    SortTwo(a, u);
    assert [m, a, u][1..] == [a, u];
    assert InsertionSort([m, a, u], HigherOrSame) == Insert(m, [a, u], HigherOrSame);
  }

  /**
    * Two Math grades 5 and 4 and one Art grade 3, over the subjects Math, Art
    * and Music: Math 4.5, then Art 3, then Music with no grades at 0.
    */
  lemma RankedAveragesExample()
    ensures RankedSubjectAverages(ExampleSubjects, ExampleGrades)
            == [SubjectAverage("Math", 4.5, "#1"), SubjectAverage("Art", 3.0, "#2"), SubjectAverage("Music", 0.0, "#3")]
  {
    ExampleRows();
    ExampleSort(SubjectAverage("Math", 4.5, "#1"), SubjectAverage("Art", 3.0, "#2"), SubjectAverage("Music", 0.0, "#3"));
  }

  // ---------------------------------------------------------------------------
  // the "last grade" card
  // ---------------------------------------------------------------------------

  /** Whether the subject selector `selected` shows grade `g`. */
  function Shown(selected: string): Grade -> bool
  {
    (g: Grade) => selected == "all" || g.subject == selected
  }

  /**
    * The card shows the first selected grade in list order (not necessarily
    * the newest): the first grade of the whole list that the selector shows,
    * and nothing when it shows none.
    */
  function LastGradeCard(grades: seq<Grade>, selected: string): (r: Option<Grade>)
    ensures r == Find(grades, Shown(selected))
  {
    if selected == "all" then
      FilterKeepsAll(grades, Shown(selected));
      FilterHeadIsFind(grades, Shown(selected));
      Head(SelectedGrades(grades, selected))
    else
      FilterExtensional(grades, SubjectIs(selected), Shown(selected));
      FilterHeadIsFind(grades, Shown(selected));
      Head(SelectedGrades(grades, selected))
  }

  /** The card's grade belongs to the chosen subject, and no earlier grade of that subject exists. */
  lemma LastGradeCardOfSubject(grades: seq<Grade>, selected: string)
    requires selected != "all"
    ensures LastGradeCard(grades, selected).None? <==> forall i :: 0 <= i < |grades| ==> grades[i].subject != selected
    ensures LastGradeCard(grades, selected).Some? ==>
              exists i :: 0 <= i < |grades| && grades[i] == LastGradeCard(grades, selected).value
                          && grades[i].subject == selected
                          && forall j :: 0 <= j < i ==> grades[j].subject != selected
  {
    var r := LastGradeCard(grades, selected);
    assert forall g :: Shown(selected)(g) == (g.subject == selected);
  }
}
