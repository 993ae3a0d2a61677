/**
 * The report page: the chain of optional filters over all absences, the counts shown above
 * the table and the percentages of the bar chart.
 */
module Report {
  import opened Seqs
  import opened Records
  import opened AbsenceTypes
  import opened Metrics

  /** JavaScript's `<=` on two strings: code-unit-wise lexicographic order. */
  predicate StrLe(a: string, b: string)
    decreases |a|
  {
    a == [] || (b != [] && (a[0] < b[0] || (a[0] == b[0] && StrLe(a[1..], b[1..]))))
  }

  lemma {:induction false} StrLeRefl(a: string)
    ensures StrLe(a, a)
    decreases |a|
  {
    if a != [] {
      StrLeRefl(a[1..]);
    }
  }

  lemma {:induction false} StrLeTotal(a: string, b: string)
    ensures StrLe(a, b) || StrLe(b, a)
    decreases |a|
  {
    if a != [] && b != [] && a[0] == b[0] {
      StrLeTotal(a[1..], b[1..]);
    }
  }

  lemma {:induction false} StrLeAntisym(a: string, b: string)
    requires StrLe(a, b) && StrLe(b, a)
    ensures a == b
    decreases |a|
  {
    if a != [] {
      StrLeAntisym(a[1..], b[1..]);
      assert a == [a[0]] + a[1..] && b == [b[0]] + b[1..];
    }
  }

  /** The six values of the report form; the empty string is a filter left blank. */
  datatype ReportFilters = ReportFilters(
    dateFrom: string, dateTo: string, courseId: string, studentId: string, kind: string, situation: string)

  function OnOrAfter(from: string): Absence -> bool
  {
    (a: Absence) => StrLe(from, a.date)
  }

  function OnOrBefore(to: string): Absence -> bool
  {
    (a: Absence) => StrLe(a.date, to)
  }

  function CourseIs(id: string): Absence -> bool
  {
    (a: Absence) => a.course_id == id
  }

  function StudentIs(id: string): Absence -> bool
  {
    (a: Absence) => a.student_id == id
  }

  /** `absence.type == type`: the number against the text of the select, loosely. */
  function TypeMatches(option: string): Absence -> bool
  {
    (a: Absence) => LooseEquals(a.kind, option)
  }

  function SituationIs(situation: string): Absence -> bool
  {
    (a: Absence) => a.situation == situation
  }

  /** One `if (value) absences = absences.filter(...)` of the chain. */
  function Step(s: seq<Absence>, value: string, keep: Absence -> bool): seq<Absence>
  {
    if value != [] then Filter(s, keep) else s
  }

  /** `generateReport`, filter by filter in the order of the source. */
  function GenerateReport(all: seq<Absence>, f: ReportFilters): seq<Absence>
  {
    var afterFrom := Step(all, f.dateFrom, OnOrAfter(f.dateFrom));
    var afterTo := Step(afterFrom, f.dateTo, OnOrBefore(f.dateTo));
    var afterCourse := Step(afterTo, f.courseId, CourseIs(f.courseId));
    var afterStudent := Step(afterCourse, f.studentId, StudentIs(f.studentId));
    var afterType := Step(afterStudent, f.kind, TypeMatches(f.kind));
    Step(afterType, f.situation, SituationIs(f.situation))
  }

  /** A filter step after a filter by `q` is one filter by `q` and the step's condition. */
  lemma StepFuse(s: seq<Absence>, q: Absence -> bool, value: string, keep: Absence -> bool, both: Absence -> bool)
    requires forall a :: both(a) == (q(a) && (value == [] || keep(a)))
    ensures Step(Filter(s, q), value, keep) == Filter(s, both)
  {
    if value != [] {
      FilterFuse(s, q, keep, both);
    } else {
      FilterExt(s, q, both);
    }
  }

  /** The conditions of the first `k` filters of the chain; each one holds trivially when left blank. */
  predicate PassesFirst(f: ReportFilters, k: nat, a: Absence)
  {
    (k < 1 || f.dateFrom == [] || StrLe(f.dateFrom, a.date)) &&
    (k < 2 || f.dateTo == [] || StrLe(a.date, f.dateTo)) &&
    (k < 3 || f.courseId == [] || a.course_id == f.courseId) &&
    (k < 4 || f.studentId == [] || a.student_id == f.studentId) &&
    (k < 5 || f.kind == [] || LooseEquals(a.kind, f.kind)) &&
    (k < 6 || f.situation == [] || a.situation == f.situation)
  }

  /** What an absence must satisfy to appear in the report: every filter that is filled in. */
  predicate Passes(f: ReportFilters, a: Absence)
  {
    PassesFirst(f, 6, a)
  }

  function FirstFilters(f: ReportFilters, k: nat): Absence -> bool
  {
    (a: Absence) => PassesFirst(f, k, a)
  }

  /** The first two steps: the date range. */
  lemma DateStages(all: seq<Absence>, f: ReportFilters)
    ensures Step(Step(all, f.dateFrom, OnOrAfter(f.dateFrom)), f.dateTo, OnOrBefore(f.dateTo)) ==
              Filter(all, FirstFilters(f, 2))
  {
    FilterAll(all, FirstFilters(f, 0));
    StepFuse(all, FirstFilters(f, 0), f.dateFrom, OnOrAfter(f.dateFrom), FirstFilters(f, 1));
    StepFuse(all, FirstFilters(f, 1), f.dateTo, OnOrBefore(f.dateTo), FirstFilters(f, 2));
  }

  /** The course and student steps. */
  lemma IdStages(all: seq<Absence>, f: ReportFilters, r: seq<Absence>)
    requires r == Filter(all, FirstFilters(f, 2))
    ensures Step(Step(r, f.courseId, CourseIs(f.courseId)), f.studentId, StudentIs(f.studentId)) ==
              Filter(all, FirstFilters(f, 4))
  {
    StepFuse(all, FirstFilters(f, 2), f.courseId, CourseIs(f.courseId), FirstFilters(f, 3));
    StepFuse(all, FirstFilters(f, 3), f.studentId, StudentIs(f.studentId), FirstFilters(f, 4));
  }

  /** The type and situation steps. */
  lemma ValueStages(all: seq<Absence>, f: ReportFilters, r: seq<Absence>)
    requires r == Filter(all, FirstFilters(f, 4))
    ensures Step(Step(r, f.kind, TypeMatches(f.kind)), f.situation, SituationIs(f.situation)) ==
              Filter(all, FirstFilters(f, 6))
  {
    StepFuse(all, FirstFilters(f, 4), f.kind, TypeMatches(f.kind), FirstFilters(f, 5));
    StepFuse(all, FirstFilters(f, 5), f.situation, SituationIs(f.situation), FirstFilters(f, 6));
  }

  /**
   * The chain keeps exactly the absences passing every filled-in filter, in their original
   * order; so the order of the filters does not matter.
   */
  lemma ReportIsOneFilter(all: seq<Absence>, f: ReportFilters)
    ensures GenerateReport(all, f) == Filter(all, (a: Absence) => Passes(f, a))
  {
    DateStages(all, f);
    var r2 := Step(Step(all, f.dateFrom, OnOrAfter(f.dateFrom)), f.dateTo, OnOrBefore(f.dateTo));
    IdStages(all, f, r2);
    var r4 := Step(Step(r2, f.courseId, CourseIs(f.courseId)), f.studentId, StudentIs(f.studentId));
    ValueStages(all, f, r4);
    FilterExt(all, FirstFilters(f, 6), (a: Absence) => Passes(f, a));
  }

  /** The report is a subsequence of the fetched absences and holds exactly those that pass. */
  lemma ReportContents(all: seq<Absence>, f: ReportFilters)
    ensures IsSubsequence(GenerateReport(all, f), all)
    ensures forall a :: a in GenerateReport(all, f) <==> a in all && Passes(f, a)
  {
    ReportIsOneFilter(all, f);
  }

  /** The date range is inclusive: an absence dated on either bound is kept by the date filters. */
  lemma DateRangeInclusive(all: seq<Absence>, f: ReportFilters, a: Absence)
    requires a in all && (a.date == f.dateFrom || a.date == f.dateTo)
    requires StrLe(f.dateFrom, f.dateTo)
    requires f.courseId == [] && f.studentId == [] && f.kind == [] && f.situation == []
    ensures a in GenerateReport(all, f)
  {
    StrLeRefl(a.date);
    ReportContents(all, f);
  }

  /** With every field blank the report is all the absences. */
  lemma BlankFiltersKeepAll(all: seq<Absence>)
    ensures GenerateReport(all, ReportFilters([], [], [], [], [], [])) == all
  {
  }

  /** The type select's "2" keeps exactly the absences of type 2. */
  lemma TypeFilterByDigit(all: seq<Absence>, d: char)
    requires '1' <= d <= '3'
    ensures GenerateReport(all, ReportFilters([], [], [], [], [d], [])) ==
              Filter(all, HasType(d as int - '0' as int))
  {
    forall a: Absence ensures TypeMatches([d])(a) == HasType(d as int - '0' as int)(a) {
      LooseEqualsDigit(a.kind, d);
    }
    FilterExt(all, TypeMatches([d]), HasType(d as int - '0' as int));
  }

  /** The four numbers `displayReport` shows. */
  datatype ReportSummary = ReportSummary(total: nat, counts: TypeCounts)

  function DisplayReport(absences: seq<Absence>): (r: ReportSummary)
    ensures r.total == |absences|
    ensures r.counts.tardiness + r.counts.justified + r.counts.unjustified <= r.total
  {
    CountsBound(absences);
    ReportSummary(|absences|, CountsOf(absences))
  }

  /** The three percentages of `updateChart`: all zero, without dividing, when there are no absences. */
  datatype ChartPercentages = ChartPercentages(tardiness: nat, justified: nat, unjustified: nat)

  function UpdateChart(total: nat, tardiness: nat, justified: nat, unjustified: nat): (r: ChartPercentages)
    ensures total == 0 ==> r == ChartPercentages(0, 0, 0)
    ensures total > 0 ==> r.tardiness == CalculatePercentage(tardiness, total)
    ensures total > 0 ==> r.justified == CalculatePercentage(justified, total)
    ensures total > 0 ==> r.unjustified == CalculatePercentage(unjustified, total)
  {
    if total == 0 then ChartPercentages(0, 0, 0)
    else ChartPercentages(CalculatePercentage(tardiness, total), CalculatePercentage(justified, total),
                          CalculatePercentage(unjustified, total))
  }

  /**
   * For the counts of a report each bar is at most 100%, and rounding can push the three
   * together at most one point past 100.
   */
  lemma ChartOfReport(absences: seq<Absence>)
    ensures var s := DisplayReport(absences);
            var c := UpdateChart(s.total, s.counts.tardiness, s.counts.justified, s.counts.unjustified);
            c.tardiness <= 100 && c.justified <= 100 && c.unjustified <= 100 &&
            c.tardiness + c.justified + c.unjustified <= 101
  {
    var s := DisplayReport(absences);
    ChartBounded(s.total, s.counts.tardiness, s.counts.justified, s.counts.unjustified);
  }

  lemma ChartBounded(total: nat, t: nat, j: nat, u: nat)
    requires t + j + u <= total
    ensures var c := UpdateChart(total, t, j, u);
            c.tardiness <= 100 && c.justified <= 100 && c.unjustified <= 100 &&
            c.tardiness + c.justified + c.unjustified <= 101
  {
    if total > 0 {
      PercentageRange(t, total);
      PercentageRange(j, total);
      PercentageRange(u, total);
      RoundedSumBound(total, t, j, u, CalculatePercentage(t, total), CalculatePercentage(j, total),
                      CalculatePercentage(u, total));
    }
  }

  /** Three parts of one total, each rounded half up to a percentage, add up to at most 101. */
  lemma RoundedSumBound(total: nat, t: nat, j: nat, u: nat, a: nat, b: nat, c: nat)
    requires total > 0 && t + j + u <= total
    requires 2 * total * a <= 200 * t + total
    requires 2 * total * b <= 200 * j + total
    requires 2 * total * c <= 200 * u + total
    ensures a + b + c <= 101
  {
    var k := 2 * total;
    assert k * (a + b + c) == k * a + k * b + k * c;
    assert k * (a + b + c) <= 200 * total + 3 * total;
    if a + b + c > 101 {
      MulMono(k, 102, a + b + c);
      assert false;
    }
  }
}
