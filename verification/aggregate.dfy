/** Per-subject results and the overall result shared by the marksheet and
    every exporter: a subject's percentage comes from its own marks, the
    overall percentage from the sums of all marks. */
module Aggregate {
  import opened Wrappers
  import opened Grading
  import opened Records

  /** One line of a results table: the entry, its percentage and its grade. */
  datatype SubjectResult = SubjectResult(subject: string, obtained: real, total: real, percentage: real, grade: Grade)

  /** The overall block: both sums, the percentage of the sums, its grade
      (whose remarks are `grade.Remarks()`). */
  datatype OverallResult = OverallResult(totalObtained: real, totalMarks: real, percentage: real, grade: Grade)

  /** The percentage of one entry; its marks are always numbers. */
  function SubjectPercentage(e: SubjectEntry): real {
    CalculatePercentage(Some(e.obtained), Some(e.total))
  }

  /** `r` is the correct table line for entry `e`: the entry's own fields,
      the percentage of its own marks, and the grade of that percentage. */
  predicate RowFor(r: SubjectResult, e: SubjectEntry) {
    && r.subject == e.subject
    && r.obtained == e.obtained
    && r.total == e.total
    && (e.total != 0.0 ==> r.percentage * e.total == e.obtained * 100.0)
    && (e.total == 0.0 ==> r.percentage == 0.0)
    && InBand(r.grade, r.percentage)
  }

  /** The table a DataFrame yields: a percentage column computed from each
      row's marks, then a grade column computed from the percentage column. */
  function SubjectResults(s: seq<SubjectEntry>): (rows: seq<SubjectResult>)
    ensures |rows| == |s|
    ensures forall i :: 0 <= i < |s| ==> RowFor(rows[i], s[i])
  {
    var percentages := seq(|s|, i requires 0 <= i < |s| => SubjectPercentage(s[i]));
    var grades := seq(|s|, i requires 0 <= i < |s| => CalculateGrade(percentages[i]));
    seq(|s|, i requires 0 <= i < |s| =>
      SubjectResult(s[i].subject, s[i].obtained, s[i].total, percentages[i], grades[i]))
  }

  /** Sum of the obtained marks. */
  function TotalObtained(s: seq<SubjectEntry>): real {
    if |s| == 0 then 0.0 else TotalObtained(s[..|s| - 1]) + s[|s| - 1].obtained
  }

  /** Sum of the total marks. */
  function TotalMarks(s: seq<SubjectEntry>): real {
    if |s| == 0 then 0.0 else TotalMarks(s[..|s| - 1]) + s[|s| - 1].total
  }

  /** Sum of each subject's percentage weighted by its total marks; the
      reference against which the overall percentage is characterised. */
  function WeightedPercentages(s: seq<SubjectEntry>): real {
    if |s| == 0 then 0.0
    else WeightedPercentages(s[..|s| - 1]) + SubjectPercentage(s[|s| - 1]) * s[|s| - 1].total
  }

  /** The overall result: the percentage of the summed marks, and its grade. */
  function Overall(s: seq<SubjectEntry>): (o: OverallResult)
    ensures o.totalObtained == TotalObtained(s) && o.totalMarks == TotalMarks(s)
    ensures o.totalMarks != 0.0 ==> o.percentage * o.totalMarks == o.totalObtained * 100.0
    ensures o.totalMarks == 0.0 ==> o.percentage == 0.0 && o.grade == F
    ensures InBand(o.grade, o.percentage)
  {
    var obtained := TotalObtained(s);
    var marks := TotalMarks(s);
    var percentage := CalculatePercentage(Some(obtained), Some(marks));
    OverallResult(obtained, marks, percentage, CalculateGrade(percentage))
  }

  /** Every total mark is positive. */
  predicate PositiveTotals(s: seq<SubjectEntry>) {
    forall i :: 0 <= i < |s| ==> s[i].total > 0.0
  }

  /** Sums distribute over concatenation, so both sums are independent of
      how the list was built up. */
  lemma {:induction false} TotalsAppend(a: seq<SubjectEntry>, b: seq<SubjectEntry>)
    ensures TotalObtained(a + b) == TotalObtained(a) + TotalObtained(b)
    ensures TotalMarks(a + b) == TotalMarks(a) + TotalMarks(b)
    decreases |b|
  {
    if |b| == 0 {
      assert a + b == a;
    } else {
      var b' := b[..|b| - 1];
      assert (a + b)[..|a + b| - 1] == a + b';
      TotalsAppend(a, b');
    }
  }

  /** With positive totals the sum of the total marks is positive on any
      non-empty list. */
  lemma {:induction false} TotalMarksPositive(s: seq<SubjectEntry>)
    requires PositiveTotals(s)
    ensures |s| > 0 ==> TotalMarks(s) > 0.0
    ensures TotalMarks(s) >= 0.0
  {
    if |s| > 0 {
      TotalMarksPositive(s[..|s| - 1]);
    }
  }

  /** The weighted sum of percentages is 100 times the sum of obtained
      marks: weighting each percentage by its own total recovers the marks. */
  lemma {:induction false} WeightedIsScaledObtained(s: seq<SubjectEntry>)
    requires PositiveTotals(s)
    ensures WeightedPercentages(s) == TotalObtained(s) * 100.0
  {
    if |s| > 0 {
      var last := s[|s| - 1];
      WeightedIsScaledObtained(s[..|s| - 1]);
      assert SubjectPercentage(last) * last.total == last.obtained * 100.0;
    }
  }

  /** The overall percentage is the mean of the subject percentages weighted
      by total marks, not their plain mean. */
  lemma {:induction false} OverallIsWeightedMean(s: seq<SubjectEntry>)
    requires |s| > 0
    requires PositiveTotals(s)
    ensures TotalMarks(s) > 0.0 && Overall(s).percentage == WeightedPercentages(s) / TotalMarks(s)
  {
    WeightedIsScaledObtained(s);
    TotalMarksPositive(s);
  }

  /** Two subjects where the plain mean of the percentages (50) and the
      percentage of the sums (100/3) differ, and so do their grades. */
  lemma OverallIsNotPlainMean()
    ensures var s := [SubjectEntry("X", 100.0, 100.0), SubjectEntry("Y", 0.0, 200.0)];
            && (SubjectPercentage(s[0]) + SubjectPercentage(s[1])) / 2.0 == 50.0
            && Overall(s).percentage == 100.0 / 3.0
            && Overall(s).grade == F
  {
    var s := [SubjectEntry("X", 100.0, 100.0), SubjectEntry("Y", 0.0, 200.0)];
    assert s[..1] == [s[0]];
    assert s[..1][..0] == [];
    assert TotalObtained(s) == 100.0;
    assert TotalMarks(s) == 300.0;
  }

  /** Equal totals make the two notions coincide: (50/50, 0/50) gives 50. */
  lemma EqualTotalsExample()
    ensures Overall([SubjectEntry("X", 50.0, 50.0), SubjectEntry("Y", 0.0, 50.0)]).percentage == 50.0
  {
    var s := [SubjectEntry("X", 50.0, 50.0), SubjectEntry("Y", 0.0, 50.0)];
    assert s[..1] == [s[0]];
    assert s[..1][..0] == [];
    assert TotalObtained(s) == 50.0;
    assert TotalMarks(s) == 100.0;
  }

  /** The sum of an empty list is zero, so its overall grade is F. */
  lemma EmptyOverall()
    ensures Overall([]) == OverallResult(0.0, 0.0, 0.0, F)
  {
  }

  /** If every subject has `0 <= obtained <= total`, so do the sums. */
  lemma {:induction false} TotalsOrdered(s: seq<SubjectEntry>)
    requires forall i :: 0 <= i < |s| ==> 0.0 <= s[i].obtained <= s[i].total
    ensures 0.0 <= TotalObtained(s) <= TotalMarks(s)
  {
    if |s| > 0 {
      TotalsOrdered(s[..|s| - 1]);
    }
  }

  /** Marks within their totals give an overall percentage in [0, 100]. */
  lemma OverallInRange(s: seq<SubjectEntry>)
    requires |s| > 0
    requires PositiveTotals(s)
    requires forall i :: 0 <= i < |s| ==> 0.0 <= s[i].obtained <= s[i].total
    ensures 0.0 <= Overall(s).percentage <= 100.0
  {
    TotalsOrdered(s);
    TotalMarksPositive(s);
    PercentageInRange(TotalObtained(s), TotalMarks(s));
  }

  /** A lower bound on every subject percentage bounds the weighted sum. */
  lemma {:induction false} WeightedAtLeast(s: seq<SubjectEntry>, lo: real)
    requires PositiveTotals(s)
    requires forall i :: 0 <= i < |s| ==> lo <= SubjectPercentage(s[i])
    ensures lo * TotalMarks(s) <= WeightedPercentages(s)
  {
    if |s| > 0 {
      var last := s[|s| - 1];
      WeightedAtLeast(s[..|s| - 1], lo);
      assert lo * last.total <= SubjectPercentage(last) * last.total;
    }
  }

  /** A strict upper bound on every subject percentage bounds the weighted
      sum of a non-empty list strictly. */
  lemma {:induction false} WeightedBelow(s: seq<SubjectEntry>, hi: real)
    requires |s| > 0
    requires PositiveTotals(s)
    requires forall i :: 0 <= i < |s| ==> SubjectPercentage(s[i]) < hi
    ensures WeightedPercentages(s) < hi * TotalMarks(s)
  {
    var last := s[|s| - 1];
    assert SubjectPercentage(last) * last.total < hi * last.total;
    if |s| > 1 {
      WeightedBelow(s[..|s| - 1], hi);
    }
  }

  /** The overall percentage is at least any lower bound shared by all the
      subject percentages. */
  lemma {:induction false} OverallAtLeast(s: seq<SubjectEntry>, lo: real)
    requires |s| > 0
    requires PositiveTotals(s)
    requires forall i :: 0 <= i < |s| ==> lo <= SubjectPercentage(s[i])
    ensures lo <= Overall(s).percentage
  {
    var p, t := Overall(s).percentage, TotalMarks(s);
    WeightedAtLeast(s, lo);
    WeightedIsScaledObtained(s);
    TotalMarksPositive(s);
    assert lo * t <= p * t;
  }

  /** The overall percentage is below any strict upper bound shared by all
      the subject percentages. */
  lemma {:induction false} OverallBelow(s: seq<SubjectEntry>, hi: real)
    requires |s| > 0
    requires PositiveTotals(s)
    requires forall i :: 0 <= i < |s| ==> SubjectPercentage(s[i]) < hi
    ensures Overall(s).percentage < hi
  {
    var p, t := Overall(s).percentage, TotalMarks(s);
    WeightedBelow(s, hi);
    WeightedIsScaledObtained(s);
    TotalMarksPositive(s);
    assert p * t < hi * t;
  }

  /** If every subject reaches at least grade `g`, so does the overall
      result. */
  lemma {:induction false} OverallGradeAtLeast(s: seq<SubjectEntry>, g: Grade)
    requires |s| > 0
    requires PositiveTotals(s)
    requires forall i :: 0 <= i < |s| ==> CalculateGrade(SubjectPercentage(s[i])).Rank() >= g.Rank()
    ensures Overall(s).grade.Rank() >= g.Rank()
  {
    if g != F {
      forall i | 0 <= i < |s|
        ensures Threshold(g) <= SubjectPercentage(s[i])
      {
        ThresholdReached(SubjectPercentage(s[i]), g);
      }
      OverallAtLeast(s, Threshold(g));
      ThresholdReached(Overall(s).percentage, g);
    }
  }

  /** If no subject is above grade `g`, neither is the overall result. */
  lemma {:induction false} OverallGradeAtMost(s: seq<SubjectEntry>, g: Grade)
    requires |s| > 0
    requires PositiveTotals(s)
    requires forall i :: 0 <= i < |s| ==> CalculateGrade(SubjectPercentage(s[i])).Rank() <= g.Rank()
    ensures Overall(s).grade.Rank() <= g.Rank()
  {
    if g != APlus {
      var up := NextUp(g);
      forall i | 0 <= i < |s|
        ensures SubjectPercentage(s[i]) < Threshold(up)
      {
        ThresholdReached(SubjectPercentage(s[i]), up);
      }
      OverallBelow(s, Threshold(up));
      ThresholdReached(Overall(s).percentage, up);
    }
  }

  /** The lower end of a passing grade's band. */
  function Threshold(g: Grade): real
    requires g != F
  {
    match g
    case APlus => 90.0
    case A => 80.0
    case B => 70.0
    case C => 60.0
    case D => 50.0
  }

  /** The grade one step up the scale. */
  function NextUp(g: Grade): (h: Grade)
    requires g != APlus
    ensures h != F && h.Rank() == g.Rank() + 1
  {
    match g
    case A => APlus
    case B => A
    case C => B
    case D => C
    case F => D
  }

  /** A percentage earns grade `g` or better exactly when it reaches the
      lower end of `g`'s band. */
  lemma ThresholdReached(p: real, g: Grade)
    requires g != F
    ensures CalculateGrade(p).Rank() >= g.Rank() <==> p >= Threshold(g)
  {
  }
}
