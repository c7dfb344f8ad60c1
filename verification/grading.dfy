/** The grade engine: a percentage from a pair of marks, and the six-band
    letter-grade scale with its fixed remarks. */
module Grading {
  import opened Wrappers

  /** The six grades of the scale, best first. */
  datatype Grade = APlus | A | B | C | D | F {

    /** The letter printed in every table and summary. */
    function Letter(): string {
      match this
      case APlus => "A+"
      case A => "A"
      case B => "B"
      case C => "C"
      case D => "D"
      case F => "F"
    }

    /** The remarks text that accompanies the grade. */
    function Remarks(): string {
      match this
      case APlus => "Outstanding"
      case A => "Excellent"
      case B => "Very Good"
      case C => "Good"
      case D => "Satisfactory"
      case F => "Fail"
    }

    /** Position on the scale: F is 0 and A+ is 5. */
    function Rank(): nat {
      match this
      case APlus => 5
      case A => 4
      case B => 3
      case C => 2
      case D => 1
      case F => 0
    }
  }

  /** The band of percentages each grade covers: every band is closed below
      and open above; A+ has no upper end and F no lower end. */
  predicate InBand(g: Grade, p: real) {
    match g
    case APlus => 90.0 <= p
    case A => 80.0 <= p < 90.0
    case B => 70.0 <= p < 80.0
    case C => 60.0 <= p < 70.0
    case D => 50.0 <= p < 60.0
    case F => p < 50.0
  }

  /** The six (letter, remarks) pairs the grade function can return. */
  const GradePairs: set<(string, string)> :=
    {("A+", "Outstanding"), ("A", "Excellent"), ("B", "Very Good"),
     ("C", "Good"), ("D", "Satisfactory"), ("F", "Fail")}

  /** `calculate_grade`: the first threshold, from the top, that the
      percentage reaches decides the grade. */
  function CalculateGrade(percentage: real): (g: Grade)
    ensures InBand(g, percentage)
  {
    if percentage >= 90.0 then APlus
    else if percentage >= 80.0 then A
    else if percentage >= 70.0 then B
    else if percentage >= 60.0 then C
    else if percentage >= 50.0 then D
    else F
  }

  /** `calculate_grade` returns a (letter, remarks) pair. */
  function GradePair(percentage: real): (pair: (string, string))
    ensures pair in GradePairs
    ensures pair.0 == CalculateGrade(percentage).Letter()
  {
    var g := CalculateGrade(percentage);
    (g.Letter(), g.Remarks())
  }

  /** `calculate_percentage`. An argument that `float()` cannot read is
      `None`; a zero total would divide by zero. In both cases the program
      catches the exception and answers 0.0. */
  function CalculatePercentage(obtained: Option<real>, total: Option<real>): (p: real)
    ensures obtained.None? || total.None? || total.value == 0.0 ==> p == 0.0
    ensures obtained.Some? && total.Some? && total.value != 0.0 ==>
              p * total.value == obtained.value * 100.0
  {
    match (obtained, total)
    case (Some(o), Some(t)) => if t == 0.0 then 0.0 else (o / t) * 100.0
    case _ => 0.0
  }

  /** The bands cover every percentage exactly once, so the band a
      percentage lies in names its grade. */
  lemma BandDeterminesGrade(g: Grade, p: real)
    requires InBand(g, p)
    ensures CalculateGrade(p) == g
  {
  }

  /** Boundaries belong to the higher band. */
  lemma GradeBoundaries()
    ensures GradePair(90.0) == ("A+", "Outstanding")
    ensures GradePair(89.999) == ("A", "Excellent")
    ensures GradePair(80.0) == ("A", "Excellent")
    ensures GradePair(70.0) == ("B", "Very Good")
    ensures GradePair(60.0) == ("C", "Good")
    ensures GradePair(50.0) == ("D", "Satisfactory")
    ensures GradePair(49.9) == ("F", "Fail")
  {
  }

  /** A higher percentage never earns a lower grade. */
  lemma GradeMonotone(p1: real, p2: real)
    requires p1 <= p2
    ensures CalculateGrade(p1).Rank() <= CalculateGrade(p2).Rank()
  {
  }

  /** The letter names the grade, so equal letters always come with equal
      remarks. */
  lemma RemarksFollowLetter(p1: real, p2: real)
    requires GradePair(p1).0 == GradePair(p2).0
    ensures GradePair(p1).1 == GradePair(p2).1
  {
  }

  /** For marks with a positive total and `0 <= obtained <= total` the
      percentage lies in [0, 100]. */
  lemma PercentageInRange(obtained: real, total: real)
    requires 0.0 < total
    requires 0.0 <= obtained <= total
    ensures 0.0 <= CalculatePercentage(Some(obtained), Some(total)) <= 100.0
  {
  }

  /** Degenerate input never fails: any mark over a zero total, or any
      unreadable argument, yields 0 and therefore the grade F. */
  lemma DegenerateInputFails(obtained: Option<real>, total: Option<real>)
    requires obtained.None? || total.None? || total.value == 0.0
    ensures GradePair(CalculatePercentage(obtained, total)) == ("F", "Fail")
  {
  }
}
