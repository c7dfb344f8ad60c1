/** The three exporters, each modelled by the abstract document it builds:
    the page document (PDF), the word-processor document and the JSON
    record. Rendering to bytes is not modelled; the documents hold the
    values that the rendering prints. */
module Exports {
  import opened Wrappers
  import opened Grading
  import opened Records
  import opened Aggregate

  /** Why an exporter raises instead of returning a document. */
  datatype ExportError =
    | PhotoUnreadable   // the imaging library cannot open the uploaded photo
    | NoMarksColumn     // a DataFrame built from no subjects has no marks column

  /** A results table: one header row and one row per subject. */
  datatype Table = Table(header: seq<string>, rows: seq<SubjectResult>)

  /** The identity panel of the page document. */
  datatype InfoPanel = InfoPanel(name: string, rollNo: string, className: string, academicYear: string)

  /** The page document: the identity panel (present only with a photo), the
      results table and the overall panel with grade and remarks. */
  datatype PdfDocument = PdfDocument(infoPanel: Option<InfoPanel>, table: Table, overall: OverallResult)

  /** The word-processor document: the four identity lines, the results
      table and the overall section. */
  datatype WordDocument = WordDocument(info: StudentInfo, table: Table, overall: OverallResult)

  /** The `overall_result` object of the JSON record. */
  datatype JsonOverall = JsonOverall(totalObtained: int, totalMarks: int, overallPercentage: real,
                                     overallGrade: string, remarks: string)

  /** The JSON record: identity and subjects as given (the subjects carry no
      percentage or grade), and the overall block. */
  datatype JsonRecord = JsonRecord(studentInfo: StudentInfo, subjects: seq<SubjectEntry>, overallResult: JsonOverall)

  const PdfHeader: seq<string> := ["Subject", "Obtained", "Total", "Percentage", "Grade"]
  const WordHeader: seq<string> := ["Subject", "Obtained Marks", "Total Marks", "Percentage", "Grade"]

  /** Upper case of one character, for the Latin letters a-z. */
  function UpperChar(c: char): char {
    if 'a' <= c <= 'z' then (c as int - 32) as char else c
  }

  /** The student's name in upper case, as the page document shows it. */
  function UpperAscii(s: string): (u: string)
    ensures |u| == |s|
    ensures forall i :: 0 <= i < |s| ==> ('a' <= s[i] <= 'z' ==> u[i] as int == s[i] as int - 32)
    ensures forall i :: 0 <= i < |s| ==> (!('a' <= s[i] <= 'z') ==> u[i] == s[i])
  {
    seq(|s|, i requires 0 <= i < |s| => UpperChar(s[i]))
  }

  /** `export_to_pdf`. The photo is processed first, so an unreadable photo
      raises before anything else; then the DataFrame of no subjects has no
      marks column. */
  function ExportToPdf(info: StudentInfo, subjects: seq<SubjectEntry>, photo: Option<PhotoUpload>)
    : (r: Result<PdfDocument, ExportError>)
    ensures r == Failure(PhotoUnreadable) <==> photo.Some? && !photo.value.decodes
    ensures r == Failure(NoMarksColumn) <==> (photo.None? || photo.value.decodes) && |subjects| == 0
    ensures r.Success? ==> r.value.table.header == PdfHeader
    ensures r.Success? ==> |r.value.table.rows| == |subjects|
    ensures r.Success? ==> forall i :: 0 <= i < |subjects| ==> RowFor(r.value.table.rows[i], subjects[i])
    ensures r.Success? ==> r.value.overall == Overall(subjects)
    ensures r.Success? ==> (r.value.infoPanel.Some? <==> photo.Some?)
    ensures r.Success? && photo.Some? ==>
              r.value.infoPanel.value.name == UpperAscii(info.name)
              && r.value.infoPanel.value.rollNo == info.rollNo
              && r.value.infoPanel.value.className == info.className
              && r.value.infoPanel.value.academicYear == info.academicYear
  {
    if photo.Some? && !photo.value.decodes then Failure(PhotoUnreadable)
    else if |subjects| == 0 then Failure(NoMarksColumn)
    else
      var panel := if photo.Some?
        then Some(InfoPanel(UpperAscii(info.name), info.rollNo, info.className, info.academicYear))
        else None;
      Success(PdfDocument(panel, Table(PdfHeader, SubjectResults(subjects)), Overall(subjects)))
  }

  /** The row loop of `export_to_word`: each subject's percentage and grade
      computed one subject at a time. It builds the same rows as the
      DataFrame columns of the other exporters. */
  method WordRows(subjects: seq<SubjectEntry>) returns (rows: seq<SubjectResult>)
    ensures rows == SubjectResults(subjects)
  {
    rows := [];
    var i := 0;
    while i < |subjects|
      invariant 0 <= i <= |subjects|
      invariant rows == SubjectResults(subjects)[..i]
    {
      var subject := subjects[i];
      var percentage := CalculatePercentage(Some(subject.obtained), Some(subject.total));
      var grade := CalculateGrade(percentage);
      rows := rows + [SubjectResult(subject.subject, subject.obtained, subject.total, percentage, grade)];
      i := i + 1;
    }
    assert SubjectResults(subjects)[..|subjects|] == SubjectResults(subjects);
  }

  /** The two generator sums of `export_to_word`, accumulated front to back. */
  method WordTotals(subjects: seq<SubjectEntry>) returns (totalObtained: real, totalMarks: real)
    ensures totalObtained == TotalObtained(subjects)
    ensures totalMarks == TotalMarks(subjects)
  {
    totalObtained := 0.0;
    totalMarks := 0.0;
    var i := 0;
    while i < |subjects|
      invariant 0 <= i <= |subjects|
      invariant totalObtained == TotalObtained(subjects[..i])
      invariant totalMarks == TotalMarks(subjects[..i])
    {
      assert subjects[..i + 1][..i] == subjects[..i];
      totalObtained := totalObtained + subjects[i].obtained;
      totalMarks := totalMarks + subjects[i].total;
      i := i + 1;
    }
    assert subjects[..|subjects|] == subjects;
  }

  /** `export_to_word`: a row per subject, then the two sums and the overall
      result. The photo is accepted and unused. Unlike the other exporters it
      does not raise on an empty list: a zero summed total gives 0 and F. */
  method ExportToWord(info: StudentInfo, subjects: seq<SubjectEntry>, photo: Option<PhotoUpload>)
    returns (doc: WordDocument)
    ensures doc.info == info
    ensures doc.table.header == WordHeader
    ensures |doc.table.rows| == |subjects|
    ensures forall i :: 0 <= i < |subjects| ==> RowFor(doc.table.rows[i], subjects[i])
    ensures doc.overall.totalObtained == TotalObtained(subjects)
    ensures doc.overall.totalMarks == TotalMarks(subjects)
    ensures doc.overall.totalMarks != 0.0 ==>
              doc.overall.percentage * doc.overall.totalMarks == doc.overall.totalObtained * 100.0
    ensures doc.overall.totalMarks == 0.0 ==> doc.overall.percentage == 0.0 && doc.overall.grade == F
    ensures InBand(doc.overall.grade, doc.overall.percentage)
    ensures ExportToPdf(info, subjects, photo).Success? ==>
              && ExportToPdf(info, subjects, photo).value.table.rows == doc.table.rows
              && ExportToPdf(info, subjects, photo).value.overall == doc.overall
  {
    var rows := WordRows(subjects);
    var totalObtained, totalMarks := WordTotals(subjects);
    var overallPercentage := CalculatePercentage(Some(totalObtained), Some(totalMarks));
    var overallGrade := CalculateGrade(overallPercentage);
    doc := WordDocument(info, Table(WordHeader, rows), OverallResult(totalObtained, totalMarks, overallPercentage, overallGrade));
  }

  /** Round half to even: the nearest integer, and the even one on a tie. */
  function RoundHalfEven(y: real): (n: int)
    ensures -0.5 <= n as real - y <= 0.5
    ensures n as real - y == 0.5 || y - n as real == 0.5 ==> n % 2 == 0
  {
    var f := y.Floor;
    var fraction := y - f as real;
    if fraction < 0.5 then f
    else if fraction > 0.5 then f + 1
    else if f % 2 == 0 then f
    else f + 1
  }

  /** An integer is its own rounding, and any integer closer than one half
      is the rounding. */
  lemma RoundHalfEvenNearest(y: real, m: int)
    requires -0.5 < m as real - y < 0.5
    ensures RoundHalfEven(y) == m
  {
  }

  /** `float(f"{x:.2f}")` on the exact value: the nearest multiple of 0.01,
      ties to the even hundredth. */
  function RoundToHundredths(x: real): (r: real)
    ensures -0.005 <= r - x <= 0.005
    ensures (r * 100.0).Floor as real == r * 100.0
  {
    RoundHalfEven(x * 100.0) as real / 100.0
  }

  /** A value already on two decimals is unchanged by rounding again. */
  lemma RoundToHundredthsIdempotent(x: real)
    ensures RoundToHundredths(RoundToHundredths(x)) == RoundToHundredths(x)
  {
    var r := RoundToHundredths(x);
    var n := RoundHalfEven(x * 100.0);
    assert r * 100.0 == n as real;
    RoundHalfEvenNearest(r * 100.0, n);
  }

  /** `int()` of a number: truncation toward zero. */
  function TruncateToInt(x: real): (n: int)
    ensures 0.0 <= x ==> n as real <= x < n as real + 1.0
    ensures x < 0.0 ==> n as real - 1.0 < x <= n as real
  {
    if x >= 0.0 then x.Floor else -((-x).Floor)
  }

  /** Truncation leaves a whole number unchanged. */
  lemma TruncateWhole(n: int)
    ensures TruncateToInt(n as real) == n
  {
  }

  /** `export_to_json`: the record of identity, subjects and overall result.
      The grade is taken from the unrounded percentage. */
  function ExportToJson(info: StudentInfo, subjects: seq<SubjectEntry>): (r: Result<JsonRecord, ExportError>)
    ensures r.Failure? <==> |subjects| == 0
    ensures r.Failure? ==> r.error == NoMarksColumn
    ensures r.Success? ==> r.value.studentInfo == info && r.value.subjects == subjects
    ensures r.Success? ==>
              var o := r.value.overallResult;
              var overall := Overall(subjects);
              && o.overallGrade == overall.grade.Letter()
              && o.remarks == overall.grade.Remarks()
              && o.overallPercentage == RoundToHundredths(overall.percentage)
              && -0.005 <= o.overallPercentage - overall.percentage <= 0.005
              && o.totalObtained == TruncateToInt(TotalObtained(subjects))
              && o.totalMarks == TruncateToInt(TotalMarks(subjects))
  {
    if |subjects| == 0 then Failure(NoMarksColumn)
    else
      var totalObtained := TotalObtained(subjects);
      var totalMarks := TotalMarks(subjects);
      var overallPercentage := CalculatePercentage(Some(totalObtained), Some(totalMarks));
      var (grade, remarks) := GradePair(overallPercentage);
      Success(JsonRecord(info, subjects,
        JsonOverall(TruncateToInt(totalObtained), TruncateToInt(totalMarks),
                    RoundToHundredths(overallPercentage), grade, remarks)))
  }

  /** The JSON grade comes from the unrounded percentage, so a record can
      show 90.0 beside the grade A (89.9975 rounds up, but is below 90). */
  lemma JsonRoundedPercentageMayDisagreeWithGrade()
    ensures var s := [SubjectEntry("Math", 35999.0, 40000.0)];
            && ExportToJson(StudentInfo("", "", "", ""), s).Success?
            && ExportToJson(StudentInfo("", "", "", ""), s).value.overallResult.overallPercentage == 90.0
            && ExportToJson(StudentInfo("", "", "", ""), s).value.overallResult.overallGrade == "A"
  {
    var s := [SubjectEntry("Math", 35999.0, 40000.0)];
    assert s[..0] == [];
    assert TotalObtained(s) == 35999.0;
    assert TotalMarks(s) == 40000.0;
    assert CalculatePercentage(Some(35999.0), Some(40000.0)) == 89.9975;
    assert RoundHalfEven(8999.75) == 9000;
  }
}
