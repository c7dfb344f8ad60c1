/** How the marksheet and the three exporters relate: they derive the same
    rows and the same overall result, and a session that shows the marksheet
    can be exported whenever there is no photo or a readable one. */
module Agreement {
  import opened Wrappers
  import opened Grading
  import opened Records
  import opened Aggregate
  import opened Exports
  import opened Marksheet
  import opened Session

  /** On a non-empty list with a readable or no photo, the page document,
      the JSON record and the marksheet all exist and agree: the same rows in
      input order, the same overall result, the same grade and remarks. */
  lemma {:induction false} ExportsAgree(info: StudentInfo, subjects: seq<SubjectEntry>, photo: Option<PhotoUpload>)
    requires |subjects| > 0
    requires photo.None? || photo.value.decodes
    ensures ExportToPdf(info, subjects, photo).Success?
    ensures ExportToJson(info, subjects).Success?
    ensures DisplayMarksheet(info, subjects, photo).results.Results?
    ensures var pdf := ExportToPdf(info, subjects, photo).value;
            var json := ExportToJson(info, subjects).value;
            var sheet := DisplayMarksheet(info, subjects, photo).results;
            && pdf.table.rows == sheet.rows
            && pdf.overall == sheet.overall
            && json.overallResult.overallGrade == pdf.overall.grade.Letter()
            && json.overallResult.remarks == pdf.overall.grade.Remarks()
            && -0.005 <= json.overallResult.overallPercentage - pdf.overall.percentage <= 0.005
            && json.subjects == subjects
            && forall i :: 0 <= i < |subjects| ==> pdf.table.rows[i].subject == subjects[i].subject
  {
    var pdf := ExportToPdf(info, subjects, photo).value;
    var sheet := DisplayMarksheet(info, subjects, photo).results;
    forall i | 0 <= i < |subjects|
      ensures pdf.table.rows[i] == sheet.rows[i]
    {
      RowsDetermined(pdf.table.rows[i], sheet.rows[i], subjects[i]);
    }
    assert pdf.overall.percentage == sheet.overall.percentage;
    BandDeterminesGrade(pdf.overall.grade, pdf.overall.percentage);
    BandDeterminesGrade(sheet.overall.grade, sheet.overall.percentage);
  }

  /** Two rows that are both correct for one entry are equal. */
  lemma {:induction false} RowsDetermined(r1: SubjectResult, r2: SubjectResult, e: SubjectEntry)
    requires RowFor(r1, e) && RowFor(r2, e)
    ensures r1 == r2
  {
    if e.total != 0.0 {
      assert r1.percentage * e.total == r2.percentage * e.total;
      assert r1.percentage == (r1.percentage * e.total) / e.total;
    }
    BandDeterminesGrade(r1.grade, r1.percentage);
    BandDeterminesGrade(r2.grade, r2.percentage);
  }

  /** A form-built list has positive totals. */
  lemma FormBuiltPositive(subjects: seq<SubjectEntry>)
    requires FormBuilt(subjects)
    ensures PositiveTotals(subjects)
  {
  }

  /** Sums of whole marks are whole, so the JSON integer totals are the
      exact sums. */
  lemma {:induction false} FormBuiltTotalsWhole(subjects: seq<SubjectEntry>)
    requires FormBuilt(subjects)
    ensures TruncateToInt(TotalObtained(subjects)) as real == TotalObtained(subjects)
    ensures TruncateToInt(TotalMarks(subjects)) as real == TotalMarks(subjects)
  {
    if |subjects| > 0 {
      var n := |subjects| - 1;
      FormBuiltTotalsWhole(subjects[..n]);
      var o := TruncateToInt(TotalObtained(subjects[..n]));
      var t := TruncateToInt(TotalMarks(subjects[..n]));
      var lo := subjects[n].obtained.Floor;
      var lt := subjects[n].total.Floor;
      assert TotalObtained(subjects) == (o + lo) as real;
      assert TotalMarks(subjects) == (t + lt) as real;
      TruncateWhole(o + lo);
      TruncateWhole(t + lt);
    }
  }

  /** A session that shows the marksheet and whose list came from the form
      (as every reachable one did, `RunKeepsFormBuilt`) can be exported to
      every format with a readable photo or none: its list is non-empty,
      every total is positive, and the JSON totals are exact. */
  lemma VisibleSessionExports(st: State, info: StudentInfo, photo: Option<PhotoUpload>)
    requires photo.None? || photo.value.decodes
    requires FormBuilt(st.subjects)
    requires MarksheetVisible(st)
    ensures ExportToPdf(info, st.subjects, photo).Success?
    ensures ExportToJson(info, st.subjects).Success?
    ensures PositiveTotals(st.subjects)
    ensures ExportToJson(info, st.subjects).value.overallResult.totalObtained as real == TotalObtained(st.subjects)
    ensures ExportToJson(info, st.subjects).value.overallResult.totalMarks as real == TotalMarks(st.subjects)
  {
    FormBuiltTotalsWhole(st.subjects);
  }

  /** A worked report: 45/50, 38/50 and 30/50 give 90% A+, 76% B and 60% C;
      the sums 113/150 give 75.33% and B, "Very Good". */
  lemma WorkedExample()
    ensures var info := StudentInfo("Asha Rao", "12", "10A", "2024-25");
            var s := [SubjectEntry("Math", 45.0, 50.0), SubjectEntry("Science", 38.0, 50.0),
                      SubjectEntry("English", 30.0, 50.0)];
            && SubjectResults(s) == [SubjectResult("Math", 45.0, 50.0, 90.0, APlus),
                                     SubjectResult("Science", 38.0, 50.0, 76.0, B),
                                     SubjectResult("English", 30.0, 50.0, 60.0, C)]
            && ExportToJson(info, s) == Success(JsonRecord(info, s,
                 JsonOverall(113, 150, 75.33, "B", "Very Good")))
  {
    var s := [SubjectEntry("Math", 45.0, 50.0), SubjectEntry("Science", 38.0, 50.0),
              SubjectEntry("English", 30.0, 50.0)];
    assert s[..2] == [s[0], s[1]];
    assert s[..2][..1] == [s[0]];
    assert s[..2][..1][..0] == [];
    assert TotalObtained(s[..2][..1]) == 45.0 && TotalMarks(s[..2][..1]) == 50.0;
    assert TotalObtained(s[..2]) == 83.0 && TotalMarks(s[..2]) == 100.0;
    assert TotalObtained(s) == 113.0 && TotalMarks(s) == 150.0;
    var p := CalculatePercentage(Some(113.0), Some(150.0));
    assert p == 11300.0 / 150.0;
    assert RoundHalfEven(p * 100.0) == 7533;
    assert CalculateGrade(p) == B;
  }
}
