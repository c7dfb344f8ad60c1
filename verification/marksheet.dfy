/** The on-screen marksheet of `display_marksheet`: identity, photo, the
    results table and the overall result. */
module Marksheet {
  import opened Wrappers
  import opened Grading
  import opened Records
  import opened Aggregate

  /** What the photo column shows. A photo that cannot be opened is caught
      here and replaced by an error message. */
  datatype PhotoView = NoPhotoShown | PhotoShown | PhotoLoadError

  /** The results part: a warning when there are no subjects. */
  datatype ResultsSection =
    | NoSubjectsWarning
    | Results(rows: seq<SubjectResult>, overall: OverallResult)

  datatype MarksheetView = MarksheetView(info: StudentInfo, photo: PhotoView, results: ResultsSection)

  /** `display_marksheet`. */
  function DisplayMarksheet(info: StudentInfo, subjects: seq<SubjectEntry>, photo: Option<PhotoUpload>)
    : (v: MarksheetView)
    ensures v.info == info
    ensures v.photo == NoPhotoShown <==> photo.None?
    ensures v.photo == PhotoLoadError <==> photo.Some? && !photo.value.decodes
    ensures v.results == NoSubjectsWarning <==> |subjects| == 0
    ensures v.results.Results? ==> |v.results.rows| == |subjects|
    ensures v.results.Results? ==> forall i :: 0 <= i < |subjects| ==> RowFor(v.results.rows[i], subjects[i])
    ensures v.results.Results? ==> v.results.overall == Overall(subjects)
  {
    var photoView :=
      match photo
      case None => NoPhotoShown
      case Some(p) => if p.decodes then PhotoShown else PhotoLoadError;
    var results := if |subjects| == 0 then NoSubjectsWarning else Results(SubjectResults(subjects), Overall(subjects));
    MarksheetView(info, photoView, results)
  }
}
