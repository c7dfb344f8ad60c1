# Student result generator — grade engine, exports and subject list

This project models the logic of a small single-session student result
generator. A student's identity and an ordered list of subjects (name,
obtained marks, total marks) are entered through a form. From them the
program computes a percentage and letter grade per subject and an overall
percentage, grade and remarks from the *sums* of the marks. It shows them
as an on-screen marksheet and exports them as a page document (PDF), a
word-processor document and a JSON record.

The model is written in Dafny:

- `wrappers.dfy` — `Option` and `Result`.
- `grading.dfy` (module `Grading`) — `calculate_grade` as a six-band scale
  over exact `real` percentages; `calculate_percentage` with its silent
  0.0 fallback. An argument `float()` cannot read is `None`.
- `records.dfy` (module `Records`) — identity, subject entry, uploaded photo.
- `aggregate.dfy` (module `Aggregate`) — per-subject result rows, the sums,
  the overall result. Includes its characterisation as the mean of subject
  percentages weighted by total marks, and the grade bounds that follow.
- `exports.dfy` (module `Exports`) — the three exporters as abstract
  documents: a table (header plus rows) and an overall block for PDF and
  Word, and the three-part JSON record. Includes the `int()` truncation and
  two-decimal rounding of the JSON overall block.
- `marksheet.dfy` (module `Marksheet`) — `display_marksheet`.
- `session.dfy` (module `Session`) — the sidebar's subject list as pure
  transitions: add from the form, remove selected, clear all, generate.
- `agreement.dfy` (module `Agreement`) — all formats agree. Any session
  that shows the marksheet can be exported, provided there is no photo or
  a readable one. A worked example is included.

Percentages are exact rationals (`real`), not IEEE doubles. So band
boundaries and the sums-based aggregate hold exactly.

The model follows the code in four behaviours that a reader of the
program's intent might not expect:

- An undecodable photo makes the PDF exporter raise (`PhotoUnreadable`).
  The photo is opened without a `try` (utils.py:94-103). Only the on-screen
  marksheet catches this error (components.py:94-99).
- On an empty subject list the PDF and JSON exporters raise: a DataFrame
  built from no rows has no marks column (`NoMarksColumn`). Only the Word
  exporter yields the zero/F result there.
- The PDF shows the identity panel (upper-cased name, roll number, class,
  academic year) only when a photo is supplied (utils.py:94-129).
- Nothing checks that obtained marks stay within the total. The form bounds
  obtained to 0..100 and total to at least 1, independently
  (components.py:32-34).

## Model

| member | source | states |
|---|---|---|
| Grading.CalculateGrade | utils.py:14-27 | the grade returned is the one whose band (inclusive lower bound 90/80/70/60/50, F below 50) contains the percentage |
| Grading.GradePair | utils.py:14-27 | the (letter, remarks) result is always one of the six fixed pairs, and its letter is the band's letter |
| Grading.CalculatePercentage | utils.py:29-34 | unreadable argument or zero total gives 0.0; otherwise percentage times total equals obtained times 100 |
| Grading.BandDeterminesGrade | utils.py:16-27 | the bands partition the reals: a percentage lying in a grade's band receives exactly that grade |
| Grading.GradeBoundaries | utils.py:16-27 | boundaries go to the higher band: 90 is A+/Outstanding, 89.999 is A, 49.9 is F/Fail, and each threshold 80..50 |
| Grading.GradeMonotone | utils.py:16-27 | a higher percentage never receives a lower-ranked grade |
| Grading.RemarksFollowLetter | utils.py:16-27 | two results with the same letter carry the same remarks |
| Grading.PercentageInRange | utils.py:32 | with total > 0 and 0 <= obtained <= total the percentage lies in [0, 100] |
| Grading.DegenerateInputFails | utils.py:31-34 | degenerate input (zero total, unreadable mark) never raises and grades as F/Fail |
| Aggregate.SubjectResults | utils.py:137-142 | one row per subject in input order, each carrying its entry's fields, its own percentage and the grade of that percentage |
| Aggregate.Overall | utils.py:176-180 | the overall block carries both sums; percentage times summed total equals summed obtained times 100 (0 and F for a zero sum); grade in the band of that percentage |
| Aggregate.TotalsAppend | utils.py:261-262 | both sums distribute over concatenation of subject lists |
| Aggregate.WeightedIsScaledObtained | utils.py:177-179 | with positive totals, the total-weighted sum of subject percentages is 100 times the summed obtained marks |
| Aggregate.OverallIsWeightedMean | utils.py:177-179 | the overall percentage is the mean of subject percentages weighted by total marks |
| Aggregate.OverallIsNotPlainMean | utils.py:283-286 | for (100/100, 0/200) the overall is 100/3 and F while the plain mean of percentages is 50 |
| Aggregate.EqualTotalsExample | utils.py:261-263 | for (50/50, 0/50) the overall percentage is 50 |
| Aggregate.EmptyOverall | utils.py:261-264 | an empty list sums to 0/0, percentage 0, grade F |
| Aggregate.OverallInRange | utils.py:177-179 | if every subject has 0 <= obtained <= total and total > 0, the overall percentage lies in [0, 100] |
| Aggregate.OverallAtLeast | utils.py:177-179 | with positive totals, the overall percentage is at least any lower bound of all subject percentages |
| Aggregate.OverallBelow | utils.py:177-179 | with positive totals, the overall percentage is below any strict upper bound of all subject percentages |
| Aggregate.OverallGradeAtLeast | utils.py:177-180 | if every subject reaches grade g or better, the overall grade is g or better |
| Aggregate.OverallGradeAtMost | utils.py:177-180 | if no subject is above grade g, the overall grade is not above g |
| Aggregate.ThresholdReached | utils.py:16-25 | a percentage earns grade g or better exactly when it reaches g's lower threshold |
| Exports.UpperAscii | utils.py:109 | the shown name has the same length, letters a-z raised to upper case, every other character unchanged |
| Exports.ExportToPdf | utils.py:73-222 | raises for an unreadable photo (checked first), then for an empty list; otherwise the identity panel exists iff a photo was given, the header is fixed, one correct row per subject in order, overall equals the sums-based overall |
| Exports.WordRows | utils.py:250-258 | the rows built one subject at a time are exactly the rows of the DataFrame path |
| Exports.WordTotals | utils.py:261-262 | the front-to-back accumulations equal the summed obtained and total marks |
| Exports.ExportToWord | utils.py:224-271 | identity verbatim, fixed header, one correct row per subject in order, overall from the sums (0 and F for a zero summed total, so also for an empty list); rows and overall equal the PDF's whenever the PDF exists |
| Exports.RoundHalfEven | utils.py:295 | the result is within one half of the input, and even on an exact tie |
| Exports.RoundHalfEvenNearest | utils.py:295 | any integer strictly closer than one half is the rounding |
| Exports.RoundToHundredths | utils.py:295 | the result is a whole number of hundredths within 0.005 of the input |
| Exports.RoundToHundredthsIdempotent | utils.py:295 | rounding an already rounded value changes nothing |
| Exports.TruncateToInt | utils.py:293-294 | int() truncates toward zero: the result is within 1 of the input on the side of zero |
| Exports.TruncateWhole | utils.py:293-294 | a whole number is unchanged by int() |
| Exports.ExportToJson | utils.py:279-299 | raises exactly on an empty list; otherwise identity and subjects verbatim, grade and remarks of the unrounded overall percentage, percentage rounded to hundredths (so within 0.005 of it), truncated sums |
| Exports.JsonRoundedPercentageMayDisagreeWithGrade | utils.py:285-296 | 35999/40000 exports overall_percentage 90.0 beside grade "A", because the grade uses the unrounded 89.9975 |
| Marksheet.DisplayMarksheet | components.py:79-144 | identity shown verbatim; photo panel empty, shown or an error message as the upload is absent, readable or not; warning iff no subjects, else one correct row per subject and exactly the sums-based overall result |
| Session.AddSubject | components.py:37-42 | a non-empty name appends exactly one entry with the form's values at the end and keeps the earlier entries; an empty name leaves the list unchanged |
| Session.KeptIndices | components.py:62-65 | the unselected indices below n, strictly increasing, and every unselected index below n appears |
| Session.KeepUnselected | components.py:62-65 | the result is the list restricted to its unselected indices, in original order and with contents unchanged |
| Session.RemoveSelected | components.py:60-65 | with nothing selected the list is unchanged; otherwise exactly the unselected entries remain, in order |
| Session.Step | components.py:37-75 | submitting adds through the form rule, removing (offered only for a non-empty list) applies the selection, "Clear All" empties the list; "Generate Result" sets the flag iff it was set or the list is non-empty, and is the only action that changes the flag |
| Session.KeptIndicesNoneSelected | components.py:62-65 | with no index below n selected, the kept indices are exactly 0..n-1 in order |
| Session.KeepUnselectedNoneSelected | components.py:62-65 | when no existing index is selected the list is unchanged |
| Session.KeepUnselectedAllSelected | components.py:62-65 | when every index is selected the list becomes empty |
| Session.KeepUnselectedMembership | components.py:62-65 | an entry survives removal iff its index is not selected, and then appears unchanged |
| Session.StepKeepsFormBuilt | components.py:32-42 | every transition keeps all entries whole-numbered with obtained in [0, 100] and total at least 1 |
| Session.RunKeepsFormBuilt | components.py:32-42 | every sequence of actions keeps the list form-built, so no reachable list has a zero total |
| Session.ShowResultGuard | components.py:73-75 | the result flag turns on by "Generate Result" over a non-empty list and only then, and never turns off |
| Session.ClearHidesMarksheet | components.py:68-70 | clearing keeps the result flag yet leaves no marksheet to show |
| Session.FormAllowsObtainedAboveTotal | components.py:32-34 | the form accepts 100 obtained out of 1 total: obtained is not bounded by total |
| Agreement.ExportsAgree | components.py:125-129 | on a non-empty list with a readable or no photo, PDF, JSON and marksheet all exist; the same rows in input order, the same overall, the same grade and remarks, JSON percentage within 0.005 |
| Agreement.FormBuiltPositive | components.py:32-34 | entries from the form always have a positive total |
| Agreement.FormBuiltTotalsWhole | utils.py:293-294 | for form-built lists the JSON integer totals equal the exact sums |
| Agreement.VisibleSessionExports | main.py:43-78 | a form-built session showing the marksheet (every reachable one is form-built), with no photo or a readable one, exports to PDF and JSON without error, with positive totals and exact integer totals |
| Agreement.WorkedExample | utils.py:279-299 | 45/50, 38/50, 30/50 give rows 90 A+, 76 B, 60 C and the JSON overall (113, 150, 75.33, "B", "Very Good") |

## Left out

- Streamlit widgets, layout, session-state plumbing, download buttons, file names and MIME types (components.py, main.py): user interface, not logic. Only the list transitions and the visibility condition of main.py:43 are modelled.
- Checkbox state kept by widget key across removals: the model takes the set of ticked indices of the current list as given.
- ReportLab and python-docx styling, document building and the bytes they produce: foreign libraries. The documents are modelled as the values they print.
- Photo decoding, RGB conversion and JPEG re-encoding: an opaque imaging library. Whether a photo decodes is an input (`PhotoUpload.decodes`).
- Display formatting (`.1f`, `.2f`, `str()` of marks) and the JSON text layout of `json.dumps`: serialisation details. Numeric values are modelled as reals.
- Grading.CalculatePercentage: exact rational arithmetic rather than IEEE doubles. NaN and infinity strings, which `float()` accepts, are not modelled. Non-numeric arguments that raise an uncaught `TypeError` are not modelled.
- Exports.RoundToHundredths: rounds the exact rational value half-to-even. The source formats the nearest double, so the two can differ on values within a representation error of a tie.
- Exports.ExportToPdf: when a photo is given, the four identity fields are inserted unescaped into ReportLab paragraph markup (utils.py:108-115). A field containing `<` or `&` is then not shown verbatim, and a tag-like value can make the paragraph parser raise. The model shows the fields verbatim and has no error for this, because the markup parser is a foreign library.
- Exports.UpperAscii: raises only a-z; `str.upper` also maps other Unicode letters.
- Aggregate.TotalObtained: numpy's 64-bit integer sum can overflow; unbounded sums are used.
- The exact exception raised by the pandas paths on an empty list is not distinguished; both are modelled as `NoMarksColumn`.
