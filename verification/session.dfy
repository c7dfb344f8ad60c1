/** The subject list kept across reruns of the input sidebar
    (`sidebar_inputs`), as pure transitions: add a subject from the form,
    remove the selected subjects, clear all, and generate the result. */
module Session {
  import opened Records

  /** The form's "Obtained Marks" input: a whole number from 0 to 100. */
  type FormObtained = x: int | 0 <= x <= 100

  /** The form's "Total Marks" input: a whole number of at least 1. */
  type FormTotal = x: int | 1 <= x witness 1

  /** The session: the subject list and whether the result was requested. */
  datatype State = State(subjects: seq<SubjectEntry>, showResult: bool)

  /** A fresh session: no subjects, no result. */
  const Initial: State := State([], false)

  /** One user action per rerun of the sidebar. */
  datatype Action =
    | SubmitSubject(name: string, obtained: FormObtained, total: FormTotal)
    | RemoveSelectedClicked(selected: set<int>)
    | ClearAllClicked
    | GenerateClicked

  /** Submitting the form appends a subject only when its name is non-empty. */
  function AddSubject(subjects: seq<SubjectEntry>, name: string, obtained: FormObtained, total: FormTotal)
    : (r: seq<SubjectEntry>)
    ensures name != "" ==> |r| == |subjects| + 1 && r[..|subjects|] == subjects
    ensures name != "" ==> r[|subjects|] == SubjectEntry(name, obtained as real, total as real)
    ensures name == "" ==> r == subjects
  {
    if name != "" then subjects + [SubjectEntry(name, obtained as real, total as real)] else subjects
  }

  /** The indices below `n` that are not selected, in increasing order. */
  function KeptIndices(n: nat, selected: set<int>): (idx: seq<nat>)
    ensures forall k :: 0 <= k < |idx| ==> idx[k] < n && idx[k] !in selected
    ensures forall k, l :: 0 <= k < l < |idx| ==> idx[k] < idx[l]
    ensures forall i :: 0 <= i < n && i !in selected ==> i in idx
  {
    if n == 0 then []
    else KeptIndices(n - 1, selected) + (if n - 1 in selected then [] else [n - 1])
  }

  /** The list comprehension that drops every entry whose index is selected. */
  function KeepUnselected(subjects: seq<SubjectEntry>, selected: set<int>): (r: seq<SubjectEntry>)
    ensures |r| == |KeptIndices(|subjects|, selected)|
    ensures forall k :: 0 <= k < |r| ==> r[k] == subjects[KeptIndices(|subjects|, selected)[k]]
  {
    if |subjects| == 0 then []
    else
      var n := |subjects| - 1;
      KeepUnselected(subjects[..n], selected) + (if n in selected then [] else [subjects[n]])
  }

  /** "Remove Selected Subjects" is offered only when some box is ticked. */
  function RemoveSelected(subjects: seq<SubjectEntry>, selected: set<int>): (r: seq<SubjectEntry>)
    ensures selected == {} ==> r == subjects
    ensures selected != {} ==> |r| == |KeptIndices(|subjects|, selected)|
    ensures selected != {} ==> forall k :: 0 <= k < |r| ==> r[k] == subjects[KeptIndices(|subjects|, selected)[k]]
  {
    if selected == {} then subjects else KeepUnselected(subjects, selected)
  }

  /** One rerun of the sidebar with the given action. */
  function Step(st: State, a: Action): (st': State)
    ensures !a.GenerateClicked? ==> st'.showResult == st.showResult
    ensures a.GenerateClicked? ==> st'.subjects == st.subjects
    ensures a.ClearAllClicked? ==> st'.subjects == []
    ensures a.GenerateClicked? ==> st'.showResult == (st.showResult || |st.subjects| > 0)
    ensures a.SubmitSubject? ==> st'.subjects == AddSubject(st.subjects, a.name, a.obtained, a.total)
    ensures a.RemoveSelectedClicked? && |st.subjects| > 0 ==> st'.subjects == RemoveSelected(st.subjects, a.selected)
    ensures a.RemoveSelectedClicked? && |st.subjects| == 0 ==> st'.subjects == []
  {
    match a
    case SubmitSubject(name, obtained, total) => st.(subjects := AddSubject(st.subjects, name, obtained, total))
    case RemoveSelectedClicked(selected) =>
      if |st.subjects| > 0 then st.(subjects := RemoveSelected(st.subjects, selected)) else st
    case ClearAllClicked => st.(subjects := [])
    case GenerateClicked => if |st.subjects| > 0 then st.(showResult := true) else st
  }

  /** The state after a sequence of actions. */
  function Run(st: State, actions: seq<Action>): State
    decreases |actions|
  {
    if |actions| == 0 then st else Run(Step(st, actions[0]), actions[1..])
  }

  /** The marksheet and exports are shown only for a requested result over a
      non-empty list (the main page checks both). */
  predicate MarksheetVisible(st: State) {
    st.showResult && |st.subjects| > 0
  }

  /** Every entry came from the form: whole marks, obtained in [0, 100],
      total at least 1. Obtained is not bounded by total. */
  predicate FormBuilt(subjects: seq<SubjectEntry>) {
    forall i :: 0 <= i < |subjects| ==>
      && subjects[i].obtained.Floor as real == subjects[i].obtained
      && subjects[i].total.Floor as real == subjects[i].total
      && 0.0 <= subjects[i].obtained <= 100.0
      && 1.0 <= subjects[i].total
  }

  /** With no index below `n` selected, the kept indices are 0, 1, ..., n-1. */
  lemma {:induction false} KeptIndicesNoneSelected(n: nat, selected: set<int>)
    requires forall i :: 0 <= i < n ==> i !in selected
    ensures |KeptIndices(n, selected)| == n
    ensures forall k :: 0 <= k < n ==> KeptIndices(n, selected)[k] == k
  {
    if n > 0 {
      var prev := KeptIndices(n - 1, selected);
      KeptIndicesNoneSelected(n - 1, selected);
      var idx := prev + [n - 1];
      assert KeptIndices(n, selected) == idx;
      forall k | 0 <= k < n
        ensures idx[k] == k
      {
        if k < n - 1 {
          assert idx[k] == prev[k];
        }
      }
    }
  }

  /** Removing nothing that exists leaves the list unchanged. */
  lemma KeepUnselectedNoneSelected(subjects: seq<SubjectEntry>, selected: set<int>)
    requires forall i :: 0 <= i < |subjects| ==> i !in selected
    ensures KeepUnselected(subjects, selected) == subjects
  {
    KeptIndicesNoneSelected(|subjects|, selected);
    var r := KeepUnselected(subjects, selected);
    assert |r| == |subjects|;
    forall k | 0 <= k < |r|
      ensures r[k] == subjects[k]
    {
      assert KeptIndices(|subjects|, selected)[k] == k;
    }
  }

  /** Selecting every index removes every entry. */
  lemma {:induction false} KeepUnselectedAllSelected(subjects: seq<SubjectEntry>, selected: set<int>)
    requires forall i :: 0 <= i < |subjects| ==> i in selected
    ensures KeepUnselected(subjects, selected) == []
  {
    if |subjects| > 0 {
      KeepUnselectedAllSelected(subjects[..|subjects| - 1], selected);
    }
  }

  /** An entry survives removal exactly when its index is not selected:
      every unselected entry is kept and every kept entry was unselected. */
  lemma KeepUnselectedMembership(subjects: seq<SubjectEntry>, selected: set<int>, i: int)
    requires 0 <= i < |subjects|
    ensures i !in selected ==> exists k :: 0 <= k < |KeepUnselected(subjects, selected)|
                                && KeptIndices(|subjects|, selected)[k] == i
                                && KeepUnselected(subjects, selected)[k] == subjects[i]
    ensures i in selected ==> forall k :: 0 <= k < |KeptIndices(|subjects|, selected)| ==>
                                KeptIndices(|subjects|, selected)[k] != i
  {
    var idx := KeptIndices(|subjects|, selected);
    if i !in selected {
      assert i in idx;
      var k :| 0 <= k < |idx| && idx[k] == i;
    }
  }

  /** Every transition keeps the list form-built. */
  lemma {:induction false} StepKeepsFormBuilt(st: State, a: Action)
    requires FormBuilt(st.subjects)
    ensures FormBuilt(Step(st, a).subjects)
  {
    match a
    case SubmitSubject(name, obtained, total) =>
      var entry := SubjectEntry(name, obtained as real, total as real);
      assert entry.obtained.Floor == obtained;
      assert entry.total.Floor == total;
    case RemoveSelectedClicked(selected) =>
    case ClearAllClicked =>
    case GenerateClicked =>
  }

  /** Every session reached from a fresh one holds only form-built entries. */
  lemma {:induction false} RunKeepsFormBuilt(st: State, actions: seq<Action>)
    requires FormBuilt(st.subjects)
    ensures FormBuilt(Run(st, actions).subjects)
    decreases |actions|
  {
    if |actions| > 0 {
      StepKeepsFormBuilt(st, actions[0]);
      RunKeepsFormBuilt(Step(st, actions[0]), actions[1..]);
    }
  }

  /** The result flag is switched on only by "Generate Result" over a
      non-empty list, and it is never switched off. */
  lemma ShowResultGuard(st: State, a: Action)
    ensures Step(st, a).showResult && !st.showResult ==> a.GenerateClicked? && |st.subjects| > 0
    ensures st.showResult ==> Step(st, a).showResult
    ensures a.GenerateClicked? && |st.subjects| > 0 ==> Step(st, a).showResult
  {
  }

  /** Clearing after generating keeps the flag but hides the marksheet. */
  lemma ClearHidesMarksheet(st: State)
    ensures Step(st, ClearAllClicked).showResult == st.showResult
    ensures !MarksheetVisible(Step(st, ClearAllClicked))
  {
  }

  /** The form never produces a zero total, yet an obtained mark may exceed
      its total: 100 out of 1 is accepted and is 10000 percent. */
  lemma FormAllowsObtainedAboveTotal()
    ensures AddSubject([], "Art", 100, 1) == [SubjectEntry("Art", 100.0, 1.0)]
    ensures AddSubject([], "Art", 100, 1)[0].obtained > AddSubject([], "Art", 100, 1)[0].total
  {
  }
}
