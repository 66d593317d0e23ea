/**
  The file-picker screen (tui/filepicker/main.go): a bubbles file picker opened on an
  extracted artifact, plus a counter of how many directories the user has entered below
  the directory it was opened on. Esc at depth 0 leaves the screen. The widget itself is
  not modelled: whether the message selected a file, a disabled file or nothing is given
  as a Selection.
 */
module FilePickerScreen {
  import opened Text
  import Unzip

  /** The error shown above the picker: none, or the message of errors.New. */
  datatype Error = NoError | Invalid(message: string)

  datatype Model = Model(allowedTypes: seq<string>, currentDirectory: string, selectedFile: string,
                         err: Error, clicksAwayFromRoot: int)

  /** The messages the picker tells apart: the id of a freshly extracted artifact, a key,
      the timer's clearErrorMsg, and anything else. */
  datatype Input = ArtifactDir(artifactId: Int64) | Key(key: string) | ClearError | Other

  /** What the widget reports about the message it was just given
      (DidSelectDisabledFile, DidSelectFile). */
  datatype Selection = NoSelection | Disabled(path: string) | Allowed(path: string)

  /** The command an update returns: the widget's own, the widget's own batched with the
      two-second error timer, a BackMsg, or a SelectedMsg carrying the chosen path. */
  datatype Reply = WidgetCmd | WidgetAndTimer | BackMsg | SelectedMsg(path: string)

  /** The picker starts at depth 0, in the widget's default directory ".", with no file
      chosen and no error, and lets only archives, videos and screenshots be chosen. */
  function NewModel(): (m: Model)
    ensures m.clicksAwayFromRoot == 0 && m.err == NoError && m.selectedFile == ""
    ensures m.allowedTypes == [".zip", ".webm", ".png"]
  {
    Model([".zip", ".webm", ".png"], ".", "", NoError, 0)
  }

  /** getCurrentDirectory: the working directory followed by /output/<decimal id>. */
  function CurrentDirectory(wd: string, artifactId: Int64): (d: string)
    ensures d == wd + "/" + Unzip.Dst(artifactId)
    ensures HasPrefix(d, wd + "/output/")
  {
    wd + "/output/" + FormatInt(artifactId)
  }

  /** filepicker.Model.Update, for the working directory wd and the widget's answer sel. */
  function Update(m: Model, input: Input, wd: string, sel: Selection): (r: (Model, Reply))
    // An artifact id only points the picker at that artifact's directory.
    ensures input.ArtifactDir? ==>
      r == (m.(currentDirectory := CurrentDirectory(wd, input.artifactId)), WidgetCmd)
    // Esc at the root leaves the screen, forgetting the chosen file, and nothing else.
    ensures r.1 == BackMsg <==> (input == Key("esc") && m.clicksAwayFromRoot == 0)
    ensures r.1 == BackMsg ==> r.0 == m.(selectedFile := "")
    // Otherwise enter goes one level down, esc one level up, and any selection back up.
    ensures !input.ArtifactDir? && r.1 != BackMsg ==>
      r.0.clicksAwayFromRoot == m.clicksAwayFromRoot
        + (if input == Key("enter") then 1 else 0)
        - (if input == Key("esc") then 1 else 0)
        - (if sel.NoSelection? then 0 else 1)
    // A disabled file shows an error and clears the choice; an allowed one becomes the choice.
    ensures r.1 == WidgetAndTimer <==> (!input.ArtifactDir? && r.1 != BackMsg && sel.Disabled?)
    ensures r.1 == WidgetAndTimer ==>
      r.0.err == Invalid(sel.path + " is not valid.") && r.0.selectedFile == ""
    ensures r.1.SelectedMsg? <==> (!input.ArtifactDir? && r.1 != BackMsg && sel.Allowed?)
    ensures r.1.SelectedMsg? ==> r.1.path == sel.path && r.0.selectedFile == sel.path
    // The error is cleared only by the timer's message and set only by a disabled file.
    ensures r.1 != WidgetAndTimer ==>
      r.0.err == (if input.ClearError? then NoError else m.err)
    ensures r.1 == WidgetCmd ==> r.0.selectedFile == m.selectedFile
    ensures r.0.allowedTypes == m.allowedTypes
    ensures !input.ArtifactDir? ==> r.0.currentDirectory == m.currentDirectory
  {
    if input.ArtifactDir? then
      (m.(currentDirectory := CurrentDirectory(wd, input.artifactId)), WidgetCmd)
    else if input == Key("esc") && m.clicksAwayFromRoot == 0 then
      (m.(selectedFile := ""), BackMsg)
    else
      var m1 :=
        if input == Key("enter") then m.(clicksAwayFromRoot := m.clicksAwayFromRoot + 1)
        else if input == Key("esc") then m.(clicksAwayFromRoot := m.clicksAwayFromRoot - 1)
        else if input.ClearError? then m.(err := NoError)
        else m;
      match sel
      case Disabled(path) =>
        (m1.(clicksAwayFromRoot := m1.clicksAwayFromRoot - 1, err := Invalid(path + " is not valid."),
             selectedFile := ""), WidgetAndTimer)
      case Allowed(path) =>
        (m1.(clicksAwayFromRoot := m1.clicksAwayFromRoot - 1, selectedFile := path), SelectedMsg(path))
      case NoSelection => (m1, WidgetCmd)
  }

  /** The widget selects a file only when the key is enter. */
  predicate SelectsOnEnter(input: Input, sel: Selection)
  {
    !sel.NoSelection? ==> input == Key("enter")
  }

  /** Enter on a file, allowed or not, leaves the depth as it was: the increment for enter
      is undone by the decrement for the selection. */
  lemma EnterOnFileKeepsDepth(m: Model, wd: string, sel: Selection)
    requires !sel.NoSelection?
    ensures Update(m, Key("enter"), wd, sel).0.clicksAwayFromRoot == m.clicksAwayFromRoot
  {
  }

  /** Entering a directory and pressing esc returns to the same depth without leaving the
      screen. */
  lemma EnterThenEscReturns(m: Model, wd: string)
    requires m.clicksAwayFromRoot >= 0
    ensures var m1 := Update(m, Key("enter"), wd, NoSelection).0;
      var r := Update(m1, Key("esc"), wd, NoSelection);
      r.1 != BackMsg && r.0.clicksAwayFromRoot == m.clicksAwayFromRoot
  {
  }

  /** When the widget selects only on enter, the depth never becomes negative, so esc at
      the root is always what leaves the screen. */
  lemma DepthNeverNegative(m: Model, input: Input, wd: string, sel: Selection)
    requires m.clicksAwayFromRoot >= 0 && SelectsOnEnter(input, sel)
    ensures Update(m, input, wd, sel).0.clicksAwayFromRoot >= 0
  {
  }

  /** The depth after a sequence of messages. */
  function Depth(m: Model, inputs: seq<Input>, wd: string, sels: seq<Selection>): (d: int)
    requires |sels| == |inputs|
    decreases |inputs|
  {
    if inputs == [] then m.clicksAwayFromRoot
    else Depth(Update(m, inputs[0], wd, sels[0]).0, inputs[1..], wd, sels[1..])
  }

  /** Over any run in which the widget selects only on enter, the depth stays at least 0. */
  lemma {:induction false} DepthNeverNegativeOverRuns(m: Model, inputs: seq<Input>, wd: string, sels: seq<Selection>)
    requires |sels| == |inputs| && m.clicksAwayFromRoot >= 0
    requires forall i :: 0 <= i < |inputs| ==> SelectsOnEnter(inputs[i], sels[i])
    ensures Depth(m, inputs, wd, sels) >= 0
    decreases |inputs|
  {
    if inputs != [] {
      DepthNeverNegative(m, inputs[0], wd, sels[0]);
      assert forall i :: 0 <= i < |inputs| - 1 ==> SelectsOnEnter(inputs[1..][i], sels[1..][i]) by {
        forall i | 0 <= i < |inputs| - 1
          ensures SelectsOnEnter(inputs[1..][i], sels[1..][i])
        {
          assert inputs[1..][i] == inputs[i + 1] && sels[1..][i] == sels[i + 1];
        }
      }
      DepthNeverNegativeOverRuns(Update(m, inputs[0], wd, sels[0]).0, inputs[1..], wd, sels[1..]);
    }
  }

  /** The picker opened on an artifact shows the directory it was extracted into. */
  lemma OpensExtractionDirectory(m: Model, wd: string, artifactId: Int64, sel: Selection)
    ensures Update(m, ArtifactDir(artifactId), wd, sel).0.currentDirectory == wd + "/" + Unzip.Dst(artifactId)
  {
  }
}
