/**
  The stack of screens of tui/main.go (modeStack): the screen on top is the one shown.
 */
module ModeStack {
  /** The screens, in the order of their iota constants. */
  datatype Mode = Environment | Organization | Repository | Workflow | Artifact | Filepicker

  /** modeStack.GoForward: append v. */
  function GoForward(s: seq<Mode>, v: Mode): (r: seq<Mode>)
    ensures |r| == |s| + 1 && r[..|s|] == s && r[|s|] == v
  {
    s + [v]
  }

  /** modeStack.GoBack: drop the top; slicing an empty stack panics, so the caller must
      not. */
  function GoBack(s: seq<Mode>): (r: seq<Mode>)
    requires |s| >= 1
    ensures |r| == |s| - 1 && r + [s[|s| - 1]] == s
  {
    s[..|s| - 1]
  }

  /** modeStack.GetCurrent: the top; indexing an empty stack panics. */
  function GetCurrent(s: seq<Mode>): (v: Mode)
    requires |s| >= 1
    ensures v in s && GoBack(s) + [v] == s
  {
    s[|s| - 1]
  }

  /** Going forward and then back gives the original stack, and in between the screen
      pushed is the one shown. */
  lemma ForwardThenBack(s: seq<Mode>, v: Mode)
    ensures GetCurrent(GoForward(s, v)) == v
    ensures GoBack(GoForward(s, v)) == s
  {
  }

  /** Going back and then forward again with the screen that was on top gives the original
      stack. */
  lemma BackThenForward(s: seq<Mode>)
    requires |s| >= 1
    ensures GoForward(GoBack(s), GetCurrent(s)) == s
  {
  }
}
