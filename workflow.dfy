/**
  The workflow screen (tui/workflow/main.go): a list of a repository's workflow runs and a
  loading flag shown until the list arrives. Unlike the repository screen it keeps no
  selection: the chosen run travels in the ForwardMsg.
 */
module WorkflowScreen {
  import opened Process
  import List

  datatype Model = Model(loading: bool, list: List.Model, items: seq<Result>)

  /** The screen starts loading, with an empty list titled "Workflows". */
  function NewModel(): (m: Model)
    ensures m.loading && m.items == [] && m.list.title == "Workflows" && Consistent(m)
  {
    Model(true, List.NewModel("Workflows"), [])
  }

  /** The screen's items are the ones its list shows. */
  predicate Consistent(m: Model)
  {
    m.list.items == m.items && List.Valid(m.list)
  }

  /** workflow.Model.Update: a list of Results ends loading and replaces the items;
      anything else goes to the list, whose forward choice forwards the run at the chosen
      index and whose back choice starts loading again. */
  function Update(m: Model, input: List.Input, w: List.WidgetState): (r: (Model, List.Signal))
    ensures input.Items? ==> r == (m.(loading := false, items := input.results,
                                      list := List.Update(m.list, input, w).0), List.Silent)
    ensures !input.Items? ==> var (l, out) := List.Update(m.list, input, w);
      && r.0.items == m.items && r.0.list == l
      && (r.1.ForwardMsg? <==> (out.Navigate? && out.direction == List.Forward && out.index < |m.items|))
      && (r.1.ForwardMsg? ==> (r.1.payload == m.items[out.index] && r.0.loading == m.loading))
      && (r.1 == List.BackMsg <==> (out.Navigate? && out.direction == List.Back))
      && (r.1 == List.BackMsg ==> r.0.loading)
      && (r.1 == List.Widget <==> out == List.PassThrough)
      && (r.1 != List.BackMsg ==> r.0 == m.(list := l))
  {
    if input.Items? then
      (m.(loading := false, items := input.results, list := List.Update(m.list, input, w).0), List.Silent)
    else
      var (l, out) := List.Update(m.list, input, w);
      var m1 := m.(list := l);
      match out
      case Navigate(direction, index, _) =>
        if direction == List.Back then (m1.(loading := true), List.BackMsg)
        else if index < |m.items| then (m1, List.ForwardMsg(m.items[index]))
        else (m1, List.Crash)
      case Quiet => (m1, List.Silent)
      case PassThrough => (m1, List.Widget)
      case Panicked => (m1, List.Crash)
  }

  /** Updates keep the screen's items and its list's items the same. */
  lemma UpdateKeepsConsistent(m: Model, input: List.Input, w: List.WidgetState)
    requires Consistent(m)
    ensures Consistent(Update(m, input, w).0)
  {
    List.UpdateKeepsValid(m.list, input, w);
  }
}
