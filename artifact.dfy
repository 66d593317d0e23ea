/**
  The artifact screen (tui/artifact/main.go): a list of a workflow run's artifacts. It has
  no loading flag and keeps no selection.
 */
module ArtifactScreen {
  import opened Process
  import List

  datatype Model = Model(list: List.Model, items: seq<Result>)

  /** The screen starts with an empty list titled "Artifacts". */
  function NewModel(): (m: Model)
    ensures m.items == [] && m.list.title == "Artifacts" && Consistent(m)
  {
    Model(List.NewModel("Artifacts"), [])
  }

  /** The screen's items are the ones its list shows. */
  predicate Consistent(m: Model)
  {
    m.list.items == m.items && List.Valid(m.list)
  }

  /** artifact.Model.Update: a list of Results replaces the items; anything else goes to
      the list, whose forward choice forwards the artifact at the chosen index and whose
      back choice goes back. */
  function Update(m: Model, input: List.Input, w: List.WidgetState): (r: (Model, List.Signal))
    ensures input.Items? ==> r == (Model(List.Update(m.list, input, w).0, input.results), List.Silent)
    ensures !input.Items? ==> var (l, out) := List.Update(m.list, input, w);
      && r.0 == m.(list := l)
      && (r.1.ForwardMsg? <==> (out.Navigate? && out.direction == List.Forward && out.index < |m.items|))
      && (r.1.ForwardMsg? ==> r.1.payload == m.items[out.index])
      && (r.1 == List.BackMsg <==> (out.Navigate? && out.direction == List.Back))
      && (r.1 == List.Widget <==> out == List.PassThrough)
  {
    if input.Items? then
      (Model(List.Update(m.list, input, w).0, input.results), List.Silent)
    else
      var (l, out) := List.Update(m.list, input, w);
      var m1 := m.(list := l);
      match out
      case Navigate(direction, index, _) =>
        if direction == List.Back then (m1, List.BackMsg)
        else if index < |m.items| then (m1, List.ForwardMsg(m.items[index]))
        else (m1, List.Crash)
      case Quiet => (m1, List.Silent)
      case PassThrough => (m1, List.Widget)
      case Panicked => (m1, List.Crash)
  }

  /** Updates keep the screen's items and its list's items the same. */
  lemma UpdateKeepsConsistent(m: Model, input: List.Input, w: List.WidgetState)
    requires Consistent(m)
    ensures Consistent(Update(m, input, w).0)
  {
    List.UpdateKeepsValid(m.list, input, w);
  }
}
