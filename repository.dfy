/**
  The repository screen (tui/repository/main.go): a list of the organization's
  repositories, a loading flag shown until the list arrives, and the repository last
  chosen, which later fetches use.
 */
module RepositoryScreen {
  import opened Process
  import List

  datatype Model = Model(loading: bool, list: List.Model, items: seq<Result>, selected: Result)

  /** The screen starts loading, with an empty list titled "Repositories". */
  function NewModel(): (m: Model)
    ensures m.loading && m.items == [] && m.list.title == "Repositories" && Consistent(m)
  {
    Model(true, List.NewModel("Repositories"), [], ZeroResult)
  }

  /** The screen's items are the ones its list shows. */
  predicate Consistent(m: Model)
  {
    m.list.items == m.items && List.Valid(m.list)
  }

  /** repository.Model.Update: a list of Results ends loading and replaces the items;
      anything else goes to the list, whose forward choice selects the repository at the
      chosen index and whose back choice starts loading again. */
  function Update(m: Model, input: List.Input, w: List.WidgetState): (r: (Model, List.Signal))
    ensures input.Items? ==> r == (m.(loading := false, items := input.results,
                                      list := List.Update(m.list, input, w).0), List.Silent)
    ensures !input.Items? ==> var (l, out) := List.Update(m.list, input, w);
      && r.0.items == m.items && r.0.list == l
      && (r.1.ForwardMsg? <==> (out.Navigate? && out.direction == List.Forward && out.index < |m.items|))
      && (r.1.ForwardMsg? ==> (r.0.selected == r.1.payload == m.items[out.index] && r.0.loading == m.loading))
      && (r.1 == List.BackMsg <==> (out.Navigate? && out.direction == List.Back))
      && (r.1 == List.BackMsg ==> r.0.loading)
      && (r.1 == List.Widget <==> out == List.PassThrough)
      && (!r.1.ForwardMsg? && r.1 != List.BackMsg ==> r.0 == m.(list := l))
    ensures !r.1.ForwardMsg? ==> r.0.selected == m.selected
  {
    if input.Items? then
      (m.(loading := false, items := input.results, list := List.Update(m.list, input, w).0), List.Silent)
    else
      var (l, out) := List.Update(m.list, input, w);
      var m1 := m.(list := l);
      match out
      case Navigate(direction, index, _) =>
        if direction == List.Back then (m1.(loading := true), List.BackMsg)
        else if index < |m.items| then (m1.(selected := m.items[index]), List.ForwardMsg(m.items[index]))
        else (m1, List.Crash)
      case Quiet => (m1, List.Silent)
      case PassThrough => (m1, List.Widget)
      case Panicked => (m1, List.Crash)
  }

  /** Updates keep the screen's items and its list's items the same. */
  lemma UpdateKeepsConsistent(m: Model, input: List.Input, w: List.WidgetState)
    requires Consistent(m)
    ensures Consistent(Update(m, input, w).0)
  {
    List.UpdateKeepsValid(m.list, input, w);
  }

  /** On a consistent screen, enter on the k-th row selects the k-th repository and
      forwards it. */
  lemma EnterSelectsRow(m: Model, k: nat, filter: List.FilterState)
    requires Consistent(m) && k < |m.items| && filter != List.Filtering
    ensures var r := Update(m, List.Key("enter"), List.WidgetState(filter, List.At(m.list.rows[k])));
      r.1 == List.ForwardMsg(m.items[k]) && r.0.selected == m.items[k]
  {
  }
}
