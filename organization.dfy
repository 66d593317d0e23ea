/**
  The organization screen (tui/organization/main.go): a list of the user's organizations,
  a loading flag shown until the list arrives, and the organization last chosen, which
  every later fetch uses. It keeps no items of its own: the chosen Result comes from the
  list's message. It has no back branch.
 */
module OrganizationScreen {
  import opened Process
  import List

  datatype Model = Model(loading: bool, list: List.Model, selected: Result)

  /** The screen starts loading, with an empty list titled "Organizations". */
  function NewModel(): (m: Model)
    ensures m.loading && m.list.title == "Organizations" && m.list.items == []
  {
    Model(true, List.NewModel("Organizations"), ZeroResult)
  }

  /** organization.Model.Update: a list of Results ends loading and still goes to the
      list; everything goes to the list, and a forward choice selects the chosen
      organization and forwards it. A back choice is not recognised: the list's own command
      is passed on. */
  function Update(m: Model, input: List.Input, w: List.WidgetState): (r: (Model, List.Signal))
    ensures var (l, out) := List.Update(m.list, input, w);
      && r.0.list == l
      && r.0.loading == (if input.Items? then false else m.loading)
      && (r.1.ForwardMsg? <==> (out.Navigate? && out.direction == List.Forward))
      && (r.1.ForwardMsg? ==> r.1.payload == out.item && r.0.selected == out.item)
      && (!r.1.ForwardMsg? ==> r.0.selected == m.selected)
      && r.1 != List.BackMsg
  {
    var m0 := if input.Items? then m.(loading := false) else m;
    var (l, out) := List.Update(m0.list, input, w);
    var m1 := m0.(list := l);
    match out
    case Navigate(direction, _, item) =>
      if direction == List.Back then (m1, List.Widget)
      else (m1.(selected := item), List.ForwardMsg(item))
    case Quiet => (m1, List.Silent)
    case PassThrough => (m1, List.Widget)
    case Panicked => (m1, List.Crash)
  }

  /** After the organizations arrive, enter on the k-th row selects and forwards the k-th
      organization. */
  lemma EnterSelectsRow(m: Model, orgs: seq<Result>, k: nat, filter: List.FilterState)
    requires k < |orgs| && filter != List.Filtering
    ensures var m1 := Update(m, List.Items(orgs), List.WidgetState(filter, List.NoRow)).0;
      && !m1.loading && k < |m1.list.rows|
      && var r := Update(m1, List.Key("enter"), List.WidgetState(filter, List.At(m1.list.rows[k])));
      r.1 == List.ForwardMsg(orgs[k]) && r.0.selected == orgs[k]
  {
    List.EnterOnRowSelectsItem(m.list, orgs, k, filter);
  }
}
