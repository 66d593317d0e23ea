/**
  The environment screen (tui/environment/main.go): the first screen, a fixed choice
  between GitHub and local files. It has no back branch.
 */
module EnvironmentScreen {
  import opened Process
  import List

  datatype Model = Model(list: List.Model, items: seq<Result>)

  /** The two environments, in order. */
  const Environments: seq<Result> := [ZeroResult.(name := "Github"), ZeroResult.(name := "Local")]

  /** The screen offers exactly "Github" then "Local", and its list shows those names. */
  function NewModel(): (m: Model)
    ensures |m.items| == 2 && m.items[0].name == "Github" && m.items[1].name == "Local"
    ensures m.list.title == "Environment" && m.list.items == m.items
    ensures |m.list.rows| == 2 && m.list.rows[0].title == "Github" && m.list.rows[1].title == "Local"
  {
    var list := List.NewModel("Environment");
    Model(List.Update(list, List.Items(Environments), List.WidgetState(List.Unfiltered, List.NoRow)).0, Environments)
  }

  /** environment.Model.Update: a window size goes to the list and asks for nothing;
      anything else goes to the list, and a forward choice forwards the environment at the
      chosen index. A back choice is not recognised: the list's own command is passed on. */
  function Update(m: Model, input: List.Input, w: List.WidgetState): (r: (Model, List.Signal))
    ensures r.0.items == m.items && r.0.list == List.Update(m.list, input, w).0
    ensures input.WindowSize? ==> r.1 == List.Silent
    ensures r.1 != List.BackMsg
    ensures r.1.ForwardMsg? <==> var out := List.Update(m.list, input, w).1;
      out.Navigate? && out.direction == List.Forward && out.index < |m.items|
    ensures r.1.ForwardMsg? ==> r.1.payload == m.items[List.Update(m.list, input, w).1.index]
  {
    if input.WindowSize? then
      (m.(list := List.Update(m.list, input, w).0), List.Silent)
    else
      var (l, out) := List.Update(m.list, input, w);
      var m1 := m.(list := l);
      match out
      case Navigate(direction, index, _) =>
        if direction == List.Back then (m1, List.Widget)
        else if index < |m.items| then (m1, List.ForwardMsg(m.items[index]))
        else (m1, List.Crash)
      case Quiet => (m1, List.Silent)
      case PassThrough => (m1, List.Widget)
      case Panicked => (m1, List.Crash)
  }

  /** Whatever the screen was given, what it forwards is one of the two environments. */
  lemma ForwardsAnEnvironment(input: List.Input, w: List.WidgetState)
    ensures var r := Update(NewModel(), input, w);
      r.1.ForwardMsg? ==> r.1.payload.name == "Github" || r.1.payload.name == "Local"
  {
    var m := NewModel();
    var out := List.Update(m.list, input, w).1;
    if out.Navigate? && out.direction == List.Forward && out.index < |m.items| {
      assert out.index == 0 || out.index == 1;
    }
  }
}
