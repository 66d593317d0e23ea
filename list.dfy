/**
  The list component every selection screen wraps (tui/list/main.go). It keeps the Results
  it shows, one row per Result tagged with its index, and the window size. Enter and esc
  become navigation messages; everything else goes to the bubbles list widget, whose own
  state (cursor, filter) is not modelled: what the widget answers is given as a Widget
  value.
 */
module List {
  import opened Process

  /** A row of the widget: the Result's name and its index in items. */
  datatype Row = Row(title: string, id: nat)

  datatype Model = Model(title: string, items: seq<Result>, rows: seq<Row>, height: int, width: int)

  /** The widget's filter state (list.Unfiltered, list.Filtering, list.FilterApplied). */
  datatype FilterState = Unfiltered | Filtering | FilterApplied

  /** The row under the cursor, if the list has one. */
  datatype Cursor = NoRow | At(row: Row)

  /** What the bubbles list widget answers when asked. */
  datatype WidgetState = WidgetState(filter: FilterState, cursor: Cursor)

  /** The messages the list tells apart. */
  datatype Input = Items(results: seq<Result>) | WindowSize(width: int, height: int) | Key(key: string) | Other

  /** list.Direction */
  datatype Direction = Forward | Back

  /** What an update asks of its caller: nothing; a navigation message (list.Msg: a
      direction, the chosen index and the Result there); whatever command the widget
      returned; or a run-time panic. */
  datatype Outcome = Quiet | Navigate(direction: Direction, index: nat, item: Result) | PassThrough | Panicked

  /** What a screen built on the list returns to the application: no command, its own
      ForwardMsg or BackMsg, a widget command passed on unchanged, or a panic. */
  datatype Signal = Silent | ForwardMsg(payload: Result) | BackMsg | Widget | Crash

  /** list.NewModel(title): no items, no rows, size zero. */
  function NewModel(title: string): (m: Model)
    ensures m.title == title && m.items == [] && Valid(m)
  {
    Model(title, [], [], 0, 0)
  }

  /** The rows for a list of Results: row i has the i-th name and id i. */
  function Rows(items: seq<Result>): seq<Row>
  {
    seq(|items|, i requires 0 <= i < |items| => Row(items[i].name, i))
  }

  /** The rows always describe the items. */
  predicate Valid(m: Model)
  {
    m.rows == Rows(m.items)
  }

  /** The indexed append loop that builds the widget's rows. */
  method BuildRows(items: seq<Result>) returns (rows: seq<Row>)
    ensures |rows| == |items|
    ensures forall i :: 0 <= i < |items| ==> rows[i].title == items[i].name && rows[i].id == i
    ensures rows == Rows(items)
  {
    rows := [];
    for i := 0 to |items|
      invariant |rows| == i
      invariant forall j :: 0 <= j < i ==> rows[j] == Row(items[j].name, j)
    {
      rows := rows + [Row(items[i].name, i)];
    }
  }

  /** list.Model.Update. */
  function Update(m: Model, input: Input, w: WidgetState): (r: (Model, Outcome))
    ensures input.Items? ==> r.0.items == input.results && r.0.rows == Rows(input.results) && r.1 == Quiet
    ensures input.Items? ==> r.0.height == m.height && r.0.width == m.width
    ensures input.WindowSize? ==> r.0 == m.(height := input.height, width := input.width) && r.1 == Quiet
    ensures !input.Items? && !input.WindowSize? ==> r.0 == m
    ensures r.1.Navigate? && r.1.direction == Forward <==>
      input == Key("enter") && w.filter != Filtering && w.cursor.At? && w.cursor.row.id < |m.items|
    ensures r.1.Navigate? && r.1.direction == Forward ==> r.1.index == w.cursor.row.id && r.1.item == m.items[r.1.index]
    ensures r.1.Navigate? && r.1.direction == Back <==> input == Key("esc") && w.filter == Unfiltered
    ensures r.1 == Panicked <==>
      input == Key("enter") && w.filter != Filtering && !(w.cursor.At? && w.cursor.row.id < |m.items|)
    ensures r.1 == PassThrough <==> (input.Other? || (input.Key? && !(input == Key("enter") && w.filter != Filtering)
      && !(input == Key("esc") && w.filter == Unfiltered)))
  {
    match input
    case Items(results) => (m.(items := results, rows := Rows(results)), Quiet)
    case WindowSize(width, height) => (m.(height := height, width := width), Quiet)
    case Key(key) =>
      if key == "enter" && w.filter != Filtering then
        if w.cursor.At? && w.cursor.row.id < |m.items| then
          (m, Navigate(Forward, w.cursor.row.id, m.items[w.cursor.row.id]))
        else (m, Panicked)
      else if key == "esc" && w.filter == Unfiltered then
        (m, Navigate(Back, 0, ZeroResult))
      else (m, PassThrough)
    case Other => (m, PassThrough)
  }

  /** Every update keeps the rows in step with the items. */
  lemma UpdateKeepsValid(m: Model, input: Input, w: WidgetState)
    requires Valid(m)
    ensures Valid(Update(m, input, w).0)
  {
  }

  /** Choosing a row with enter yields the Result at that row: after the list is given
      results, the row at position k carries id k, and enter on it navigates forward with
      the k-th result. */
  lemma EnterOnRowSelectsItem(m: Model, results: seq<Result>, k: nat, filter: FilterState)
    requires k < |results| && filter != Filtering
    ensures var m1 := Update(m, Items(results), WidgetState(filter, NoRow)).0;
      && k < |m1.rows|
      && Update(m1, Key("enter"), WidgetState(filter, At(m1.rows[k]))) == (m1, Navigate(Forward, k, results[k]))
  {
  }
}
