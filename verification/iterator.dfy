/**
  `TableIter` (src/lib/helpers/table/iterator.rs): a four-state machine that hands out
  the header, the body rows and the footer of a table, one per call of `next`.
 */
module TableIterators {
  import opened Wrappers
  import opened Tables

  datatype IterState = Header | Rows | Footer | Done

  /** The borrowed header and footer (present only when non-empty), the rows not yet
      handed out (the slice iterator), and the state. */
  datatype TableIter = TableIter(
    header: Option<seq<string>>,
    rows: seq<seq<string>>,
    footer: Option<seq<string>>,
    state: IterState)

  /** `Some` of a non-empty row, `None` of an empty one: `(!v.is_empty()).then_some(&v)`. */
  function Present(row: seq<string>): (o: Option<seq<string>>)
    ensures o.Some? <==> row != []
    ensures o.Some? ==> o.value == row
  {
    if row != [] then Some(row) else None
  }

  /** The items of an optional row. */
  function Items(o: Option<seq<string>>): seq<seq<string>> {
    if o.Some? then [o.value] else []
  }

  /** In the header state the header is there: the states `into_iter` can set up. */
  predicate Valid(it: TableIter) {
    it.state == Header ==> it.header.Some?
  }

  /** What the iterator still yields, by state. */
  function Remaining(it: TableIter): seq<seq<string>> {
    match it.state
    case Header => Items(it.header) + it.rows + Items(it.footer)
    case Rows => it.rows + Items(it.footer)
    case Footer => Items(it.footer)
    case Done => []
  }

  /** Calls of `next` left, at most. */
  function Fuel(it: TableIter): nat {
    match it.state
    case Header => |it.rows| + 3
    case Rows => |it.rows| + 2
    case Footer => 1
    case Done => 0
  }

  /** `into_iter`: starts at the header if there is one, else at the rows if there are
      any, else at the footer; it will yield exactly the table's sections. */
  function IntoIter(t: Table): (it: TableIter)
    ensures Valid(it)
    ensures Remaining(it) == Sections(t)
    ensures it.state == (if t.header != [] then Header else if t.rows != [] then Rows else Footer)
  {
    var state := if t.header != [] then Header else if t.rows != [] then Rows else Footer;
    TableIter(Present(t.header), t.rows, Present(t.footer), state)
  }

  /** `next`: the header moves to `Rows`; `Rows` hands out the next row, or once they
      are used up moves to `Footer` and asks again; the footer moves to `Done`; `Done`
      stays `Done` and yields nothing. */
  function Next(it: TableIter): (res: (Option<seq<string>>, TableIter))
    ensures res.1.state != Header
    ensures it.state != Done ==> Fuel(res.1) < Fuel(it)
    ensures it.state == Done ==> res == (None, it)
    decreases Fuel(it)
  {
    match it.state
    case Header => (it.header, it.(state := Rows))
    case Rows =>
      if it.rows != [] then (Some(it.rows[0]), it.(rows := it.rows[1..]))
      else Next(it.(state := Footer))
    case Footer => (it.footer, it.(state := Done))
    case Done => (None, it)
  }

  /** Each call yields the first remaining item and leaves the rest, or yields nothing
      exactly when nothing remains, and then the iterator is `Done`. */
  lemma NextYieldsFirst(it: TableIter)
    requires Valid(it)
    ensures var (item, it') := Next(it);
      && Valid(it')
      && (item.None? <==> Remaining(it) == [])
      && (item.Some? ==> Remaining(it) == [item.value] + Remaining(it') && Fuel(it') < Fuel(it))
      && (item.None? ==> it'.state == Done)
  {
    if it.state == Rows && it.rows != [] {
      assert it.rows == [it.rows[0]] + it.rows[1..];
    }
  }

  /** Once `Done`, `next` yields nothing and changes nothing, forever. */
  lemma DoneIsFinal(it: TableIter)
    requires it.state == Done
    ensures Next(it) == (None, it)
  {
  }

  /** Iterating to the end (`collect`): every remaining item, in order. */
  method Collect(it: TableIter) returns (items: seq<seq<string>>)
    requires Valid(it)
    ensures items == Remaining(it)
  {
    items := [];
    var cur := it;
    var done := false;
    while !done
      invariant Valid(cur)
      invariant done ==> Remaining(cur) == []
      invariant items + Remaining(cur) == Remaining(it)
      decreases if done then 0 else Fuel(cur) + 1
    {
      NextYieldsFirst(cur);
      var (item, next) := Next(cur);
      if item.None? {
        done := true;
      } else {
        items := items + [item.value];
        cur := next;
      }
    }
  }

  /** Iterating a table yields the header if there is one, the rows in order, then the
      footer if there is one: one item per row plus one for each non-empty end. */
  method IterateTable(t: Table) returns (items: seq<seq<string>>)
    ensures items == Sections(t)
    ensures |items| == |t.rows| + (if t.header != [] then 1 else 0) + (if t.footer != [] then 1 else 0)
  {
    items := Collect(IntoIter(t));
  }
}
