/**
  The column-width cache with a recalculation flag
  (src/lib/helpers/table/columns.rs). Widths here are byte lengths (`str::len`),
  not visible widths.
 */
module TableColumns {
  import opened Wrappers
  import opened Strings

  datatype Columns = Columns(widths: seq<nat>, needsRecalculation: bool)

  /** `Columns::default()`: no widths, flag clear. */
  const Default := Columns([], false)

  /** `mark_for_recalc`: sets the flag, keeps the widths. */
  function MarkForRecalc(c: Columns): (r: Columns)
    ensures r.needsRecalculation && r.widths == c.widths
  {
    c.(needsRecalculation := true)
  }

  /** `get`: the width at `index`, None exactly when `index` is out of range. */
  function Get(c: Columns, index: nat): (r: Option<nat>)
    ensures r.Some? <==> index < |c.widths|
    ensures r.Some? ==> r.value == c.widths[index]
  {
    if index < |c.widths| then Some(c.widths[index]) else None
  }

  /** `get_or`: the width at `index`, or `fallback` exactly when out of range. */
  function GetOr(c: Columns, index: nat, fallback: nat): (r: nat)
    ensures index < |c.widths| ==> r == c.widths[index]
    ensures index >= |c.widths| ==> r == fallback
  {
    Get(c, index).GetOr(fallback)
  }

  /** Iterating `&Columns` yields the widths in index order. */
  function Iterate(c: Columns): (ws: seq<nat>)
    ensures |ws| == |c.widths|
    ensures forall i | 0 <= i < |ws| :: Get(c, i) == Some(ws[i])
  {
    c.widths
  }

  // ---------------------------------------------------------------------------
  // calculate
  // ---------------------------------------------------------------------------

  /** The length of the longest row, 0 for none. */
  function MaxLen(rows: seq<seq<string>>): nat {
    if rows == [] then 0 else Larger(MaxLen(rows[..|rows| - 1]), |rows[|rows| - 1]|)
  }

  /** Every row is at most as long as `MaxLen`, and some row reaches it. */
  lemma {:induction false} MaxLenIsMax(rows: seq<seq<string>>)
    ensures forall k | 0 <= k < |rows| :: |rows[k]| <= MaxLen(rows)
    ensures rows != [] ==> exists k | 0 <= k < |rows| :: |rows[k]| == MaxLen(rows)
  {
    if rows != [] {
      var init := rows[..|rows| - 1];
      MaxLenIsMax(init);
      assert forall k | 0 <= k < |init| :: rows[k] == init[k];
      if init != [] && MaxLen(init) >= |rows[|rows| - 1]| {
        var k :| 0 <= k < |init| && |init[k]| == MaxLen(init);
        assert |rows[k]| == MaxLen(rows);
      } else {
        assert |rows[|rows| - 1]| == MaxLen(rows);
      }
    }
  }

  /** The `measure` of cell `i`, 0 when the row is shorter. */
  function CellLen(row: seq<string>, i: nat, measure: string -> nat): nat {
    if i < |row| then measure(row[i]) else 0
  }

  /** The largest `measure` of a cell in column `i`, 0 when no row reaches it. */
  function ColumnMax(rows: seq<seq<string>>, i: nat, measure: string -> nat): nat {
    if rows == [] then 0 else Larger(ColumnMax(rows[..|rows| - 1], i, measure), CellLen(rows[|rows| - 1], i, measure))
  }

  /** No cell of column `i` exceeds `ColumnMax`, and a non-zero `ColumnMax` is the
      measure of some cell: it is the column's maximum. */
  lemma {:induction false} ColumnMaxIsMax(rows: seq<seq<string>>, i: nat, measure: string -> nat)
    ensures forall k | 0 <= k < |rows| :: CellLen(rows[k], i, measure) <= ColumnMax(rows, i, measure)
    ensures ColumnMax(rows, i, measure) > 0 ==>
      exists k | 0 <= k < |rows| :: i < |rows[k]| && measure(rows[k][i]) == ColumnMax(rows, i, measure)
  {
    if rows != [] {
      var init := rows[..|rows| - 1];
      ColumnMaxIsMax(init, i, measure);
      assert forall k | 0 <= k < |init| :: rows[k] == init[k];
      if ColumnMax(init, i, measure) >= CellLen(rows[|rows| - 1], i, measure) && ColumnMax(init, i, measure) > 0 {
        var k :| 0 <= k < |init| && i < |init[k]| && measure(init[k][i]) == ColumnMax(init, i, measure);
        assert i < |rows[k]| && measure(rows[k][i]) == ColumnMax(rows, i, measure);
      } else if ColumnMax(rows, i, measure) > 0 {
        assert CellLen(rows[|rows| - 1], i, measure) == ColumnMax(rows, i, measure);
      }
    }
  }

  /** No row reaches a column at or past the longest row's length. */
  lemma {:induction false} NoCellsBeyond(rows: seq<seq<string>>, i: nat, measure: string -> nat)
    requires i >= MaxLen(rows)
    ensures ColumnMax(rows, i, measure) == 0
  {
    if rows != [] {
      NoCellsBeyond(rows[..|rows| - 1], i, measure);
    }
  }

  /** The old width of column `i`, 0 when there was none. */
  function OldWidth(ws: seq<nat>, i: nat): nat {
    if i < |ws| then ws[i] else 0
  }

  /** `Vec::resize(n, 0)` */
  function Resize(ws: seq<nat>, n: nat): (r: seq<nat>)
    ensures |r| == n
    ensures forall i | 0 <= i < n :: r[i] == OldWidth(ws, i)
  {
    if n <= |ws| then ws[..n] else ws + seq(n - |ws|, _ => 0)
  }

  /** `calculate`: nothing while the flag is clear; otherwise every column of the
      longest row gets the larger of its old width (0 if new) and the longest cell
      in it, the widths are cut to the longest row's length, and the flag clears. */
  method Calculate(c: Columns, rows: seq<seq<string>>) returns (r: Columns)
    ensures !c.needsRecalculation ==> r == c
    ensures c.needsRecalculation ==> !r.needsRecalculation
    ensures c.needsRecalculation ==> |r.widths| == MaxLen(rows)
    ensures c.needsRecalculation ==> forall i | 0 <= i < |r.widths| ::
      r.widths[i] == Larger(OldWidth(c.widths, i), ColumnMax(rows, i, ByteLen))
  {
    if !c.needsRecalculation {
      return c;
    }
    var maxColCount := 0;
    var ws := c.widths;
    var k := 0;
    while k < |rows|
      invariant k <= |rows|
      invariant maxColCount == MaxLen(rows[..k])
      invariant |ws| == Larger(|c.widths|, maxColCount)
      invariant forall i | 0 <= i < |ws| :: ws[i] == Larger(OldWidth(c.widths, i), ColumnMax(rows[..k], i, ByteLen))
    {
      var row := rows[k];
      assert rows[..k + 1][..k] == rows[..k] && rows[..k + 1][k] == row;
      maxColCount := Larger(maxColCount, |row|);
      if |ws| < |row| {
        forall i | |ws| <= i
          ensures ColumnMax(rows[..k], i, ByteLen) == 0
        {
          NoCellsBeyond(rows[..k], i, ByteLen);
        }
        ws := Resize(ws, |row|);
      }
      var j := 0;
      while j < |row|
        invariant j <= |row| <= |ws|
        invariant |ws| == Larger(|c.widths|, maxColCount)
        invariant forall i | 0 <= i < |ws| ::
          ws[i] == Larger(OldWidth(c.widths, i), Larger(ColumnMax(rows[..k], i, ByteLen), if i < j then CellLen(row, i, ByteLen) else 0))
      {
        ws := ws[j := Larger(ws[j], ByteLen(row[j]))];
        j := j + 1;
      }
      k := k + 1;
    }
    assert rows[..k] == rows;
    r := Columns(Resize(ws, maxColCount), false);
  }
}
