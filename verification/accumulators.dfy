/**
  The running totals and maxima kept alongside the scanned records
  (src/lib/scanner/accumulators.rs): `Totals::add` and `Max::track`, and the folds a
  scan makes with them.
 */
module Accumulators {
  import opened Strings
  import opened Files
  import opened Sequences

  datatype Totals = Totals(files: nat, lines: nat, words: nat, chars: nat, bytes: nat)

  datatype Max = Max(lines: nat, words: nat, chars: nat, bytes: nat)

  /** `Totals::default()` and `Max::default()`: every counter zero. */
  const NoTotals := Totals(0, 0, 0, 0, 0)
  const NoMax := Max(0, 0, 0, 0)

  /** `Totals::add`: one more record, each metric raised by the record's value. */
  function Add(t: Totals, f: File): (r: Totals)
    ensures r.files == t.files + 1
    ensures forall metric :: TotalOf(r, metric) == TotalOf(t, metric) + Measure(f, metric)
  {
    Totals(t.files + 1, t.lines + f.lines, t.words + f.words, t.chars + f.chars, t.bytes + f.bytes)
  }

  /** `Max::track`: each field becomes the larger of its old value and the record's. */
  function Track(m: Max, f: File): (r: Max)
    ensures forall metric :: MaxMeasure(r, metric) >= MaxMeasure(m, metric)
    ensures forall metric :: MaxMeasure(r, metric) >= Measure(f, metric)
    ensures forall metric :: MaxMeasure(r, metric) == MaxMeasure(m, metric) || MaxMeasure(r, metric) == Measure(f, metric)
  {
    Max(Larger(m.lines, f.lines), Larger(m.words, f.words), Larger(m.chars, f.chars), Larger(m.bytes, f.bytes))
  }

  /** The value of `metric` in a `Max`. */
  function MaxMeasure(m: Max, metric: Metric): nat {
    match metric
    case Lines => m.lines
    case Words => m.words
    case Chars => m.chars
    case Bytes => m.bytes
  }

  // ---------------------------------------------------------------------------
  // reference definitions: sums and maxima over a sequence of records
  // ---------------------------------------------------------------------------

  function Sum(fs: seq<File>, metric: Metric): nat {
    if fs == [] then 0 else Measure(fs[0], metric) + Sum(fs[1..], metric)
  }

  /** The largest value of `metric` among `fs`, or 0 for none. */
  function Largest(fs: seq<File>, metric: Metric): nat {
    if fs == [] then 0 else Larger(Measure(fs[0], metric), Largest(fs[1..], metric))
  }

  /** `Largest` bounds every value and is one of them (or 0 for no records). */
  lemma {:induction false} LargestIsMax(fs: seq<File>, metric: Metric)
    ensures forall k | 0 <= k < |fs| :: Measure(fs[k], metric) <= Largest(fs, metric)
    ensures fs == [] ==> Largest(fs, metric) == 0
    ensures fs != [] ==> exists k | 0 <= k < |fs| :: Measure(fs[k], metric) == Largest(fs, metric)
  {
    if fs != [] {
      LargestIsMax(fs[1..], metric);
      forall k | 1 <= k < |fs|
        ensures Measure(fs[k], metric) <= Largest(fs, metric)
      {
        assert fs[k] == fs[1..][k - 1];
      }
      if Largest(fs, metric) != Measure(fs[0], metric) {
        var j :| 0 <= j < |fs[1..]| && Measure(fs[1..][j], metric) == Largest(fs[1..], metric);
        assert fs[j + 1] == fs[1..][j];
      }
    }
  }

  lemma {:induction false} SumAppend(fs: seq<File>, f: File, metric: Metric)
    ensures Sum(fs + [f], metric) == Sum(fs, metric) + Measure(f, metric)
  {
    if fs != [] {
      assert (fs + [f])[1..] == fs[1..] + [f];
      SumAppend(fs[1..], f, metric);
    }
  }

  lemma {:induction false} SumConcat(a: seq<File>, b: seq<File>, metric: Metric)
    ensures Sum(a + b, metric) == Sum(a, metric) + Sum(b, metric)
  {
    if a == [] {
      assert a + b == b;
    } else {
      assert (a + b)[0] == a[0] && (a + b)[1..] == a[1..] + b;
      SumConcat(a[1..], b, metric);
    }
  }

  lemma SumRemoveAt(b: seq<File>, j: nat, metric: Metric)
    requires j < |b|
    ensures Sum(b, metric) == Sum(RemoveAt(b, j), metric) + Measure(b[j], metric)
  {
    assert b == b[..j] + [b[j]] + b[j + 1..];
    SumConcat(b[..j] + [b[j]], b[j + 1..], metric);
    SumConcat(b[..j], [b[j]], metric);
    SumConcat(b[..j], b[j + 1..], metric);
  }

  /** Sums do not depend on the order of the records. */
  lemma {:induction false} SumPermutation(a: seq<File>, b: seq<File>, metric: Metric)
    requires multiset(a) == multiset(b)
    ensures Sum(a, metric) == Sum(b, metric)
    decreases |a|
  {
    if a != [] {
      var j := PositionOf(a[0], a, b);
      RemoveFirst(a, b, j);
      SumPermutation(a[1..], RemoveAt(b, j), metric);
      SumRemoveAt(b, j, metric);
    } else {
      assert |b| == |multiset(b)| == 0;
    }
  }

  // ---------------------------------------------------------------------------
  // the folds a scan makes
  // ---------------------------------------------------------------------------

  /** `add` applied to every record in turn, from the default. */
  function AddAll(fs: seq<File>): Totals {
    if fs == [] then NoTotals else Add(AddAll(fs[..|fs| - 1]), fs[|fs| - 1])
  }

  /** `track` applied to every record in turn, from the default. */
  function TrackAll(fs: seq<File>): Max {
    if fs == [] then NoMax else Track(TrackAll(fs[..|fs| - 1]), fs[|fs| - 1])
  }

  /** Folding `add` gives the number of records and the sum of each metric. */
  lemma {:induction false} AddAllIsSum(fs: seq<File>)
    ensures AddAll(fs) == Totals(|fs|, Sum(fs, Lines), Sum(fs, Words), Sum(fs, Chars), Sum(fs, Bytes))
  {
    if fs != [] {
      var init := fs[..|fs| - 1];
      var last := fs[|fs| - 1];
      assert fs == init + [last];
      AddAllIsSum(init);
      SumAppend(init, last, Lines);
      SumAppend(init, last, Words);
      SumAppend(init, last, Chars);
      SumAppend(init, last, Bytes);
    }
  }

  /** So the totals do not depend on the order the records were added in. */
  lemma AddAllPermutation(a: seq<File>, b: seq<File>)
    requires multiset(a) == multiset(b)
    ensures AddAll(a) == AddAll(b)
  {
    AddAllIsSum(a);
    AddAllIsSum(b);
    SumPermutation(a, b, Lines);
    SumPermutation(a, b, Words);
    SumPermutation(a, b, Chars);
    SumPermutation(a, b, Bytes);
    assert |a| == |multiset(a)| == |multiset(b)| == |b|;
  }

  lemma {:induction false} LargestAppend(fs: seq<File>, f: File, metric: Metric)
    ensures Largest(fs + [f], metric) == Larger(Largest(fs, metric), Measure(f, metric))
  {
    if fs != [] {
      assert (fs + [f])[1..] == fs[1..] + [f];
      LargestAppend(fs[1..], f, metric);
    }
  }

  /** Folding `track` gives the per-metric maximum, all zero for no records. */
  lemma {:induction false} TrackAllIsLargest(fs: seq<File>)
    ensures TrackAll(fs) == Max(Largest(fs, Lines), Largest(fs, Words), Largest(fs, Chars), Largest(fs, Bytes))
  {
    if fs != [] {
      var init := fs[..|fs| - 1];
      var last := fs[|fs| - 1];
      assert fs == init + [last];
      TrackAllIsLargest(init);
      LargestAppend(init, last, Lines);
      LargestAppend(init, last, Words);
      LargestAppend(init, last, Chars);
      LargestAppend(init, last, Bytes);
    }
  }

  /** The largest value depends only on which records there are. */
  lemma LargestPermutation(a: seq<File>, b: seq<File>, metric: Metric)
    requires multiset(a) == multiset(b)
    ensures Largest(a, metric) == Largest(b, metric)
  {
    LargestIsMax(a, metric);
    LargestIsMax(b, metric);
    forall k | 0 <= k < |a|
      ensures Measure(a[k], metric) <= Largest(b, metric)
    {
      assert a[k] in multiset(b);
    }
    forall k | 0 <= k < |b|
      ensures Measure(b[k], metric) <= Largest(a, metric)
    {
      assert b[k] in multiset(a);
    }
    if a != [] {
      var i :| 0 <= i < |a| && Measure(a[i], metric) == Largest(a, metric);
      var j :| 0 <= j < |b| && Measure(b[j], metric) == Largest(b, metric);
    } else {
      assert |b| == |multiset(b)| == 0;
    }
  }

  /** So the maxima do not depend on the order the records were tracked in. */
  lemma TrackAllPermutation(a: seq<File>, b: seq<File>)
    requires multiset(a) == multiset(b)
    ensures TrackAll(a) == TrackAll(b)
  {
    TrackAllIsLargest(a);
    TrackAllIsLargest(b);
    LargestPermutation(a, b, Lines);
    LargestPermutation(a, b, Words);
    LargestPermutation(a, b, Chars);
    LargestPermutation(a, b, Bytes);
  }

  // ---------------------------------------------------------------------------
  // single steps
  // ---------------------------------------------------------------------------

  function TotalOf(t: Totals, metric: Metric): nat {
    match metric
    case Lines => t.lines
    case Words => t.words
    case Chars => t.chars
    case Bytes => t.bytes
  }

  /** Tracking the same record twice changes nothing the second time. */
  lemma TrackIdempotent(m: Max, f: File)
    ensures Track(Track(m, f), f) == Track(m, f)
  {
  }

  /** Tracking two records gives the same maxima in either order. */
  lemma TrackCommutes(m: Max, f: File, g: File)
    ensures Track(Track(m, f), g) == Track(Track(m, g), f)
  {
  }

  /** The defaults are all zero: an empty scan has zero totals and maxima. */
  lemma Defaults()
    ensures AddAll([]) == Totals(0, 0, 0, 0, 0) && TrackAll([]) == Max(0, 0, 0, 0)
  {
  }
}
