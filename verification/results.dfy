/**
  The aggregate of a scan (src/lib/scanner/results.rs): the records with their totals
  and maxima, grouping by language, sorting by a metric, and `SortOrder` parsing.
 */
module Results {
  import opened Wrappers
  import opened Strings
  import opened Languages
  import opened Files
  import opened Accumulators
  import opened Sequences

  datatype ScanResults = ScanResults(files: seq<File>, total: Totals, max: Max)

  /** The totals and maxima are the folds of `add` and `track` over the records. */
  predicate Consistent(r: ScanResults) {
    r.total == AddAll(r.files) && r.max == TrackAll(r.files)
  }

  /** The empty aggregate a scan starts from. */
  const Empty := ScanResults([], NoTotals, NoMax)

  /** One record taken in by the scanner: `total.add`, `max.track`, `files.push`
      in lockstep (src/lib/scanner/mod.rs). */
  function Record(r: ScanResults, f: File): (r': ScanResults)
    ensures r'.files == r.files + [f]
    ensures Consistent(r) ==> Consistent(r')
  {
    assert (r.files + [f])[..|r.files|] == r.files;
    ScanResults(r.files + [f], Accumulators.Add(r.total, f), Track(r.max, f))
  }

  /** Scanning records one by one from the empty aggregate gives the records in
      order, with their sums and maxima. */
  lemma {:induction false} RecordAll(fs: seq<File>)
    ensures var r := RecordEach(Empty, fs);
            r.files == fs && Consistent(r)
            && r.total == Totals(|fs|, Sum(fs, Lines), Sum(fs, Words), Sum(fs, Chars), Sum(fs, Bytes))
            && r.max == Max(Largest(fs, Lines), Largest(fs, Words), Largest(fs, Chars), Largest(fs, Bytes))
  {
    RecordEachKeeps(Empty, fs);
    AddAllIsSum(fs);
    TrackAllIsLargest(fs);
  }

  function RecordEach(r: ScanResults, fs: seq<File>): ScanResults
    decreases |fs|
  {
    if fs == [] then r else RecordEach(Record(r, fs[0]), fs[1..])
  }

  lemma {:induction false} RecordEachKeeps(r: ScanResults, fs: seq<File>)
    requires Consistent(r)
    ensures RecordEach(r, fs).files == r.files + fs
    ensures Consistent(RecordEach(r, fs))
    decreases |fs|
  {
    if fs != [] {
      RecordEachKeeps(Record(r, fs[0]), fs[1..]);
      assert r.files + [fs[0]] + fs[1..] == r.files + fs;
    } else {
      assert r.files + fs == r.files;
    }
  }

  // ---------------------------------------------------------------------------
  // group_by_language
  // ---------------------------------------------------------------------------

  /** The records of one language, in scan order: the vector the HashMap entry
      collects. */
  function Members(files: seq<File>, lang: Language): (ms: seq<File>)
    ensures forall k | 0 <= k < |ms| :: ms[k].language == lang
    ensures |ms| <= |files|
  {
    if files == [] then []
    else (if files[0].language == lang then [files[0]] else []) + Members(files[1..], lang)
  }

  /** `Iterator::reduce(|acc, e| acc + e)`: the left fold of `Add`, None for no items. */
  function Reduce(ms: seq<File>): (r: Option<File>)
    ensures r.None? <==> ms == []
    ensures r.Some? ==> r.value.path == ms[|ms| - 1].path && r.value.language == ms[|ms| - 1].language
  {
    if ms == [] then None
    else if |ms| == 1 then Some(ms[0])
    else Some(Files.Add(Reduce(ms[..|ms| - 1]).GetOr(ms[0]), ms[|ms| - 1]))
  }

  function CountSum(ms: seq<File>): nat {
    if ms == [] then 0 else ms[0].count + CountSum(ms[1..])
  }

  lemma {:induction false} CountSumAppend(ms: seq<File>, f: File)
    ensures CountSum(ms + [f]) == CountSum(ms) + f.count
  {
    if ms != [] {
      assert (ms + [f])[1..] == ms[1..] + [f];
      CountSumAppend(ms[1..], f);
    }
  }

  /** What the reduced record holds: lines, words, bytes and count summed, path and
      language from the last member, and chars as `Add` makes them, the first
      member's chars plus the words of the rest. */
  lemma {:induction false} ReduceIs(ms: seq<File>)
    requires ms != []
    ensures Reduce(ms).Some?
    ensures var g := Reduce(ms).value;
            g.lines == Sum(ms, Lines) && g.words == Sum(ms, Words) && g.bytes == Sum(ms, Bytes)
            && g.count == CountSum(ms)
            && g.chars == ms[0].chars + Sum(ms[1..], Words)
            && g.path == ms[|ms| - 1].path && g.language == ms[|ms| - 1].language
  {
    if |ms| > 1 {
      var init := ms[..|ms| - 1];
      var last := ms[|ms| - 1];
      assert ms == init + [last];
      ReduceIs(init);
      SumAppend(init, last, Lines);
      SumAppend(init, last, Words);
      SumAppend(init, last, Bytes);
      CountSumAppend(init, last);
      assert ms[1..] == init[1..] + [last];
      SumAppend(init[1..], last, Words);
    }
  }

  /** The record `group_by_language` pushes for one key, if any. */
  function Group(files: seq<File>, lang: Language): seq<File> {
    match Reduce(Members(files, lang))
    case Some(g) => [g]
    case None => []
  }

  /** The grouped records, one per key, in key order. */
  function Grouped(files: seq<File>, keys: seq<Language>): seq<File>
    decreases |keys|
  {
    if keys == [] then [] else Group(files, keys[0]) + Grouped(files, keys[1..])
  }

  predicate NoDuplicates<T(==)>(s: seq<T>) {
    forall i, j | 0 <= i < j < |s| :: s[i] != s[j]
  }

  predicate Present(files: seq<File>, lang: Language) {
    exists k | 0 <= k < |files| :: files[k].language == lang
  }

  /** `keys` is an iteration order of the HashMap's keys: each language present in
      `files` exactly once. HashMap iteration order is not specified, so every such
      order is allowed. */
  predicate KeyOrder(files: seq<File>, keys: seq<Language>) {
    NoDuplicates(keys)
    && (forall i | 0 <= i < |keys| :: Present(files, keys[i]))
    && (forall k | 0 <= k < |files| :: files[k].language in keys)
  }

  /** `ScanResults::group_by_language`: a new aggregate over the grouped records,
      with totals and maxima folded over them alone. */
  function GroupByLanguage(r: ScanResults, keys: seq<Language>): (g: ScanResults)
    requires KeyOrder(r.files, keys)
    ensures Consistent(g)
    ensures |g.files| == |keys| && g.total.files == |keys|
    ensures forall i | 0 <= i < |keys| :: g.files[i].language == keys[i]
  {
    var files := Grouped(r.files, keys);
    GroupedShape(r.files, keys);
    AddAllIsSum(files);
    ScanResults(files, AddAll(files), TrackAll(files))
  }

  lemma {:induction false} MembersNonEmpty(files: seq<File>, lang: Language)
    requires Present(files, lang)
    ensures Members(files, lang) != []
  {
    if files[0].language != lang {
      var k :| 0 <= k < |files| && files[k].language == lang;
      assert files[1..][k - 1] == files[k];
      MembersNonEmpty(files[1..], lang);
    }
  }

  /** Every key present gives exactly one record, carrying that key's language. */
  lemma {:induction false} GroupedShape(files: seq<File>, keys: seq<Language>)
    requires forall i | 0 <= i < |keys| :: Present(files, keys[i])
    ensures |Grouped(files, keys)| == |keys|
    ensures forall i | 0 <= i < |keys| ::
      Reduce(Members(files, keys[i])) == Some(Grouped(files, keys)[i])
    ensures forall i | 0 <= i < |keys| :: Grouped(files, keys)[i].language == keys[i]
    decreases |keys|
  {
    if keys != [] {
      var ms := Members(files, keys[0]);
      MembersNonEmpty(files, keys[0]);
      ReduceIs(ms);
      GroupedShape(files, keys[1..]);
      var g := Grouped(files, keys);
      assert g == [Reduce(ms).value] + Grouped(files, keys[1..]);
      forall i | 1 <= i < |keys|
        ensures Reduce(Members(files, keys[i])) == Some(g[i])
      {
        assert keys[1..][i - 1] == keys[i];
      }
    }
  }

  /** The grouped record for key `i`: lines, words, bytes and count summed over that
      language's records; chars are the first record's chars plus the words of the
      others, in scan order. */
  lemma {:induction false} GroupedRecord(r: ScanResults, keys: seq<Language>, i: nat)
    requires KeyOrder(r.files, keys) && i < |keys|
    ensures var g := GroupByLanguage(r, keys).files[i];
            var ms := Members(r.files, keys[i]);
            ms != []
            && g.language == keys[i]
            && g.lines == Sum(ms, Lines) && g.words == Sum(ms, Words) && g.bytes == Sum(ms, Bytes)
            && g.count == CountSum(ms)
            && g.chars == ms[0].chars + Sum(ms[1..], Words)
  {
    GroupedShape(r.files, keys);
    MembersNonEmpty(r.files, keys[i]);
    ReduceIs(Members(r.files, keys[i]));
  }

  lemma {:induction false} GroupedConcat(files: seq<File>, a: seq<Language>, b: seq<Language>)
    ensures Grouped(files, a + b) == Grouped(files, a) + Grouped(files, b)
  {
    if a == [] {
      assert a + b == b;
    } else {
      assert (a + b)[0] == a[0] && (a + b)[1..] == a[1..] + b;
      GroupedConcat(files, a[1..], b);
    }
  }

  /** The HashMap's iteration order decides only the order of the grouped records:
      two key orders give permutations of each other, with the same totals and
      maxima. */
  lemma {:induction false} GroupedPermutation(files: seq<File>, a: seq<Language>, b: seq<Language>)
    requires multiset(a) == multiset(b)
    ensures multiset(Grouped(files, a)) == multiset(Grouped(files, b))
    decreases |a|
  {
    if a == [] {
      assert |b| == |multiset(b)| == 0;
    } else {
      var j := PositionOf(a[0], a, b);
      RemoveFirst(a, b, j);
      GroupedPermutation(files, a[1..], RemoveAt(b, j));
      GroupedTakeOut(files, b, j);
      assert Grouped(files, a) == Group(files, a[0]) + Grouped(files, a[1..]);
    }
  }

  /** Taking one key out takes its record out of the grouped records. */
  lemma {:induction false} GroupedTakeOut(files: seq<File>, b: seq<Language>, j: nat)
    requires j < |b|
    ensures multiset(Grouped(files, b)) == multiset(Group(files, b[j])) + multiset(Grouped(files, RemoveAt(b, j)))
  {
    assert b == b[..j] + ([b[j]] + b[j + 1..]);
    GroupedConcat(files, b[..j], [b[j]] + b[j + 1..]);
    GroupedConcat(files, [b[j]], b[j + 1..]);
    GroupedConcat(files, b[..j], b[j + 1..]);
    assert Grouped(files, [b[j]]) == Group(files, b[j]) + Grouped(files, []);
  }

  lemma {:induction false} KeyOrdersArePermutations(files: seq<File>, a: seq<Language>, b: seq<Language>)
    requires KeyOrder(files, a) && KeyOrder(files, b)
    ensures multiset(a) == multiset(b)
  {
    forall x
      ensures multiset(a)[x] == multiset(b)[x]
    {
      if x in a {
        var i :| 0 <= i < |a| && a[i] == x;
        var k :| 0 <= k < |files| && files[k].language == x;
        OnlyOnce(a, i);
        OnlyOnce(b, IndexIn(b, x));
      }
    }
  }

  function IndexIn<T(==)>(s: seq<T>, x: T): (i: nat)
    requires x in s
    ensures i < |s| && s[i] == x
  {
    if s[0] == x then 0 else 1 + IndexIn(s[1..], x)
  }

  /** A duplicate-free sequence holds each of its elements exactly once. */
  lemma {:induction false} OnlyOnce<T>(s: seq<T>, i: nat)
    requires NoDuplicates(s) && i < |s|
    ensures multiset(s)[s[i]] == 1
  {
    if i == 0 {
      assert s == [s[0]] + s[1..];
      assert s[0] !in s[1..] by {
        forall k | 0 <= k < |s[1..]|
          ensures s[1..][k] != s[0]
        {
          assert s[1..][k] == s[k + 1];
        }
      }
    } else {
      assert s == [s[0]] + s[1..];
      assert s[1..][i - 1] == s[i];
      assert NoDuplicates(s[1..]) by {
        forall p, q | 0 <= p < q < |s[1..]|
          ensures s[1..][p] != s[1..][q]
        {
          assert s[1..][p] == s[p + 1] && s[1..][q] == s[q + 1];
        }
      }
      OnlyOnce(s[1..], i - 1);
    }
  }

  /** Any two iteration orders of the HashMap give the same grouped records up to
      order, and the same totals and maxima. */
  lemma {:induction false} GroupOrderIrrelevant(r: ScanResults, a: seq<Language>, b: seq<Language>)
    requires KeyOrder(r.files, a) && KeyOrder(r.files, b)
    ensures multiset(GroupByLanguage(r, a).files) == multiset(GroupByLanguage(r, b).files)
    ensures GroupByLanguage(r, a).total == GroupByLanguage(r, b).total
    ensures GroupByLanguage(r, a).max == GroupByLanguage(r, b).max
  {
    KeyOrdersArePermutations(r.files, a, b);
    GroupedPermutation(r.files, a, b);
    AddAllPermutation(Grouped(r.files, a), Grouped(r.files, b));
    TrackAllPermutation(Grouped(r.files, a), Grouped(r.files, b));
  }

  // ---------------------------------------------------------------------------
  // sort_by
  // ---------------------------------------------------------------------------

  datatype SortOrder = Ascending | Descending

  /** The sort key: ascending compares the metric, descending compares it with the
      operands swapped, which is ascending on its negation. */
  function Rank(f: File, metric: Metric, order: SortOrder): int {
    match order
    case Ascending => Measure(f, metric)
    case Descending => -(Measure(f, metric) as int)
  }

  /** Every record's key is at most the next one's. */
  predicate Sorted(s: seq<File>, metric: Metric, order: SortOrder) {
    forall i | 0 < i < |s| :: Rank(s[i - 1], metric, order) <= Rank(s[i], metric, order)
  }

  /** The records whose key is `v`, in order. A stable sort keeps each of these. */
  function WithRank(s: seq<File>, metric: Metric, order: SortOrder, v: int): seq<File> {
    if s == [] then []
    else (if Rank(s[0], metric, order) == v then [s[0]] else []) + WithRank(s[1..], metric, order, v)
  }

  /** Inserts `x` after every record whose key is not greater. */
  function Insert(s: seq<File>, x: File, metric: Metric, order: SortOrder): (r: seq<File>)
    ensures |r| == |s| + 1
    ensures r[0] == if s == [] || Rank(x, metric, order) < Rank(s[0], metric, order) then x else s[0]
  {
    if s == [] then [x]
    else if Rank(x, metric, order) < Rank(s[0], metric, order) then [x] + s
    else [s[0]] + Insert(s[1..], x, metric, order)
  }

  lemma {:induction false} InsertPermutes(s: seq<File>, x: File, metric: Metric, order: SortOrder)
    ensures multiset(Insert(s, x, metric, order)) == multiset(s) + multiset{x}
  {
    if s != [] && Rank(x, metric, order) >= Rank(s[0], metric, order) {
      InsertPermutes(s[1..], x, metric, order);
      assert s == [s[0]] + s[1..];
    }
  }

  /** A stable insertion sort: each record in turn is inserted after the records
      already placed with an equal key. */
  function Sort(s: seq<File>, metric: Metric, order: SortOrder): (r: seq<File>)
    ensures multiset(r) == multiset(s)
  {
    if s == [] then []
    else
      assert s == s[..|s| - 1] + [s[|s| - 1]];
      InsertPermutes(Sort(s[..|s| - 1], metric, order), s[|s| - 1], metric, order);
      Insert(Sort(s[..|s| - 1], metric, order), s[|s| - 1], metric, order)
  }

  lemma {:induction false} InsertSorted(s: seq<File>, x: File, metric: Metric, order: SortOrder)
    requires Sorted(s, metric, order)
    ensures Sorted(Insert(s, x, metric, order), metric, order)
  {
    if s != [] && Rank(x, metric, order) >= Rank(s[0], metric, order) {
      SortedTail(s, metric, order);
      InsertSorted(s[1..], x, metric, order);
      var r := Insert(s[1..], x, metric, order);
      var t := [s[0]] + r;
      assert r[0] == x || r[0] == s[1];
      forall i | 0 < i < |t|
        ensures Rank(t[i - 1], metric, order) <= Rank(t[i], metric, order)
      {
        if i > 1 {
          assert t[i - 1] == r[i - 2] && t[i] == r[i - 1];
        }
      }
    }
  }

  lemma {:induction false} SortSorted(s: seq<File>, metric: Metric, order: SortOrder)
    ensures Sorted(Sort(s, metric, order), metric, order)
  {
    if s != [] {
      SortSorted(s[..|s| - 1], metric, order);
      InsertSorted(Sort(s[..|s| - 1], metric, order), s[|s| - 1], metric, order);
    }
  }

  lemma {:induction false} WithRankAppend(s: seq<File>, x: File, metric: Metric, order: SortOrder, v: int)
    ensures WithRank(s + [x], metric, order, v)
         == WithRank(s, metric, order, v) + (if Rank(x, metric, order) == v then [x] else [])
  {
    if s != [] {
      assert (s + [x])[1..] == s[1..] + [x];
      WithRankAppend(s[1..], x, metric, order, v);
    }
  }

  /** Inserting `x` into a sorted sequence puts it after every record with an equal
      key, so each key's records keep their order with `x` last among its equals. */
  lemma {:induction false} InsertStable(s: seq<File>, x: File, metric: Metric, order: SortOrder, v: int)
    requires Sorted(s, metric, order)
    ensures WithRank(Insert(s, x, metric, order), metric, order, v)
         == WithRank(s, metric, order, v) + (if Rank(x, metric, order) == v then [x] else [])
  {
    if s == [] {
      WithRankCons(x, [], metric, order, v);
    } else if Rank(x, metric, order) < Rank(s[0], metric, order) {
      InsertFront(s, x, metric, order, v);
    } else {
      SortedTail(s, metric, order);
      InsertStable(s[1..], x, metric, order, v);
      InsertBehind(s, x, metric, order, v);
    }
  }

  /** `x` goes in front of a record with a larger key: no record of `x`'s key follows. */
  lemma {:induction false} InsertFront(s: seq<File>, x: File, metric: Metric, order: SortOrder, v: int)
    requires Sorted(s, metric, order) && s != [] && Rank(x, metric, order) < Rank(s[0], metric, order)
    ensures WithRank(Insert(s, x, metric, order), metric, order, v)
         == WithRank(s, metric, order, v) + (if Rank(x, metric, order) == v then [x] else [])
  {
    WithRankCons(x, s, metric, order, v);
    if Rank(x, metric, order) == v {
      AboveRank(s, metric, order, v);
    }
  }

  /** `x` goes behind the first record: the first record keeps its place. */
  lemma {:induction false} InsertBehind(s: seq<File>, x: File, metric: Metric, order: SortOrder, v: int)
    requires s != [] && Rank(x, metric, order) >= Rank(s[0], metric, order)
    requires WithRank(Insert(s[1..], x, metric, order), metric, order, v)
          == WithRank(s[1..], metric, order, v) + (if Rank(x, metric, order) == v then [x] else [])
    ensures WithRank(Insert(s, x, metric, order), metric, order, v)
         == WithRank(s, metric, order, v) + (if Rank(x, metric, order) == v then [x] else [])
  {
    var h, t := s[0], s[1..];
    var rest := Insert(t, x, metric, order);
    assert Insert(s, x, metric, order) == [h] + rest;
    assert [h] + t == s;
    WithRankCons(h, rest, metric, order, v);
    WithRankCons(h, t, metric, order, v);
    var a := if Rank(x, metric, order) == v then [x] else [];
    var b := if Rank(h, metric, order) == v then [h] else [];
    var wt := WithRank(t, metric, order, v);
    assert b + (wt + a) == (b + wt) + a;
  }

  lemma {:induction false} WithRankCons(x: File, s: seq<File>, metric: Metric, order: SortOrder, v: int)
    ensures WithRank([x] + s, metric, order, v)
         == (if Rank(x, metric, order) == v then [x] else []) + WithRank(s, metric, order, v)
  {
    assert ([x] + s)[0] == x && ([x] + s)[1..] == s;
  }

  lemma {:induction false} SortedTail(s: seq<File>, metric: Metric, order: SortOrder)
    requires Sorted(s, metric, order) && s != []
    ensures Sorted(s[1..], metric, order)
  {
    forall i | 0 < i < |s[1..]|
      ensures Rank(s[1..][i - 1], metric, order) <= Rank(s[1..][i], metric, order)
    {
      assert s[1..][i - 1] == s[i] && s[1..][i] == s[i + 1];
    }
  }

  /** No record of a sorted sequence whose first key exceeds `v` has key `v`. */
  lemma {:induction false} AboveRank(s: seq<File>, metric: Metric, order: SortOrder, v: int)
    requires Sorted(s, metric, order) && s != [] && v < Rank(s[0], metric, order)
    ensures WithRank(s, metric, order, v) == []
  {
    if |s| > 1 {
      SortedTail(s, metric, order);
      AboveRank(s[1..], metric, order, v);
    }
  }

  /** The sort is stable: the records of each key come out in their input order. */
  lemma {:induction false} SortStable(s: seq<File>, metric: Metric, order: SortOrder, v: int)
    ensures WithRank(Sort(s, metric, order), metric, order, v) == WithRank(s, metric, order, v)
  {
    if s != [] {
      var init := s[..|s| - 1];
      var last := s[|s| - 1];
      assert s == init + [last];
      SortStable(init, metric, order, v);
      SortSorted(init, metric, order);
      InsertStable(Sort(init, metric, order), last, metric, order, v);
      WithRankAppend(init, last, metric, order, v);
    }
  }

  lemma {:induction false} NoRanksEmpty(a: seq<File>, metric: Metric, order: SortOrder)
    ensures (forall v :: WithRank(a, metric, order, v) == []) ==> a == []
  {
    if a != [] {
      assert WithRank(a, metric, order, Rank(a[0], metric, order)) != [];
    }
  }

  /** A sorted sequence that keeps every key's records in a given order is unique, so
      any stable sort, the standard library's included, gives `Sort`'s result. */
  lemma {:induction false} StableSortUnique(a: seq<File>, b: seq<File>, metric: Metric, order: SortOrder)
    requires Sorted(a, metric, order) && Sorted(b, metric, order)
    requires forall v :: WithRank(a, metric, order, v) == WithRank(b, metric, order, v)
    ensures a == b
    decreases |a|
  {
    NoRanksEmpty(a, metric, order);
    NoRanksEmpty(b, metric, order);
    if a != [] && b != [] {
      var ka, kb := Rank(a[0], metric, order), Rank(b[0], metric, order);
      if ka < kb {
        assert WithRank(a, metric, order, ka) != [];
        AboveRank(b, metric, order, ka);
      } else if kb < ka {
        assert WithRank(b, metric, order, kb) != [];
        AboveRank(a, metric, order, kb);
      } else {
        SameHead(a, b, metric, order);
        SortedTail(a, metric, order);
        SortedTail(b, metric, order);
        StableSortUnique(a[1..], b[1..], metric, order);
        assert a == [a[0]] + a[1..] && b == [b[0]] + b[1..];
      }
    }
  }

  /** Two sequences whose first records share a key and keep each key's records in
      the same order start with the same record, and the rests agree likewise. */
  lemma {:induction false} SameHead(a: seq<File>, b: seq<File>, metric: Metric, order: SortOrder)
    requires a != [] && b != [] && Rank(a[0], metric, order) == Rank(b[0], metric, order)
    requires forall v :: WithRank(a, metric, order, v) == WithRank(b, metric, order, v)
    ensures a[0] == b[0]
    ensures forall v :: WithRank(a[1..], metric, order, v) == WithRank(b[1..], metric, order, v)
  {
    var k := Rank(a[0], metric, order);
    WithRankCons(a[0], a[1..], metric, order, k);
    WithRankCons(b[0], b[1..], metric, order, k);
    assert [a[0]] + a[1..] == a && [b[0]] + b[1..] == b;
    assert WithRank(a, metric, order, k)[0] == a[0];
    assert WithRank(b, metric, order, k)[0] == b[0];
    forall v
      ensures WithRank(a[1..], metric, order, v) == WithRank(b[1..], metric, order, v)
    {
      var head := if k == v then [a[0]] else [];
      WithRankCons(a[0], a[1..], metric, order, v);
      WithRankCons(b[0], b[1..], metric, order, v);
      assert WithRank(a, metric, order, v) == WithRank(b, metric, order, v);
      assert WithRank(a[1..], metric, order, v) == (head + WithRank(a[1..], metric, order, v))[|head|..];
      assert WithRank(b[1..], metric, order, v) == (head + WithRank(b[1..], metric, order, v))[|head|..];
    }
  }

  /** `ScanResults::sort_by`: the records reordered by the metric; the totals and
      maxima are left as they were, and still agree with the records. */
  function SortBy(r: ScanResults, metric: Metric, order: SortOrder): (r': ScanResults)
    ensures multiset(r'.files) == multiset(r.files)
    ensures Sorted(r'.files, metric, order)
    ensures forall v :: WithRank(r'.files, metric, order, v) == WithRank(r.files, metric, order, v)
    ensures r'.total == r.total && r'.max == r.max
    ensures Consistent(r) ==> Consistent(r')
  {
    var files := Sort(r.files, metric, order);
    SortSorted(r.files, metric, order);
    forall v
      ensures WithRank(files, metric, order, v) == WithRank(r.files, metric, order, v)
    {
      SortStable(r.files, metric, order, v);
    }
    AddAllPermutation(files, r.files);
    TrackAllPermutation(files, r.files);
    ScanResults(files, r.total, r.max)
  }

  /** Ascending order is non-decreasing in the metric, descending non-increasing,
      between any two positions. */
  lemma {:induction false} SortedMeans(s: seq<File>, metric: Metric, order: SortOrder, i: nat, j: nat)
    requires Sorted(s, metric, order) && i < j < |s|
    ensures order == Ascending ==> Measure(s[i], metric) <= Measure(s[j], metric)
    ensures order == Descending ==> Measure(s[i], metric) >= Measure(s[j], metric)
    ensures Rank(s[i], metric, order) <= Rank(s[j], metric, order)
    decreases j - i
  {
    if i + 1 < j {
      SortedMeans(s, metric, order, i + 1, j);
    }
  }

  // ---------------------------------------------------------------------------
  // SortOrder::from_str
  // ---------------------------------------------------------------------------

  /** `SortOrder::from_str`: the lower-cased input must be one of the three spellings
      of either order; otherwise the error names the lower-cased input. */
  function ParseSortOrder(s: string): (r: Result<SortOrder, string>)
    ensures r.Ok? <==> ToLower(s) in {"a", "asc", "ascending", "d", "desc", "descending"}
    ensures r == Ok(Ascending) <==> ToLower(s) in {"a", "asc", "ascending"}
    ensures r.Err? ==> r.error == "Invalid sorting order: " + ToLower(s)
  {
    match ToLower(s)
    case "a" => Ok(Ascending)
    case "asc" => Ok(Ascending)
    case "ascending" => Ok(Ascending)
    case "d" => Ok(Descending)
    case "desc" => Ok(Descending)
    case "descending" => Ok(Descending)
    case x => Err("Invalid sorting order: " + x)
  }

  /** Parsing ignores ASCII letter case. */
  lemma {:induction false} ParseSortOrderCaseInsensitive(s: string)
    ensures ParseSortOrder(ToLower(s)) == ParseSortOrder(s)
  {
    ToLowerIdempotent(s);
  }
}
