/** The batched range iterator over a shared sorted map
    (`locked_btreemap_iter.rs`). The map is a sequence of entries with strictly
    increasing keys; each refill takes at most 256 entries of the remaining
    range under the read lock and moves the lower bound past the last one. */
module BTreeIter {
  import opened Common

  datatype Bound = Included(key: int) | Excluded(key: int) | Unbounded

  datatype Entry = Entry(key: int, value: string)

  predicate Sorted(es: seq<Entry>) {
    forall i, j :: 0 <= i < j < |es| ==> es[i].key < es[j].key
  }

  predicate AboveLo(lo: Bound, k: int) {
    match lo
    case Included(b) => b <= k
    case Excluded(b) => b < k
    case Unbounded => true
  }

  predicate BelowHi(hi: Bound, k: int) {
    match hi
    case Included(b) => k <= b
    case Excluded(b) => k < b
    case Unbounded => true
  }

  /** The entries whose keys lie between the bounds, in map order. */
  function Within(es: seq<Entry>, lo: Bound, hi: Bound): (r: seq<Entry>)
    ensures |r| <= |es|
  {
    if |es| == 0 then []
    else
      var rest := Within(es[1..], lo, hi);
      if AboveLo(lo, es[0].key) && BelowHi(hi, es[0].key) then [es[0]] + rest else rest
  }

  /** `Within` keeps exactly the entries whose keys the bounds admit. */
  lemma {:induction false} WithinMembers(es: seq<Entry>, lo: Bound, hi: Bound)
    ensures forall e :: e in Within(es, lo, hi) <==> e in es && AboveLo(lo, e.key) && BelowHi(hi, e.key)
  {
    if |es| > 0 {
      WithinMembers(es[1..], lo, hi);
      assert forall e :: e in es <==> e == es[0] || e in es[1..];
    }
  }

  const RangeEqualExcluded := "range start and end are equal and excluded in BTreeMap"
  const RangeStartAfterEnd := "range start is greater than range end in BTreeMap"

  /** The two ways `BTreeMap::range` rejects its bounds. */
  function RangeError(lo: Bound, hi: Bound): (r: Option<string>)
    ensures r.None? <==> !(lo.Excluded? && hi.Excluded? && lo.key == hi.key) && !(!lo.Unbounded? && !hi.Unbounded? && lo.key > hi.key)
  {
    if lo.Excluded? && hi.Excluded? && lo.key == hi.key then Some(RangeEqualExcluded)
    else if !lo.Unbounded? && !hi.Unbounded? && lo.key > hi.key then Some(RangeStartAfterEnd)
    else None
  }

  /** `BTreeMap::range`: the entries within the bounds, or a panic. */
  function Range(es: seq<Entry>, lo: Bound, hi: Bound): (r: Outcome<seq<Entry>>)
    ensures r.Done? <==> RangeError(lo, hi).None?
    ensures r.Done? ==> r.value == Within(es, lo, hi)
  {
    match RangeError(lo, hi)
    case Some(msg) => Panic(msg)
    case None => Done(Within(es, lo, hi))
  }

  const BatchSize: nat := 256

  /** The iterator: the remaining range and the rest of the current batch. */
  datatype Iter = Iter(lo: Bound, hi: Bound, current: seq<Entry>)

  function New(lo: Bound, hi: Bound): (it: Iter)
    ensures it.current == [] && it.lo == lo && it.hi == hi
  {
    Iter(lo, hi, [])
  }

  const RefillNotEmpty := "assertion failed: self.current.is_empty()"

  /** `refill`: only on an exhausted batch; the next batch is the first 256
      entries of the remaining range, and a non-empty batch moves the lower
      bound to just after its last key. */
  function Refill(es: seq<Entry>, it: Iter): (r: Outcome<Iter>)
    ensures |it.current| > 0 ==> r == Panic(RefillNotEmpty)
    ensures |it.current| == 0 ==> (r.Done? <==> RangeError(it.lo, it.hi).None?)
    ensures r.Done? ==>
      && var q := Within(es, it.lo, it.hi);
      && r.value.hi == it.hi
      && |r.value.current| <= BatchSize && |r.value.current| <= |q|
      && r.value.current == q[..|r.value.current|]
      && (|r.value.current| == BatchSize || |r.value.current| == |q|)
      && (|r.value.current| == 0 ==> r.value.lo == it.lo)
      && (|r.value.current| > 0 ==> r.value.lo == Excluded(r.value.current[|r.value.current| - 1].key))
  {
    if |it.current| > 0 then Panic(RefillNotEmpty)
    else
      match Range(es, it.lo, it.hi)
      case Panic(msg) => Panic(msg)
      case Done(q) =>
        var batch := if |q| <= BatchSize then q else q[..BatchSize];
        var lo := if |batch| > 0 then Excluded(batch[|batch| - 1].key) else it.lo;
        Done(Iter(lo, it.hi, batch))
  }

  /** What is left to yield: the current batch, then the rest of the range. */
  function Remaining(es: seq<Entry>, it: Iter): seq<Entry> {
    it.current + Within(es, it.lo, it.hi)
  }

  /** `next`: the head of the batch, refilling first when it is exhausted. */
  function Next(es: seq<Entry>, it: Iter): (r: Outcome<(Option<Entry>, Iter)>)
    ensures |it.current| > 0 ==> r == Done((Some(it.current[0]), it.(current := it.current[1..])))
  {
    if |it.current| > 0 then Done((Some(it.current[0]), it.(current := it.current[1..])))
    else
      match Refill(es, it)
      case Panic(msg) => Panic(msg)
      case Done(it2) =>
        if |it2.current| > 0 then Done((Some(it2.current[0]), it2.(current := it2.current[1..])))
        else Done((None, it2))
  }

  /** The range condition the driver loop in `main` keeps: not both bounds
      excluded at the same key, and not a start after the end. */
  predicate ValidRange(lo: Bound, hi: Bound) {
    RangeError(lo, hi).None?
  }

  /** Past the first entry of `q` whose key `k` lies in the range, the range
      with lower bound `Excluded(k)` holds exactly the entries after it. */
  lemma {:induction false} SkipPast(es: seq<Entry>, lo: Bound, hi: Bound, n: nat)
    requires Sorted(es)
    requires 0 < n <= |Within(es, lo, hi)|
    ensures Within(es, Excluded(Within(es, lo, hi)[n - 1].key), hi) == Within(es, lo, hi)[n..]
    decreases |es|, 1
  {
    if AboveLo(lo, es[0].key) && BelowHi(hi, es[0].key) {
      if n == 1 {
        assert Within(es, lo, hi)[0] == es[0];
        SkipPastHead(es, lo, hi);
      } else {
        SkipPastIn(es, lo, hi, n);
      }
    } else {
      SkipPastOut(es, lo, hi, n);
    }
  }

  /** `SkipPast` when the head of `es` is in the range but is not the entry
      skipped past. */
  lemma {:induction false} SkipPastIn(es: seq<Entry>, lo: Bound, hi: Bound, n: nat)
    requires Sorted(es) && |es| > 0 && AboveLo(lo, es[0].key) && BelowHi(hi, es[0].key)
    requires 1 < n <= |Within(es, lo, hi)|
    ensures Within(es, Excluded(Within(es, lo, hi)[n - 1].key), hi) == Within(es, lo, hi)[n..]
    decreases |es|, 0
  {
    var q := Within(es, lo, hi);
    var rest := es[1..];
    var w := Within(rest, lo, hi);
    SortedTail(es);
    assert q == [es[0]] + w;
    assert q[n - 1] == w[n - 2];
    HeadBelow(es, lo, hi, w[n - 2]);
    SkipPast(rest, lo, hi, n - 1);
    assert q[n..] == w[n - 1..];
  }

  /** `SkipPast` when the head of `es` is outside the range. */
  lemma {:induction false} SkipPastOut(es: seq<Entry>, lo: Bound, hi: Bound, n: nat)
    requires Sorted(es) && |es| > 0 && !(AboveLo(lo, es[0].key) && BelowHi(hi, es[0].key))
    requires 0 < n <= |Within(es, lo, hi)|
    ensures Within(es, Excluded(Within(es, lo, hi)[n - 1].key), hi) == Within(es, lo, hi)[n..]
    decreases |es|, 0
  {
    var rest := es[1..];
    var w := Within(rest, lo, hi);
    SortedTail(es);
    assert Within(es, lo, hi) == w;
    HeadBelow(es, lo, hi, w[n - 1]);
    SkipPast(rest, lo, hi, n);
  }

  /** A lower bound just past a later entry's key leaves out the head. */
  lemma HeadBelow(es: seq<Entry>, lo: Bound, hi: Bound, e: Entry)
    requires Sorted(es) && |es| > 0 && e in Within(es[1..], lo, hi)
    ensures Within(es, Excluded(e.key), hi) == Within(es[1..], Excluded(e.key), hi)
  {
    WithinMembers(es[1..], lo, hi);
    HeadSmallest(es);
  }

  lemma SortedTail(es: seq<Entry>)
    requires Sorted(es) && |es| > 0
    ensures Sorted(es[1..])
  {
    forall i, j | 0 <= i < j < |es| - 1 ensures es[1..][i].key < es[1..][j].key {
      assert es[1..][i] == es[i + 1] && es[1..][j] == es[j + 1];
    }
  }

  /** Past a first entry inside the range, the range starting just after its
      key holds exactly the entries after it. */
  lemma SkipPastHead(es: seq<Entry>, lo: Bound, hi: Bound)
    requires Sorted(es) && |es| > 0 && AboveLo(lo, es[0].key)
    ensures Within(es, Excluded(es[0].key), hi) == Within(es[1..], lo, hi)
  {
    var rest := es[1..];
    HeadSmallest(es);
    forall e | e in rest ensures AboveLo(lo, e.key) && AboveLo(Excluded(es[0].key), e.key) {
      AboveLoMono(lo, es[0].key, e.key);
    }
    WithinSameLower(rest, lo, Excluded(es[0].key), hi);
  }

  lemma HeadSmallest(es: seq<Entry>)
    requires Sorted(es) && |es| > 0
    ensures forall e :: e in es[1..] ==> es[0].key < e.key
  {
    forall e | e in es[1..] ensures es[0].key < e.key {
      var j :| 0 <= j < |es[1..]| && es[1..][j] == e;
      assert es[1 + j] == e;
    }
  }

  lemma AboveLoMono(lo: Bound, a: int, b: int)
    requires AboveLo(lo, a) && a < b
    ensures AboveLo(lo, b)
  {
  }

  /** Two lower bounds that both admit every key of `es` select the same
      entries. */
  lemma {:induction false} WithinSameLower(es: seq<Entry>, lo1: Bound, lo2: Bound, hi: Bound)
    requires forall e :: e in es ==> AboveLo(lo1, e.key) && AboveLo(lo2, e.key)
    ensures Within(es, lo1, hi) == Within(es, lo2, hi)
    decreases |es|
  {
    if |es| > 0 {
      assert forall e :: e in es[1..] ==> e in es;
      WithinSameLower(es[1..], lo1, lo2, hi);
    }
  }

  /** The number of entries still to come, which every yielded entry lowers by
      one. */
  function Measure(es: seq<Entry>, it: Iter): nat {
    |Remaining(es, it)|
  }

  /** A `next` that yields an entry yields the head of what remained and leaves
      the rest; the range stays valid. */
  lemma NextYields(es: seq<Entry>, it: Iter)
    requires Sorted(es) && ValidRange(it.lo, it.hi)
    ensures Next(es, it).Done?
    ensures Next(es, it).value.0.None? <==> Remaining(es, it) == []
    ensures Next(es, it).value.0.Some? ==>
      && Remaining(es, it) == [Next(es, it).value.0.value] + Remaining(es, Next(es, it).value.1)
      && ValidRange(Next(es, it).value.1.lo, Next(es, it).value.1.hi)
  {
    if |it.current| == 0 {
      RefillKeeps(es, it);
      var it2 := Refill(es, it).value;
      if |it2.current| > 0 {
        assert Remaining(es, it) == [it2.current[0]] + (it2.current[1..] + Within(es, it2.lo, it2.hi));
      }
    }
  }

  /** A refill moves the next batch out of the range without losing or
      repeating an entry, and keeps the range valid. */
  lemma RefillKeeps(es: seq<Entry>, it: Iter)
    requires Sorted(es) && ValidRange(it.lo, it.hi) && |it.current| == 0
    ensures Refill(es, it).Done?
    ensures var it2 := Refill(es, it).value;
      && Remaining(es, it) == Remaining(es, it2)
      && ValidRange(it2.lo, it2.hi)
  {
    var q := Within(es, it.lo, it.hi);
    var it2 := Refill(es, it).value;
    var b := it2.current;
    if |b| > 0 {
      SkipPast(es, it.lo, it.hi, |b|);
      assert q == b + q[|b|..];
      var k := b[|b| - 1].key;
      assert b[|b| - 1] in q;
      WithinMembers(es, it.lo, it.hi);
      assert BelowHi(it.hi, k);
    }
  }

  lemma MeasureDrops(es: seq<Entry>, it: Iter)
    requires Sorted(es)
    ensures Next(es, it).Done? && Next(es, it).value.0.Some? ==> Measure(es, Next(es, it).value.1) < Measure(es, it)
  {
    if |it.current| == 0 && Next(es, it).Done? && Next(es, it).value.0.Some? {
      assert Refill(es, it).Done?;
      NextYields(es, it);
    }
  }

  /** `collect`: `next` until it yields nothing. */
  function Collect(es: seq<Entry>, it: Iter): (r: Outcome<seq<Entry>>)
    requires Sorted(es)
    decreases Measure(es, it)
  {
    match Next(es, it)
    case Panic(msg) => Panic(msg)
    case Done((None, _)) => Done([])
    case Done((Some(e), it2)) =>
      MeasureDrops(es, it);
      match Collect(es, it2)
      case Panic(msg) => Panic(msg)
      case Done(rest) => Done([e] + rest)
  }

  /** Collecting from a state with a valid range yields exactly what remains:
      the current batch, then the rest of the range. */
  lemma {:induction false} CollectRemaining(es: seq<Entry>, it: Iter)
    requires Sorted(es) && ValidRange(it.lo, it.hi)
    ensures Collect(es, it) == Done(Remaining(es, it))
    decreases Measure(es, it)
  {
    NextYields(es, it);
    MeasureDrops(es, it);
    var (e, it2) := Next(es, it).value;
    if e.Some? {
      CollectRemaining(es, it2);
    }
  }

  /** The iterator and the direct range query agree on every pair of bounds:
      the same entries for a valid range, the same panic otherwise. */
  lemma CollectMatchesRange(es: seq<Entry>, lo: Bound, hi: Bound)
    requires Sorted(es)
    ensures Collect(es, New(lo, hi)) == Range(es, lo, hi)
  {
    if ValidRange(lo, hi) {
      CollectRemaining(es, New(lo, hi));
      assert Remaining(es, New(lo, hi)) == Within(es, lo, hi);
    }
  }

  /** The entries of a range come out in strictly increasing key order. */
  lemma {:induction false} WithinSorted(es: seq<Entry>, lo: Bound, hi: Bound)
    requires Sorted(es)
    ensures Sorted(Within(es, lo, hi))
  {
    if |es| > 0 {
      WithinSorted(es[1..], lo, hi);
      HeadSmallest(es);
      WithinMembers(es[1..], lo, hi);
      var w := Within(es[1..], lo, hi);
      assert forall j :: 0 <= j < |w| ==> w[j] in es[1..];
    }
  }
}
