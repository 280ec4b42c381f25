/** A per-function recursion tracker (`stacker.rs`). `recurse` raises the
    tracker's depth on entry through a guard and lowers it when the guard is
    dropped, so the closure sees its own nesting level, counted from 1. Stack
    growth is a foreign call and is not modelled: the closure simply runs. The
    example `sum` adds `x + sum(x - 1)` in `u64`, whose overflow panics. */
module Stacker {
  import opened Common

  const U64Limit: nat := 0x1_0000_0000_0000_0000
  const AddOverflow := "attempt to add with overflow"
  const SubOverflow := "attempt to subtract with overflow"

  datatype Tracker = Tracker(depth: nat)

  /** `Tracker::new`. */
  function New(): (t: Tracker)
    ensures t.depth == 0
  {
    Tracker(0)
  }

  /** `DepthGuard::new`: one level deeper. */
  function Enter(t: Tracker): (r: Tracker)
    ensures r.depth == t.depth + 1
  {
    Tracker(t.depth + 1)
  }

  /** `DepthGuard::drop`: one level shallower; `usize` subtraction panics
      below zero. */
  function Exit(t: Tracker): (r: Outcome<Tracker>)
    ensures r.Done? <==> t.depth > 0
    ensures r.Done? ==> r.value.depth + 1 == t.depth
  {
    if t.depth == 0 then Panic(SubOverflow) else Done(Tracker(t.depth - 1))
  }

  lemma ExitAfterEnter(t: Tracker)
    ensures Exit(Enter(t)) == Done(t)
  {
  }

  /** One run of `sum(x)` with the tracker at `t`: its result, the depths the
      closures saw (outermost first) and the tracker afterwards. Each level's
      guard is dropped on the way out, during a panic too. */
  datatype SumRun = SumRun(result: Outcome<nat>, seen: seq<nat>, after: Tracker)

  function Sum(x: nat, t: Tracker): (r: SumRun)
    ensures r.after == t
    ensures |r.seen| == x + 1 && r.seen[0] == t.depth + 1
    ensures r.result.Done? ==> r.result.value < U64Limit
    decreases x
  {
    var inner := Enter(t);
    if x == 0 then SumRun(Done(0), [inner.depth], ExitOrStay(inner))
    else
      var rec := Sum(x - 1, inner);
      var result :=
        match rec.result
        case Panic(m) => Panic(m)
        case Done(v) => if x + v < U64Limit then Done(x + v) else Panic(AddOverflow);
      SumRun(result, [inner.depth] + rec.seen, ExitOrStay(rec.after))
  }

  /** The guard's drop where the depth is known to be positive. */
  function ExitOrStay(t: Tracker): Tracker {
    match Exit(t)
    case Done(t') => t'
    case Panic(_) => t
  }

  function Triangle(x: nat): nat {
    x * (x + 1) / 2
  }

  /** `sum(x)` is x(x+1)/2 exactly when that fits in a `u64` and panics
      otherwise; the closure at nesting level `i` (from 1) sees depth
      `t.depth + i`; and the depth is back where it started afterwards. */
  lemma {:induction false} SumSpec(x: nat, t: Tracker)
    ensures Sum(x, t).result.Done? <==> Triangle(x) < U64Limit
    ensures Sum(x, t).result.Done? ==> Sum(x, t).result.value == Triangle(x)
    ensures Sum(x, t).result.Panic? ==> Sum(x, t).result.reason == AddOverflow
    ensures |Sum(x, t).seen| == x + 1
    ensures forall i :: 0 <= i <= x ==> Sum(x, t).seen[i] == t.depth + 1 + i
    ensures Sum(x, t).after == t
    decreases x
  {
    if x > 0 {
      var inner := Enter(t);
      SumSpec(x - 1, inner);
      var rec := Sum(x - 1, inner);
      assert Triangle(x) == x + Triangle(x - 1) by {
        assert x * (x + 1) == (x - 1) * x + 2 * x;
      }
      assert rec.after == inner;
      var run := Sum(x, t);
      assert run.seen == [inner.depth] + rec.seen;
      forall i | 0 <= i <= x ensures run.seen[i] == t.depth + 1 + i {
        if i > 0 {
          assert run.seen[i] == rec.seen[i - 1];
        }
      }
    }
  }

  /** The program's call, from a fresh tracker: no overflow. */
  lemma MainSum(x: nat, t: Tracker)
    requires x == 1919810 && t == New()
    ensures Sum(x, t).result == Done(1842836177955)
  {
    SumSpec(x, t);
    MainTriangle(x);
  }

  /** The outermost closure of the program's call sees depth 1. */
  lemma MainDepth(x: nat, t: Tracker)
    requires x == 1919810 && t == New()
    ensures Sum(x, t).seen[0] == 1
  {
    SumSpec(x, t);
  }

  lemma MainTriangle(x: nat)
    requires x == 1919810
    ensures Triangle(x) == 1842836177955 < U64Limit
  {
  }
}
