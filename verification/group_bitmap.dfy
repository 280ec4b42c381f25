/** Maximal runs of set bits (`high_ranges`): the bits, followed by one extra
    `false`, are scanned once; a `true` with no run open opens one, a `false`
    with a run open closes it as the half-open range `s..i`. */
module GroupBitmap {
  import opened Common

  datatype Range = Range(lo: nat, hi: nat)

  /** `lo..hi` is a non-empty run of set bits with a clear bit (or an end of
      the slice) on either side. */
  predicate MaximalRun(bits: seq<bool>, rg: Range) {
    && rg.lo < rg.hi <= |bits|
    && AllSet(bits, rg.lo, rg.hi)
    && (rg.lo == 0 || !bits[rg.lo - 1])
    && (rg.hi == |bits| || !bits[rg.hi])
  }

  predicate AllSet(bits: seq<bool>, lo: nat, hi: nat)
    requires lo <= hi <= |bits|
  {
    forall j :: lo <= j < hi ==> bits[j]
  }

  /** The ranges emitted so far are maximal runs ending below `i`, increasing
      with gaps. */
  ghost predicate RangesOk(bits: seq<bool>, r: seq<Range>, i: nat) {
    && (forall k :: 0 <= k < |r| ==> MaximalRun(bits, r[k]) && r[k].hi < i)
    && (forall k, l :: 0 <= k < l < |r| ==> r[k].hi < r[l].lo)
  }

  /** An open run starts after the last range, right after a clear bit, and
      every bit since is set; with no run open the previous bit was clear. */
  ghost predicate OpenOk(bits: seq<bool>, r: seq<Range>, i: nat, start: Option<nat>) {
    && (start.Some? ==>
          && start.value < i && i <= |bits|
          && (forall j :: start.value <= j < i ==> bits[j])
          && (start.value == 0 || !bits[start.value - 1])
          && (|r| > 0 ==> r[|r| - 1].hi < start.value))
    && (start.None? ==> i == 0 || i > |bits| || !bits[i - 1])
  }

  /** Every set bit below `i` is in an emitted range or in the open run. */
  ghost predicate Covered(bits: seq<bool>, r: seq<Range>, i: nat, start: Option<nat>) {
    forall j :: 0 <= j < i && j < |bits| && bits[j] ==>
      (exists k :: 0 <= k < |r| && r[k].lo <= j < r[k].hi) || (start.Some? && start.value <= j)
  }

  /** One step of the scan over the bits followed by a `false`. */
  function Step(bits: seq<bool>, i: nat, start: Option<nat>, r: seq<Range>): (Option<nat>, seq<Range>)
    requires i <= |bits|
  {
    var bit := i < |bits| && bits[i];
    if bit && start.None? then (Some(i), r)
    else if !bit && start.Some? then (None, r + [Range(start.value, i)])
    else (start, r)
  }

  lemma StepKeeps(bits: seq<bool>, i: nat, start: Option<nat>, r: seq<Range>)
    requires i <= |bits|
    requires RangesOk(bits, r, i) && OpenOk(bits, r, i, start) && Covered(bits, r, i, start)
    ensures var next := Step(bits, i, start, r);
      RangesOk(bits, next.1, i + 1) && OpenOk(bits, next.1, i + 1, next.0) && Covered(bits, next.1, i + 1, next.0)
  {
    var bit := i < |bits| && bits[i];
    if !bit && start.Some? {
      CloseKeeps(bits, i, start.value, r);
    } else {
      assert RangesOk(bits, r, i + 1);
    }
  }

  /** Closing the open run at a clear bit (or at the end) emits a valid
      range. */
  lemma CloseKeeps(bits: seq<bool>, i: nat, s: nat, r: seq<Range>)
    requires i <= |bits| && (i == |bits| || !bits[i])
    requires RangesOk(bits, r, i) && OpenOk(bits, r, i, Some(s)) && Covered(bits, r, i, Some(s))
    ensures RangesOk(bits, r + [Range(s, i)], i + 1)
    ensures Covered(bits, r + [Range(s, i)], i + 1, None)
  {
    var r' := r + [Range(s, i)];
    assert forall k :: 0 <= k < |r| ==> r'[k] == r[k];
    assert r'[|r|] == Range(s, i);
    assert MaximalRun(bits, Range(s, i));
    forall k, l | 0 <= k < l < |r'| ensures r'[k].hi < r'[l].lo {
      if l == |r| && k < |r| - 1 {
        assert r[k].hi < r[|r| - 1].lo;
      }
    }
    forall j | 0 <= j < i + 1 && j < |bits| && bits[j]
      ensures exists k :: 0 <= k < |r'| && r'[k].lo <= j < r'[k].hi
    {
      if s <= j {
        assert r'[|r|].lo <= j < r'[|r|].hi;
      } else {
        var k :| 0 <= k < |r| && r[k].lo <= j < r[k].hi;
        assert r'[k] == r[k];
      }
    }
  }

  /** Every range is a maximal run of set bits, the ranges are strictly
      increasing with a gap between neighbours, and every set bit lies in one
      of them. */
  method HighRanges(bits: seq<bool>) returns (r: seq<Range>)
    ensures forall k :: 0 <= k < |r| ==> MaximalRun(bits, r[k])
    ensures forall k, l :: 0 <= k < l < |r| ==> r[k].hi < r[l].lo
    ensures forall i :: 0 <= i < |bits| && bits[i] ==> exists k :: 0 <= k < |r| && r[k].lo <= i < r[k].hi
  {
    var start: Option<nat> := None;
    r := [];
    var i := 0;
    while i <= |bits|
      invariant 0 <= i <= |bits| + 1
      invariant RangesOk(bits, r, i) && OpenOk(bits, r, i, start) && Covered(bits, r, i, start)
    {
      StepKeeps(bits, i, start, r);
      var next := Step(bits, i, start, r);
      start, r := next.0, next.1;
      i := i + 1;
    }
    assert start.None?;
  }
}
