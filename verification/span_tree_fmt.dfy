/** The text report of a trace context (`Display for TraceContext`): one line
    per node, depth-first from the root, children ordered by span text, each line
    indented two spaces per level and carrying the node's elapsed time, flagged
    with `!!! ` when a non-root span has been running for a second or more.

    Wall-clock time is a parameter: `elapsed(n)` gives the whole seconds and the
    already formatted duration text of node `n`. */
module SpanTreeFmt {
  import opened Common
  import opened SpanTree

  datatype Elapsed = Elapsed(secs: nat, text: string)

  /** Rust's `Ord` for `str`: lexicographic, by character. */
  predicate StrLe(a: string, b: string)
    decreases |a|
  {
    |a| == 0 || (|b| > 0 && (a[0] < b[0] || (a[0] == b[0] && StrLe(a[1..], b[1..]))))
  }

  lemma {:induction false} StrLeTotal(a: string, b: string)
    ensures StrLe(a, b) || StrLe(b, a)
    decreases |a|
  {
    if |a| > 0 && |b| > 0 && a[0] == b[0] {
      StrLeTotal(a[1..], b[1..]);
    }
  }

  lemma {:induction false} StrLeTrans(a: string, b: string, c: string)
    requires StrLe(a, b) && StrLe(b, c)
    ensures StrLe(a, c)
    decreases |a|
  {
    if |a| > 0 && a[0] == b[0] && b[0] == c[0] {
      StrLeTrans(a[1..], b[1..], c[1..]);
    }
  }

  function SpanOf(c: TraceContext, n: NodeId): string {
    if n < |c.arena| then c.arena[n].span else ""
  }

  predicate SortedBySpan(c: TraceContext, s: seq<NodeId>) {
    forall i, j :: 0 <= i < j < |s| ==> StrLe(SpanOf(c, s[i]), SpanOf(c, s[j]))
  }

  /** Inserts `x` before the first element whose span is not smaller, so that
      among equal spans the earlier-inserted node comes first. */
  function InsertBySpan(c: TraceContext, x: NodeId, s: seq<NodeId>): (r: seq<NodeId>)
    requires SortedBySpan(c, s)
    ensures SortedBySpan(c, r)
    ensures multiset(r) == multiset(s) + multiset{x}
  {
    if |s| == 0 then [x]
    else if StrLe(SpanOf(c, x), SpanOf(c, s[0])) then
      InsertFront(c, x, s);
      [x] + s
    else
      var rest := InsertBySpan(c, x, s[1..]);
      InsertLater(c, x, s, rest);
      [s[0]] + rest
  }

  /** A sequence stays sorted with `h` in front when `h` is not above any of
      its spans. */
  lemma SortedCons(c: TraceContext, h: NodeId, t: seq<NodeId>)
    requires SortedBySpan(c, t)
    requires forall y :: y in t ==> StrLe(SpanOf(c, h), SpanOf(c, y))
    ensures SortedBySpan(c, [h] + t)
  {
    var r := [h] + t;
    forall i, j | 0 <= i < j < |r| ensures StrLe(SpanOf(c, r[i]), SpanOf(c, r[j])) {
      assert r[j] == t[j - 1];
      if i > 0 { assert r[i] == t[i - 1]; }
    }
  }

  lemma InsertFront(c: TraceContext, x: NodeId, s: seq<NodeId>)
    requires SortedBySpan(c, s) && |s| > 0 && StrLe(SpanOf(c, x), SpanOf(c, s[0]))
    ensures SortedBySpan(c, [x] + s)
  {
    forall y | y in s ensures StrLe(SpanOf(c, x), SpanOf(c, y)) {
      var j :| 0 <= j < |s| && s[j] == y;
      if j > 0 { StrLeTrans(SpanOf(c, x), SpanOf(c, s[0]), SpanOf(c, s[j])); }
    }
    SortedCons(c, x, s);
  }

  lemma InsertLater(c: TraceContext, x: NodeId, s: seq<NodeId>, rest: seq<NodeId>)
    requires SortedBySpan(c, s) && |s| > 0 && !StrLe(SpanOf(c, x), SpanOf(c, s[0]))
    requires SortedBySpan(c, rest) && multiset(rest) == multiset(s[1..]) + multiset{x}
    ensures SortedBySpan(c, [s[0]] + rest)
    ensures multiset([s[0]] + rest) == multiset(s) + multiset{x}
  {
    StrLeTotal(SpanOf(c, x), SpanOf(c, s[0]));
    assert s == [s[0]] + s[1..];
    forall y | y in rest ensures StrLe(SpanOf(c, s[0]), SpanOf(c, y)) {
      assert y in multiset(rest);
      if y != x {
        var j :| 0 <= j < |s[1..]| && s[1..][j] == y;
        assert s[j + 1] == y;
      }
    }
    SortedCons(c, s[0], rest);
  }

  /** `sorted_by` on span text: ordered by span, and a permutation of the input. */
  function SortBySpan(c: TraceContext, s: seq<NodeId>): (r: seq<NodeId>)
    ensures SortedBySpan(c, r)
    ensures multiset(r) == multiset(s)
  {
    if |s| == 0 then []
    else
      assert s == [s[0]] + s[1..];
      InsertBySpan(c, s[0], SortBySpan(c, s[1..]))
  }

  function Spaces(n: nat): (r: string)
    ensures |r| == n && forall i :: 0 <= i < n ==> r[i] == ' '
  {
    if n == 0 then "" else " " + Spaces(n - 1)
  }

  /** The marker shown before the elapsed time of a slow non-root span. */
  function Marker(depth: nat, e: Elapsed): (r: string)
    ensures r == "!!! " <==> depth > 0 && e.secs >= 1
    ensures r == "" || r == "!!! "
  {
    if depth > 0 && e.secs >= 1 then "!!! " else ""
  }

  function NodeLine(c: TraceContext, n: NodeId, depth: nat, elapsed: NodeId -> Elapsed): string {
    Spaces(2 * depth) + SpanOf(c, n) + " [" + Marker(depth, elapsed(n)) + elapsed(n).text + "]\n"
  }

  predicate Indented(line: string, width: nat) {
    |line| >= width && line[..width] == Spaces(width)
  }

  /** `fmt_node`: the node's line, then the subtrees of its children ordered by
      span. `fuel` bounds the depth (a well-formed arena is finite, and the tree
      has fewer levels than nodes). */
  function RenderNode(c: TraceContext, n: NodeId, depth: nat, elapsed: NodeId -> Elapsed, fuel: nat): (r: seq<string>)
    ensures fuel > 0 ==> |r| >= 1 && r[0] == NodeLine(c, n, depth, elapsed)
    ensures fuel == 0 ==> r == []
    ensures forall i :: 0 <= i < |r| ==> Indented(r[i], 2 * depth)
    ensures forall i :: 1 <= i < |r| ==> Indented(r[i], 2 * (depth + 1))
    decreases fuel, 0
  {
    if fuel == 0 then []
    else
      var kids := if n < |c.arena| then SortBySpan(c, c.arena[n].children) else [];
      var line := NodeLine(c, n, depth, elapsed);
      assert line[..2 * depth] == Spaces(2 * depth);
      var rest := RenderAll(c, kids, depth + 1, elapsed, fuel - 1);
      var r := [line] + rest;
      assert forall i :: 1 <= i < |r| ==> Indented(r[i], 2 * depth) by {
        forall i | 1 <= i < |r| ensures Indented(r[i], 2 * depth) {
          assert Indented(rest[i - 1], 2 * (depth + 1));
          assert r[i][..2 * depth] == r[i][..2 * (depth + 1)][..2 * depth];
        }
      }
      r
  }

  /** The subtrees of `kids`, one after another, each at `depth`. */
  function RenderAll(c: TraceContext, kids: seq<NodeId>, depth: nat, elapsed: NodeId -> Elapsed, fuel: nat): (r: seq<string>)
    ensures forall i :: 0 <= i < |r| ==> Indented(r[i], 2 * depth)
    ensures fuel > 0 ==> |r| >= |kids|
    decreases fuel, 1, |kids|
  {
    if |kids| == 0 then []
    else RenderNode(c, kids[0], depth, elapsed, fuel) + RenderAll(c, kids[1..], depth, elapsed, fuel)
  }

  /** `to_report`: the lines from the root, joined. The fuel is the arena size. */
  function Report(c: TraceContext, elapsed: NodeId -> Elapsed): (r: string)
    ensures |c.arena| > 0 ==>
      (|r| >= |NodeLine(c, c.root, 0, elapsed)| && r[..|NodeLine(c, c.root, 0, elapsed)|] == NodeLine(c, c.root, 0, elapsed))
  {
    var lines := RenderNode(c, c.root, 0, elapsed, |c.arena|);
    var r := Concat(lines);
    if |c.arena| > 0 then
      ConcatHead(lines);
      r
    else r
  }

  function Concat(lines: seq<string>): (r: string)
    ensures |lines| == 0 ==> r == ""
  {
    if |lines| == 0 then "" else lines[0] + Concat(lines[1..])
  }

  lemma ConcatHead(lines: seq<string>)
    requires |lines| > 0
    ensures |Concat(lines)| >= |lines[0]| && Concat(lines)[..|lines[0]|] == lines[0]
  {
    assert Concat(lines) == lines[0] + Concat(lines[1..]);
  }
}
