/** The isomorphism matcher (`dag_isomorphic`): cheap rejections (node count,
    degree profile, fingerprint buckets, empty candidate sets, the sink pair),
    then a backtracking search that always extends the unmapped node with the
    fewest candidates.

    The mapping, a `HashMap` from g1 ids to g2 ids in the source, is a sequence
    with one optional entry per g1 node. The extra predicate `f` is a pure
    function of the two node payloads. */
module DagIso {
  import opened Common
  import opened DagGraph
  import opened DagTopo
  import opened DagFingerprint

  type Mapping = seq<Option<nat>>

  /** The number of unmapped g1 nodes. */
  function Unmapped(m: Mapping): (r: nat)
    ensures r <= |m|
    ensures r == 0 <==> forall a :: 0 <= a < |m| ==> m[a].Some?
  {
    if |m| == 0 then 0 else Unmapped(m[..|m| - 1]) + (if m[|m| - 1].None? then 1 else 0)
  }

  lemma {:induction false} UnmappedAssign(m: Mapping, u: nat, v: nat)
    requires u < |m| && m[u].None?
    ensures Unmapped(m[u := Some(v)]) == Unmapped(m) - 1
    decreases |m|
  {
    var m' := m[u := Some(v)];
    var init := m[..|m| - 1];
    if u < |m| - 1 {
      assert m'[..|m'| - 1] == init[u := Some(v)];
      assert m'[|m'| - 1] == m[|m| - 1];
      UnmappedAssign(init, u, v);
    } else {
      assert m'[..|m'| - 1] == init;
    }
  }

  predicate Injective(m: Mapping) {
    forall a, b :: 0 <= a < |m| && 0 <= b < |m| && a != b && m[a].Some? && m[b].Some? ==> m[a].value != m[b].value
  }

  /** Every g1 edge between two distinct mapped nodes maps to a g2 edge. */
  ghost predicate EdgesKept(g1: Dag, g2: Dag, m: Mapping)
    requires |m| == |g1.adj|
  {
    forall a, b :: 0 <= a < |m| && 0 <= b < |m| && a != b && m[a].Some? && m[b].Some? && b in g1.adj[a] ==>
      m[a].value < |g2.adj| && m[b].value in g2.adj[m[a].value]
  }

  /** What the search keeps true between steps. */
  ghost predicate SearchInv(g1: Dag, g2: Dag, cand: seq<set<nat>>, used: set<nat>, m: Mapping) {
    && Consistent(g1) && Consistent(g2)
    && |g2.nodes| == |g1.nodes| && |cand| == |g1.nodes| && |m| == |g1.nodes|
    && (forall x, w :: 0 <= x < |cand| && w in cand[x] ==> w < |g2.nodes|)
    && (forall a :: 0 <= a < |m| && m[a].Some? ==> m[a].value < |g2.nodes| && m[a].value in used)
    && Injective(m)
    && EdgesKept(g1, g2, m)
  }

  /** The search result: `m2` keeps every pair of `m`, and maps each node `m`
      left open to one of its candidates in `cand`. */
  predicate Extends(m: Mapping, m2: Mapping, cand: seq<set<nat>>)
    requires |m| == |cand|
  {
    && |m2| == |m|
    && forall a :: 0 <= a < |m| ==>
         if m[a].Some? then m2[a] == m[a] else m2[a].Some? && m2[a].value in cand[a]
  }

  /** `min_by_key` over the unmapped nodes: the first one with the fewest
      candidates. */
  function MinUnmapped(cand: seq<set<nat>>, m: Mapping): (u: nat)
    requires |cand| == |m| && Unmapped(m) > 0
    ensures u < |m| && m[u].None?
    ensures forall x :: 0 <= x < |m| && m[x].None? ==> |cand[u]| <= |cand[x]|
    ensures forall x :: 0 <= x < u && m[x].None? ==> |cand[u]| < |cand[x]|
  {
    var first := FirstUnmapped(m, 0);
    MinFrom(cand, m, first + 1, first)
  }

  function FirstUnmapped(m: Mapping, i: nat): (u: nat)
    requires exists x :: i <= x < |m| && m[x].None?
    ensures i <= u < |m| && m[u].None?
    ensures forall x :: i <= x < u ==> m[x].Some?
    decreases |m| - i
  {
    if m[i].None? then i else FirstUnmapped(m, i + 1)
  }

  /** Scans the nodes from `i` on, `best` being the first minimal unmapped node
      below `i`. */
  function MinFrom(cand: seq<set<nat>>, m: Mapping, i: nat, best: nat): (u: nat)
    requires |cand| == |m| && i <= |m|
    requires best < i && m[best].None?
    requires forall x :: 0 <= x < i && m[x].None? ==> |cand[best]| <= |cand[x]|
    requires forall x :: 0 <= x < best && m[x].None? ==> |cand[best]| < |cand[x]|
    ensures u < |m| && m[u].None?
    ensures forall x :: 0 <= x < |m| && m[x].None? ==> |cand[u]| <= |cand[x]|
    ensures forall x :: 0 <= x < u && m[x].None? ==> |cand[u]| < |cand[x]|
    decreases |m| - i
  {
    if i == |m| then best
    else if m[i].None? && |cand[i]| < |cand[best]| then MinFrom(cand, m, i + 1, i)
    else MinFrom(cand, m, i + 1, best)
  }

  /** The edge-consistency test for mapping `u` to `v`: every mapped parent of
      `u` maps to a parent of `v`, every mapped child to a child. */
  predicate EdgeConsistent(g1: Dag, g2: Dag, m: Mapping, u: nat, v: nat)
    requires u < |g1.adj| && u < |g1.rev| && v < |g2.adj| && v < |g2.rev|
    requires forall j :: 0 <= j < |g1.rev[u]| ==> g1.rev[u][j] < |m|
    requires forall j :: 0 <= j < |g1.adj[u]| ==> g1.adj[u][j] < |m|
  {
    && (forall j :: 0 <= j < |g1.rev[u]| && m[g1.rev[u][j]].Some? ==> m[g1.rev[u][j]].value in g2.rev[v])
    && (forall j :: 0 <= j < |g1.adj[u]| && m[g1.adj[u][j]].Some? ==> m[g1.adj[u][j]].value in g2.adj[v])
  }

  lemma InAdjIffInRev(g: Dag, a: nat, b: nat)
    requires Consistent(g) && a < |g.nodes| && b < |g.nodes|
    ensures b in g.adj[a] <==> a in g.rev[b]
  {
    assert b in g.adj[a] <==> multiset(g.adj[a])[b] > 0;
    assert a in g.rev[b] <==> multiset(g.rev[b])[a] > 0;
  }

  /** Adding an edge-consistent pair `u -> v` with `v` unused keeps the search
      invariant. */
  lemma AssignKeepsInv(g1: Dag, g2: Dag, cand: seq<set<nat>>, used: set<nat>, m: Mapping, u: nat, v: nat)
    requires SearchInv(g1, g2, cand, used, m)
    requires u < |m| && m[u].None? && v < |g2.nodes| && v !in used
    requires EdgeConsistent(g1, g2, m, u, v)
    ensures SearchInv(g1, g2, cand, used + {v}, m[u := Some(v)])
  {
    var m2 := m[u := Some(v)];
    forall a, b | 0 <= a < |m2| && 0 <= b < |m2| && a != b && m2[a].Some? && m2[b].Some? && b in g1.adj[a]
      ensures m2[a].value < |g2.adj| && m2[b].value in g2.adj[m2[a].value]
    {
      if b == u {
        InAdjIffInRev(g1, a, u);
        var j :| 0 <= j < |g1.rev[u]| && g1.rev[u][j] == a;
        InAdjIffInRev(g2, m[a].value, v);
      } else if a == u {
        var j :| 0 <= j < |g1.adj[u]| && g1.adj[u][j] == b;
      }
    }
  }

  /** The pruning loop after a tentative assignment of `v`: `v` is removed from
      the candidates of every unmapped node in id order, stopping at the first
      node left with none. */
  method Prune(cand: seq<set<nat>>, m: Mapping, v: nat) returns (cand2: seq<set<nat>>, dead: bool)
    requires |cand| == |m|
    ensures |cand2| == |cand|
    ensures forall x :: 0 <= x < |cand| ==> cand2[x] <= cand[x]
    ensures forall x :: 0 <= x < |cand| && m[x].Some? ==> cand2[x] == cand[x]
    ensures !dead ==> forall x :: 0 <= x < |cand| && m[x].None? ==> cand2[x] == cand[x] - {v} && cand2[x] != {}
    ensures dead ==> exists x :: 0 <= x < |cand| && m[x].None? && cand2[x] == {}
  {
    cand2 := cand;
    dead := false;
    var x := 0;
    while x < |cand|
      invariant 0 <= x <= |cand| && |cand2| == |cand|
      invariant forall y :: 0 <= y < |cand| ==> cand2[y] <= cand[y]
      invariant forall y :: 0 <= y < |cand| && (m[y].Some? || y >= x) ==> cand2[y] == cand[y]
      invariant forall y :: 0 <= y < x && m[y].None? ==> cand2[y] == cand[y] - {v} && cand2[y] != {}
    {
      if m[x].None? {
        cand2 := cand2[x := cand2[x] - {v}];
        if cand2[x] == {} {
          dead := true;
          return;
        }
      }
      x := x + 1;
    }
  }

  /** `dfs`: on success the mapping is total, injective and edge-preserving and
      extends the mapping it started from with candidates. The search state is
      passed and returned by value, so a failed branch cannot leak into its
      siblings; on failure the caller's state is returned as it came in. */
  method Dfs(g1: Dag, g2: Dag, cand: seq<set<nat>>, used: set<nat>, m: Mapping)
    returns (ok: bool, cand2: seq<set<nat>>, used2: set<nat>, m2: Mapping)
    requires SearchInv(g1, g2, cand, used, m)
    ensures !ok ==> cand2 == cand && used2 == used && m2 == m
    ensures ok ==> Unmapped(m2) == 0 && SearchInv(g1, g2, cand2, used2, m2) && Extends(m, m2, cand)
    decreases Unmapped(m), 1
  {
    if Unmapped(m) == 0 {
      return true, cand, used, m;
    }
    var u := MinUnmapped(cand, m);
    var remaining := cand[u];
    while remaining != {}
      invariant remaining <= cand[u]
      decreases remaining
    {
      var v :| v in remaining;
      remaining := remaining - {v};
      if v in used || !EdgeConsistent(g1, g2, m, u, v) {
        continue;
      }
      var found, c3, u3, m3 := TryPair(g1, g2, cand, used, m, u, v);
      if found {
        return true, c3, u3, m3;
      }
    }
    return false, cand, used, m;
  }

  /** One iteration of `dfs`'s loop body: map `u` to `v`, prune, and recurse
      unless pruning left some node without candidates. Undoing the assignment
      on failure is what leaves the caller's state untouched. */
  method TryPair(g1: Dag, g2: Dag, cand: seq<set<nat>>, used: set<nat>, m: Mapping, u: nat, v: nat)
    returns (ok: bool, cand2: seq<set<nat>>, used2: set<nat>, m2: Mapping)
    requires SearchInv(g1, g2, cand, used, m)
    requires u < |m| && m[u].None? && v in cand[u] && v !in used
    requires EdgeConsistent(g1, g2, m, u, v)
    ensures ok ==> Unmapped(m2) == 0 && SearchInv(g1, g2, cand2, used2, m2) && Extends(m, m2, cand)
    decreases Unmapped(m), 0
  {
    AssignKeepsInv(g1, g2, cand, used, m, u, v);
    var mu := m[u := Some(v)];
    var dead;
    var pruned;
    pruned, dead := Prune(cand, mu, v);
    if dead {
      return false, cand, used, m;
    }
    UnmappedAssign(m, u, v);
    assert SearchInv(g1, g2, pruned, used + {v}, mu);
    var found, c3, u3, m3 := Dfs(g1, g2, pruned, used + {v}, mu);
    if !found {
      return false, cand, used, m;
    }
    ExtendsCompose(m, u, v, m3, cand, pruned);
    return true, c3, u3, m3;
  }

  lemma ExtendsCompose(m: Mapping, u: nat, v: nat, m3: Mapping, cand: seq<set<nat>>, cand2: seq<set<nat>>)
    requires |m| == |cand| == |cand2| && u < |m| && m[u].None? && v in cand[u]
    requires forall x :: 0 <= x < |cand| ==> cand2[x] <= cand[x]
    requires Extends(m[u := Some(v)], m3, cand2)
    ensures Extends(m, m3, cand)
  {
    var m2 := m[u := Some(v)];
    forall a | 0 <= a < |m|
      ensures if m[a].Some? then m3[a] == m[a] else m3[a].Some? && m3[a].value in cand[a]
    {
      if a != u && m[a].None? {
        assert m2[a].None?;
      }
    }
  }

  /** The multiset of (in-degree, out-degree) pairs of a graph. */
  function DegProfile(g: Dag): (r: multiset<(nat, nat)>)
    requires |g.adj| == |g.nodes| && |g.rev| == |g.nodes|
    ensures |r| == |g.nodes|
  {
    multiset(seq(|g.nodes|, u requires 0 <= u < |g.nodes| => (InDeg(g, u), OutDeg(g, u))))
  }

  /** The first node from `i` on without outgoing edges. */
  function FirstSink(g: Dag, i: nat): (r: Option<nat>)
    requires |g.adj| == |g.nodes|
    ensures r.Some? ==> i <= r.value < |g.nodes| && OutDeg(g, r.value) == 0
    ensures r.Some? ==> forall x :: i <= x < r.value ==> OutDeg(g, x) > 0
    ensures r.None? ==> forall x :: i <= x < |g.nodes| ==> OutDeg(g, x) > 0
    decreases |g.nodes| - i
  {
    if i >= |g.nodes| then None
    else if OutDeg(g, i) == 0 then Some(i)
    else FirstSink(g, i + 1)
  }

  function Keys(s: seq<nat>): set<nat> {
    set x | x in s
  }

  /** The bucket comparison: as many distinct fingerprints on each side, and
      every fingerprint of the first graph as often in the second. */
  predicate BucketsMatch(fp1: seq<nat>, fp2: seq<nat>) {
    && |Keys(fp1)| == |Keys(fp2)|
    && forall sig :: sig in Keys(fp1) ==> multiset(fp1)[sig] == multiset(fp2)[sig]
  }

  /** The bucket comparison accepts exactly when both graphs have the same
      multiset of fingerprints. */
  lemma BucketsMatchIff(fp1: seq<nat>, fp2: seq<nat>)
    ensures BucketsMatch(fp1, fp2) <==> multiset(fp1) == multiset(fp2)
  {
    if multiset(fp1) == multiset(fp2) {
      forall x ensures x in Keys(fp1) <==> x in Keys(fp2) {
        assert x in fp1 <==> x in multiset(fp1);
        assert x in fp2 <==> x in multiset(fp2);
      }
      assert Keys(fp1) == Keys(fp2);
    }
    if BucketsMatch(fp1, fp2) {
      var k1, k2 := Keys(fp1), Keys(fp2);
      forall x | x in k1 ensures x in k2 {
        assert multiset(fp1)[x] > 0;
      }
      SubsetSameSize(k1, k2);
      forall x ensures multiset(fp1)[x] == multiset(fp2)[x] {
        if x !in k1 {
          assert x !in multiset(fp1) && x !in multiset(fp2);
        }
      }
    }
  }

  lemma SubsetSameSize<T>(a: set<T>, b: set<T>)
    requires a <= b && |a| == |b|
    ensures a == b
  {
    assert |b - a| == |b| - |a|;
  }

  /** `cand[u]`: the nodes of the second graph with `u`'s fingerprint that `f`
      accepts for `u`. */
  function Candidates(g1: Dag, g2: Dag, fp1: seq<nat>, fp2: seq<nat>, f: (Node, Node) -> bool, u: nat): (r: set<nat>)
    requires u < |g1.nodes| && u < |fp1| && |fp2| == |g2.nodes|
    ensures forall v: nat :: v in r <==> v < |g2.nodes| && fp2[v] == fp1[u] && f(g1.nodes[u], g2.nodes[v])
  {
    set v: nat | v < |g2.nodes| && fp2[v] == fp1[u] && f(g1.nodes[u], g2.nodes[v])
  }

  /** The search part of `dag_isomorphic`, once the sinks and fingerprints are
      known: candidate sets by fingerprint and `f`, then the search seeded with
      the sink pair. */
  method MatchFromSinks(g1: Dag, g2: Dag, fp1: seq<nat>, fp2: seq<nat>, f: (Node, Node) -> bool, sink1: nat, sink2: nat)
    returns (ok: bool, m: Mapping)
    requires Consistent(g1) && Consistent(g2)
    requires |fp1| == |g1.nodes| == |g2.nodes| == |fp2|
    requires sink1 < |g1.nodes| && sink2 < |g2.nodes|
    ensures ok ==>
      && |m| == |g1.nodes|
      && Unmapped(m) == 0 && Injective(m) && EdgesKept(g1, g2, m)
      && (forall a :: 0 <= a < |m| ==> m[a].value < |g2.nodes| && f(g1.nodes[a], g2.nodes[m[a].value]))
      && m[sink1] == Some(sink2)
      && (forall a :: 0 <= a < |m| && a != sink1 ==> fp2[m[a].value] == fp1[a])
  {
    m := [];
    var n := |g1.nodes|;
    var cand := seq(n, u requires 0 <= u < n => Candidates(g1, g2, fp1, fp2, f, u));
    if exists u :: 0 <= u < n && cand[u] == {} {
      return false, m;
    }
    if !f(g1.nodes[sink1], g2.nodes[sink2]) {
      return false, m;
    }
    var m0: Mapping := seq(n, a requires 0 <= a < n => if a == sink1 then Some(sink2) else None);
    assert SearchInv(g1, g2, cand, {sink2}, m0);
    var found, _, _, m2 := Dfs(g1, g2, cand, {sink2}, m0);
    ok, m := found, m2;
  }

  /** `dag_isomorphic`. The missing-sink panics come from `expect`. On `true`,
      the returned mapping pairs every node of `g1` with a distinct node of
      `g2`, maps the first sink to the first sink, keeps every edge between
      distinct nodes, satisfies `f` on every pair and, away from the sinks,
      pairs nodes with equal fingerprints. */
  method DagIsomorphic(g1: Dag, g2: Dag, f: (Node, Node) -> bool, hash: Hasher)
    returns (r: Outcome<bool>, m: Mapping, fp1: seq<nat>, fp2: seq<nat>)
    requires Consistent(g1) && Consistent(g2)
    ensures |g1.nodes| != |g2.nodes| ==> r == Done(false)
    ensures |g1.nodes| == |g2.nodes| && DegProfile(g1) != DegProfile(g2) ==> r == Done(false)
    ensures r.Panic? <==>
      |g1.nodes| == |g2.nodes| && DegProfile(g1) == DegProfile(g2) && (FirstSink(g1, 0).None? || FirstSink(g2, 0).None?)
    ensures r == Done(true) ==>
      && |fp1| == |m| == |g1.nodes| == |g2.nodes| == |fp2|
      && multiset(fp1) == multiset(fp2)
      && Unmapped(m) == 0 && Injective(m) && EdgesKept(g1, g2, m)
      && (forall a :: 0 <= a < |m| ==> m[a].value < |g2.nodes| && f(g1.nodes[a], g2.nodes[m[a].value]))
      && FirstSink(g1, 0).Some? && FirstSink(g2, 0).Some?
      && m[FirstSink(g1, 0).value] == Some(FirstSink(g2, 0).value)
      && (forall a :: 0 <= a < |m| && a != FirstSink(g1, 0).value ==> fp2[m[a].value] == fp1[a])
  {
    m, fp1, fp2 := [], [], [];
    var n := |g1.nodes|;
    if n != |g2.nodes| || DegProfile(g1) != DegProfile(g2) {
      return Done(false), m, fp1, fp2;
    }
    var s1 := FirstSink(g1, 0);
    if s1.None? {
      return Panic("G1 missing sink"), m, fp1, fp2;
    }
    var s2 := FirstSink(g2, 0);
    if s2.None? {
      return Panic("G2 missing sink"), m, fp1, fp2;
    }
    var sink1, sink2 := s1.value, s2.value;
    fp1 := Fingerprints(g1, hash);
    fp2 := Fingerprints(g2, hash);
    if !BucketsMatch(fp1, fp2) {
      return Done(false), m, fp1, fp2;
    }
    BucketsMatchIff(fp1, fp2);
    var ok;
    ok, m := MatchFromSinks(g1, g2, fp1, fp2, f, sink1, sink2);
    return Done(ok), m, fp1, fp2;
  }
}
