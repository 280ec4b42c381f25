# rust-playground, modelled in Dafny

This project models the sequential core of the `rust-playground` repository in
Dafny 4.11 and proves properties of that model. Each Rust source file is one
Dafny module, or a small cluster of modules.

**Stack tracer (`src/bin/arena_stack.rs`).** This is the centre of the model.

- A `TraceContext` is an arena of span nodes with a `current` cursor. Five cursor
  operations change it: `push`, `step_in`, `pop`, `step_out` and
  `remove_and_detach`. The tree invariant `SpanTree.Wf` holds after each of them.
  Each also has a precise effect on the set of live nodes.
- A `StackTraced` future moves through the states `Initial`, then
  `Polled{node, context}`, then `Ready`. Its `poll` and `drop` decide, from the
  ambient trace context, which tree operation runs.
- The model proves these properties of the tracer:
  - a traced poll is balanced;
  - a completed future's node is popped;
  - a cancelled future's node is removed on drop;
  - fusing keeps a `Ready` future from ever being polled again;
  - the select-and-cancel step of the tracer's own test leaves nothing behind.
    The cancelled future is a traced `join_all` of two traced branches
    (`sleep_nested`). Dropping it runs its own `drop`, which removes its node,
    and then Rust's drop glue drops each branch, which removes the branch's node.
    From a fresh context the root ends as the only active node.
- The text report (`Display for TraceContext`) is modelled with elapsed times as
  a parameter.

**Secondary programs.**

- `src/bin/dag.rs`:
  - `Dag::new` keeps the two adjacency lists consistent;
  - Kahn's `topo` outputs every node of an acyclic graph exactly once, with edges
    pointing forward;
  - `fingerprints` works over an abstract hash;
  - the backtracking isomorphism search is sound. Its search state is passed
    by value, so a failed branch leaves the caller's state as it was.
- `src/bin/error_thiserror.rs`: the cleaned error chain (suffix, whitespace and
  colon trimming) and the numbered report layout.
- `src/bin/group_bitmap.rs`: `high_ranges`, the maximal runs of set bits.
- `src/bin/locked_btreemap_iter.rs`: the batched range iterator. It yields exactly
  what `BTreeMap::range` does.
- `benches/deserialize_ref.rs` and `src/bin/mut_trait.rs`: two big-endian
  decoders, each with a round-trip against an encoder.
- `src/bin/row_trait.rs`: row views, with random access agreeing with a list view.
- `src/bin/new_expr.rs`: the new `eval_new` refines the old `eval`.
- `src/bin/enum_match.rs`: `push_1` and `push_2` agree.
- `src/bin/try_trait.rs`: the `OResult` try protocol.
- `src/bin/visitor.rs`:
  - `accept` is post-order and `visit2` counts function calls;
  - `visit1` always answers 0.
- `src/bin/winnow_json.rs` and `src/bin/winnow_json/main.rs`: two JSON-subset
  grammars. They accept the same documents, build the same values, and reproduce
  the documented error columns.
- `src/bin/stacker.rs`: the recursion-depth tracker and `sum`.
- `benches/discontinuous.rs`: two key writers that produce the same bytes, and the
  key layout.

**How Rust behaviour is modelled.**

- Rust panics are a result value `Outcome.Panic`. This covers `assert!`,
  `expect`, `unreachable!`, an out-of-range `split_at` and the `u64`/`usize`
  overflow of a debug build. They are never preconditions.
- Fixed-width integers are unbounded integers with their ranges stated
  explicitly.
- Strings are sequences of characters, and byte strings are sequences of a
  `byte` subset type.

The arena of `arena_stack.rs` is a sequence of slots. A node id is a slot index,
and a new node takes the next index. A removed slot stays in the arena, marked
removed. The indextree crate's `append` (detach, then push to the back) and
`remove` (for a node without a parent or without children) are written out
with the argument checks under which the crate panics.

## Model

| member | source | states |
|---|---|---|
| SpanTree.New | src/bin/arena_stack.rs:138-157 | a fresh context is well-formed, its cursor is the root, its only live node is the root (active count 1), and its id is the counter value it was given |
| SpanTree.ActiveNodeCount | src/bin/arena_stack.rs:153-157 | the count of slots not marked removed; `SpanTree.New` pins it at 1 for a fresh context, `SpanTreeWf.PushKeepsWf` shows a push adds one and `SpanTreeWf.PopKeepsWf` that a pop removes one, and `StackTracedProps.FreshContextSelectCancel` shows it back at 1 after the select-and-cancel test |
| SpanTree.NewContextsIds | src/bin/arena_stack.rs:139-140 | the i-th context created takes the counter plus i, wrapping modulo 2^64 like the atomic `u64` counter |
| SpanTree.ContextIdsDistinct | src/bin/arena_stack.rs:139-140 | contexts created one after another have pairwise distinct ids as long as no more than 2^64 are created |
| SpanTree.NewContexts | src/bin/arena_stack.rs:137-151 | creating contexts one after another gives exactly one context per root span |
| SpanTree.NewContextsFresh | src/bin/arena_stack.rs:137-151 | every context created is a lone live root node carrying its span, with the cursor at the root |
| SpanTree.Append | src/bin/arena_stack.rs:182-184 | `append` succeeds exactly when parent and child differ, both are live, and the child is not an ancestor of the parent; otherwise it panics |
| SpanTree.Detach | src/bin/arena_stack.rs:209 | detaching leaves the node parentless with its span and removed flag unchanged, and leaves the cursor, root and id as they were |
| SpanTree.Push | src/bin/arena_stack.rs:169-174 | `push` panics exactly when the cursor is not a live node. Otherwise it returns a fresh id equal to the old arena size, the new node is a live childless child of the old cursor and the new cursor, the old cursor gains exactly that child at the end, and no other node changes |
| SpanTree.StepIn | src/bin/arena_stack.rs:181-187 | stepping into an existing child only moves the cursor; any successful `step_in` makes the node the cursor and keeps id, root and arena size |
| SpanTree.Pop | src/bin/arena_stack.rs:190-197 | `pop` succeeds exactly when the cursor has no children and has a parent. The cursor moves to the parent and the old cursor's slot becomes a removed, unlinked node with its span |
| SpanTree.StepOut | src/bin/arena_stack.rs:200-205 | `step_out` succeeds exactly when the cursor has a parent, and then only the cursor changes, to that parent |
| SpanTree.RemoveAndDetach | src/bin/arena_stack.rs:207-212 | `remove_and_detach(n)` succeeds for any id in the arena, turns `n` into a removed unlinked slot, and leaves the cursor, root and id unchanged |
| SpanTree.Remove | src/bin/arena_stack.rs:207-212 | indextree's `remove` of a node without a parent or without children keeps the arena size and the context's id, root and cursor |
| SpanTree.RemoveFacts | src/bin/arena_stack.rs:207-212 | after `remove` the node is a removed, unlinked slot with its span, its children have no parent, its parent no longer lists it, and every other slot is unchanged |
| SpanTree.AncestorOrSelfMono | src/bin/arena_stack.rs:182-184 | the ancestor test behind `append`'s panic is monotone in its bound: an ancestor found within some number of parent links is found with any larger number |
| SpanTreeWf.PushKeepsWf | src/bin/arena_stack.rs:168-174 | on a well-formed tree `push` never panics, keeps the tree well-formed, adds exactly the fresh id to the live set, and raises the active count by one |
| SpanTreeWf.StepInPanics | src/bin/arena_stack.rs:176-187 | on a well-formed tree, `step_in` panics exactly when the node is not already a child of the cursor and is the cursor, is removed, or is an ancestor of the cursor |
| SpanTreeWf.StepInKeepsWf | src/bin/arena_stack.rs:176-187 | a successful `step_in` keeps the tree well-formed and keeps the live set. The node ends up under the old cursor and under no other node, so it is moved, not duplicated. Its own children are kept |
| SpanTreeWf.StepIntoChild | src/bin/arena_stack.rs:182-186 | stepping into a child of the cursor changes nothing but the cursor, and that child has no other parent |
| SpanTreeWf.AppendKeepsWf | src/bin/arena_stack.rs:184 | re-parenting a live node under a live parent it is not yet a child of gives a well-formed tree once the node is the cursor. It keeps the live set and the node's own children, and leaves the node a child of exactly the new parent |
| SpanTreeWf.DetachUnlinks | src/bin/arena_stack.rs:209 | after detaching `n` no children list mentions `n`, and no children list holds a duplicate |
| SpanTreeWf.PopKeepsWf | src/bin/arena_stack.rs:189-197 | a successful `pop` keeps the tree well-formed, removes exactly the old cursor from the live set, lowers the active count by exactly one, and unlinks the old cursor from its parent |
| SpanTreeWf.StepOutKeepsWf | src/bin/arena_stack.rs:199-205 | a successful `step_out` keeps the tree well-formed and the live set unchanged |
| SpanTreeWf.RemoveAndDetachKeepsWf | src/bin/arena_stack.rs:207-212 | removing and detaching a node other than the cursor keeps the tree well-formed and removes exactly that node from the live set. Its former children stay live and become parentless |
| SpanTreeWf.RemoveAndDetachLive | src/bin/arena_stack.rs:207-212 | on any arena, well-formed or not, `remove_and_detach` of a valid id takes exactly that node out of the live set |
| SpanTreeFmt.StrLeTotal | src/bin/arena_stack.rs:124 | the span ordering used for sorting children is total |
| SpanTreeFmt.StrLeTrans | src/bin/arena_stack.rs:124 | the span ordering used for sorting children is transitive |
| SpanTreeFmt.InsertBySpan | src/bin/arena_stack.rs:122-125 | one insertion step of the sort keeps the sequence ordered by span and adds exactly the inserted node |
| SpanTreeFmt.SortBySpan | src/bin/arena_stack.rs:122-125 | `sorted_by` on span text returns a permutation of the children that is ordered by span |
| SpanTreeFmt.Marker | src/bin/arena_stack.rs:113-117 | the `!!! ` marker appears exactly for a non-root node running for at least one second, and is empty otherwise |
| SpanTreeFmt.RenderNode | src/bin/arena_stack.rs:99-130 | a rendered subtree starts with the node's own line, every line is indented two spaces per level of depth, and every line after the first is indented one level deeper |
| SpanTreeFmt.RenderAll | src/bin/arena_stack.rs:122-127 | the children's subtrees are all indented at least at the children's depth, with at least one line per child |
| SpanTreeFmt.Report | src/bin/arena_stack.rs:132 | the report of a non-empty arena starts with the root's line at depth 0 |
| StackTraced.Untraced | src/bin/arena_stack.rs:285 | an untraced poll leaves the state as it was and passes the inner future's context and readiness through unchanged |
| StackTraced.Enter | src/bin/arena_stack.rs:271-298 | entering a span records the future's node and the context id in a `Polled` state, and makes that node the cursor |
| StackTraced.Exit | src/bin/arena_stack.rs:317-333 | leaving a span returns the cursor to its old place. A ready future's state becomes `Ready` while a pending one's is kept, and the readiness passes through |
| StackTraced.Traced | src/bin/arena_stack.rs:271-335 | a traced poll that does not panic returns the cursor to where it was, and ends in `Ready` exactly when the inner future completed |
| StackTraced.PollAsWritten | src/bin/arena_stack.rs:264-336 | `poll` exactly as written panics whenever there is no ambient context, because line 269 reads the cursor through the panicking accessor first |
| StackTraced.Poll | src/bin/arena_stack.rs:264-336 | corrected `poll`. A `Ready` state panics as unreachable. With no context, or with a `Polled` state from a different context, the inner future runs untraced and the state is kept. A `Ready` result only comes with readiness |
| StackTraced.Drop | src/bin/arena_stack.rs:339-366 | `drop` changes the context only for a `Polled` future in the context it was first polled in. There it is exactly `remove_and_detach` of the future's node, and it panics only when that node is outside the arena |
| StackTraced.StackTrace | src/bin/arena_stack.rs:373-375 | `stack_trace` builds a fused, active traced future in its `Initial` state with the given span |
| StackTraced.FusePoll | src/bin/arena_stack.rs:373-375 | a terminated fused future does nothing and reports pending. An active one terminates exactly when its poll completes, and no fused state ever holds `Ready` |
| StackTraced.FuseDrop | src/bin/arena_stack.rs:373-375 | dropping a terminated fused future leaves the context alone |
| StackTraced.DropHeld | src/bin/arena_stack.rs:339-366 | dropping a traced future runs its own `drop` and then drops the traced futures its inner future owns. Outside any context nothing changes; inside one, a drop that does not panic keeps the cursor, the context id and the arena size |
| StackTraced.DropAll | src/bin/arena_stack.rs:339-366 | dropping owned traced futures in order, stopping at a panic, has the same guarantees as dropping one |
| StackTracedProps.NodeOf | src/bin/arena_stack.rs:271-298 | the node a traced poll works on is the recorded node when polled before, and otherwise the fresh id, which is not live |
| StackTracedProps.TracedPollBalanced | src/bin/arena_stack.rs:314-335 | in the matching context, with an inner future that is well-behaved in the context it is handed, a poll never panics. The inner future sees the future's node as the cursor, and afterwards the cursor is back where it was and the tree is well-formed. On ready the node is removed and the state is `Ready`. On pending the node stays a live child of the cursor, recorded in `Polled` |
| StackTracedProps.LeafReadyCleansUp | src/bin/arena_stack.rs:317-324 | a leaf future completing on its first poll leaves the live set as it found it |
| StackTracedProps.LeafCancelCleansUp | src/bin/arena_stack.rs:340-353 | a leaf future polled once, pending, then dropped, leaves the live set as it found it. The poll adds its node and the drop removes exactly that node |
| StackTracedProps.FuseRunNeverReady | src/bin/arena_stack.rs:311 | through any run of polls of a fused traced future, no state reached is an active `Ready`, so the `unreachable!` arm is never taken |
| StackTracedProps.LeafPolledReady | src/bin/arena_stack.rs:288-298 | a leaf future polled earlier in this context, whose node is a childless child of the cursor, steps back in and completes, and its node leaves the live set |
| StackTracedProps.LeafPendingFacts | src/bin/arena_stack.rs:272-287 | a first pending poll leaves the fresh node as the last child of the cursor with no children, adds it to the live set, and changes no other node |
| StackTracedProps.LeafPendingShape | src/bin/arena_stack.rs:272-287 | in any context whose cursor is live, a leaf's first pending poll leaves its fresh node as the cursor's last, childless child, with the future's span, and changes no other node |
| StackTracedProps.PollBranchesShape | src/bin/arena_stack.rs:459-464 | the first poll of `sleep_nested`'s pending branches pushes one node per branch under the cursor, in order, with fresh ids, and changes no other node |
| StackTracedProps.PollBranchesFacts | src/bin/arena_stack.rs:459-464 | on a well-formed tree those polls keep it well-formed and add exactly the branches' ids to the live set |
| StackTracedProps.JoinPendingKeeps | src/bin/arena_stack.rs:459-464 | the inner future of `sleep_nested`, on its first poll, is well-behaved in any context: the tree stays well-formed and the cursor and its parent stay in place |
| StackTracedProps.JoinFirstPollFacts | src/bin/arena_stack.rs:459-464 | the first poll of a traced `sleep_nested` pushes its node as the cursor's last child, pushes the branches under that node in order, steps back out, keeps the tree well-formed, and adds exactly those ids to the live set |
| StackTracedProps.DropBranchesStep | src/bin/arena_stack.rs:350-352 | dropping the first pending branch is `remove_and_detach` of its node; the other branches are then dropped in the resulting context |
| StackTracedProps.DropBranchesCleansUp | src/bin/arena_stack.rs:339-366 | dropping pending branches, each in the context it was polled in, raises no panic, keeps the cursor and the id, and removes exactly the branches' nodes from the live set |
| StackTracedProps.DropBranchesKeepsWf | src/bin/arena_stack.rs:339-366 | when none of the branches' nodes is the cursor, dropping them keeps the tree well-formed |
| StackTracedProps.DropJoinStep | src/bin/arena_stack.rs:350-352 | cancelling the pending nested future first runs its own `drop`, which is `remove_and_detach` of its node, and then drops its branches in the resulting context |
| StackTracedProps.DropJoinCleansUp | src/bin/arena_stack.rs:339-366 | cancelling the pending nested future with its branches raises no panic, keeps the cursor and the id, and removes exactly its node and the branch nodes from the live set |
| StackTracedProps.DropJoinKeepsWf | src/bin/arena_stack.rs:339-366 | cancelling the nested future elsewhere than at the cursor keeps the tree well-formed |
| StackTracedProps.PendingPair | src/bin/arena_stack.rs:512-519 | the first half of the select-and-cancel step: the leaf and then the nested future are polled once and stay pending, the leaf's node is a childless child of the cursor, and the nested node and its branches take the next ids |
| StackTracedProps.SelectCancelCleansUp | src/bin/arena_stack.rs:512-519 | the select-and-cancel step of the test, in any well-formed context: a traced leaf and a traced `join_all` of traced leaves (`sleep_nested`, any number of branches) are each polled once and stay pending, the leaf completes, and the nested future is dropped together with its branches. The step raises no panic, the tree stays well-formed, and the cursor and the live set end as they began |
| StackTracedProps.ReadyThenDrop | src/bin/arena_stack.rs:512-519 | the second half of that step: completing the leaf and then dropping the nested future with its branches raises no panic, keeps the tree well-formed, and removes exactly the leaf's node, the nested future's node and the branch nodes |
| StackTracedProps.FreshContextSelectCancel | src/bin/arena_stack.rs:549-550 | starting from a fresh context, the select-and-cancel step with the nested future as the loser raises no panic and leaves the root as the only live node, so the active node count is 1 |
| DagGraph.TargetsCount | src/bin/dag.rs:47-50 | `u -> v` is in `u`'s child list, and `u` is in `v`'s parent list, exactly as often as the edge occurs in the edge list |
| DagGraph.New | src/bin/dag.rs:43-52 | `Dag::new` succeeds exactly when every edge endpoint is a node, and its child and parent lists are the edge targets and sources, consistent with each other |
| DagGraph.TargetsInRange | src/bin/dag.rs:47-50 | with in-range edges every child and parent id is a node |
| DagGraph.DegreeSums | src/bin/dag.rs:56-61 | the out-degrees and the in-degrees both sum to the number of edges |
| DagGraph.InDeg | src/bin/dag.rs:56-58 | the in-degree of a node is the length of its reverse adjacency list; `DagGraph.DegreeSums` shows the in-degrees of a built graph sum to its edge count |
| DagGraph.OutDeg | src/bin/dag.rs:59-61 | the out-degree of a node is the length of its adjacency list; `DagGraph.DegreeSums` shows the out-degrees of a built graph sum to its edge count |
| DagTopo.UnprocZero | src/bin/dag.rs:76-80 | a node's remaining in-degree is zero exactly when no unprocessed node has an edge to it |
| DagTopo.Pigeonhole | src/bin/dag.rs:70-84 | a duplicate-free sequence of node ids has at most n elements, and exactly n when it holds every node |
| DagTopo.OrderRanks | src/bin/dag.rs:70-84 | a complete order in which every edge goes forward witnesses that the graph is acyclic |
| DagTopo.Topo | src/bin/dag.rs:70-84 | Kahn's sort outputs each node at most once and every edge forward, and it outputs all n nodes exactly when the graph is acyclic |
| DagTopo.Relax | src/bin/dag.rs:76-81 | after a node is output, the inner loop restores Kahn's invariant: each remaining in-degree counts exactly the in-edges from unprocessed nodes, a node is output or queued exactly when its count is zero, nothing is queued twice, and the queue's earlier contents are kept |
| DagTopo.VisitKeepsForward | src/bin/dag.rs:74-75 | outputting a node all of whose in-edges are processed keeps every edge pointing forward |
| DagFingerprint.ChildFps | src/bin/dag.rs:103-104 | the sorted children's fingerprints, as a multiset, have one entry per child |
| DagFingerprint.Fingerprints | src/bin/dag.rs:99-108 | on an acyclic graph, every node's fingerprint is the hash of its kind, its degrees and its children's fingerprints, because children are hashed before parents |
| DagIso.MinUnmapped | src/bin/dag.rs:191-197 | the chosen node is unmapped, has the fewest candidates of all unmapped nodes, and is the first such node |
| DagIso.AssignKeepsInv | src/bin/dag.rs:205-222 | adding an edge-consistent pair with an unused target keeps the mapping injective and edge-preserving |
| DagIso.Prune | src/bin/dag.rs:223-232 | pruning removes `v` from the candidates of unmapped nodes only, and reports `dead` exactly when one of them is left empty |
| DagIso.Dfs | src/bin/dag.rs:180-243 | on success the mapping is total, injective and edge-preserving and extends the one it started from within the candidates; on failure the candidates, used set and mapping are exactly as before |
| DagIso.TryPair | src/bin/dag.rs:220-240 | one tentative choice, on success, yields a total, injective, edge-preserving mapping that extends the current one |
| DagIso.DegProfile | src/bin/dag.rs:122-130 | the degree profile is a multiset with one (in, out) entry per node |
| DagIso.FirstSink | src/bin/dag.rs:136-141 | the sink found is the first node without outgoing edges, or none exists |
| DagIso.BucketsMatchIff | src/bin/dag.rs:146-161 | the bucket comparison accepts exactly when the two fingerprint multisets are equal |
| DagIso.Candidates | src/bin/dag.rs:164-172 | a node's candidates are exactly the nodes of the other graph with the same fingerprint on which `f` holds |
| DagIso.MatchFromSinks | src/bin/dag.rs:163-252 | a successful search gives a total, injective, edge-preserving mapping that maps sink to sink, satisfies `f` on every pair, and pairs equal fingerprints |
| DagIso.DagIsomorphic | src/bin/dag.rs:113-260 | false for different node counts or degree profiles, and a panic exactly when a graph has no sink. On `true`, the fingerprint multisets agree and the mapping is a total, injective, edge-preserving, `f`-respecting map of sink to sink |
| ErrorChain.TrimEndMatches | src/bin/error_thiserror.rs:117-118 | what is cut off is whole copies of the pattern, and for a non-empty pattern what is kept no longer ends with it |
| ErrorChain.TrimEnd | src/bin/error_thiserror.rs:119 | exactly the trailing whitespace is cut off |
| ErrorChain.TrimEndChar | src/bin/error_thiserror.rs:120 | exactly the trailing colons are cut off |
| ErrorChain.Clean | src/bin/error_thiserror.rs:117-123 | the cleaned text is a prefix of the original that does not end in a colon |
| ErrorChain.CleanShape | src/bin/error_thiserror.rs:65-92 | cleaning strips, from the end, copies of the source's text, then whitespace, then colons, each stopping at the first character it may not remove |
| ErrorChain.CleanedChain | src/bin/error_thiserror.rs:107-134 | one item per error, outermost first. Each text is a prefix of the display text, flagged cleaned exactly when it got shorter. Every other text is the cleaning of its error against the next one's text, and the innermost error is kept unchanged and unflagged |
| ErrorChain.CleanStep | src/bin/error_thiserror.rs:110-133 | the item for one error is a prefix of its text, flagged exactly when it is shorter |
| ErrorChain.MessagesSpec | src/bin/error_thiserror.rs:26-38 | only non-empty texts become messages, and cleaned ones carry ` *` |
| ErrorChain.DecimalRoundTrip | src/bin/error_thiserror.rs:58 | the decimal rendering of a number reads back as that number |
| ErrorChain.Pad3 | src/bin/error_thiserror.rs:58 | `{:3}` right-aligns the digits in a field of at least three characters, padded with spaces |
| ErrorChain.ReportLines | src/bin/error_thiserror.rs:42-59 | no lines without messages. Otherwise the head, then for two or more messages a blank line and the singular header for exactly two or the plural one for more, then the causes numbered from 1 |
| ErrorChain.Report | src/bin/error_thiserror.rs:23-62 | the report is empty exactly when every cleaned text is empty |
| ErrorChain.DocumentedExample | src/bin/error_thiserror.rs:79-92 | `Outer: Inner` over `Inner` cleans to `Outer`, flagged, and `Inner` stays as it is |
| GroupBitmap.StepKeeps | src/bin/group_bitmap.rs:24-36 | one step of the scan keeps the emitted ranges maximal and ordered and keeps every set bit seen so far covered |
| GroupBitmap.CloseKeeps | src/bin/group_bitmap.rs:31-34 | closing the open run at a clear bit, or at the appended `false`, emits a valid maximal range |
| GroupBitmap.HighRanges | src/bin/group_bitmap.rs:17-37 | every range is a non-empty maximal run of set bits, the ranges are strictly increasing and disjoint, and every set bit lies in one of them |
| BTreeIter.WithinMembers | src/bin/locked_btreemap_iter.rs:46 | a range query keeps exactly the entries whose keys the bounds admit |
| BTreeIter.Range | src/bin/locked_btreemap_iter.rs:46 | `BTreeMap::range` panics exactly when both bounds exclude the same key or the start key exceeds the end key, and otherwise returns the entries within the bounds |
| BTreeIter.New | src/bin/locked_btreemap_iter.rs:23-29 | a new iterator has an empty batch and the given bounds |
| BTreeIter.Refill | src/bin/locked_btreemap_iter.rs:37-55 | `refill` panics on a non-empty batch. The batch is the first at most 256 entries of the remaining range. A non-empty batch moves the lower bound to just past its last key, and an empty one leaves it |
| BTreeIter.Next | src/bin/locked_btreemap_iter.rs:65-73 | with a non-empty batch, `next` yields its head and keeps the rest |
| BTreeIter.NextYields | src/bin/locked_btreemap_iter.rs:65-73 | on a valid range, `next` never panics. It yields nothing exactly when nothing remains, and otherwise the head of what remains, keeping the range valid |
| BTreeIter.RefillKeeps | src/bin/locked_btreemap_iter.rs:39-55 | a refill on a valid range loses and duplicates nothing of what remains |
| BTreeIter.CollectRemaining | src/bin/locked_btreemap_iter.rs:107 | collecting from a valid state yields exactly what remains |
| BTreeIter.CollectMatchesRange | src/bin/locked_btreemap_iter.rs:91-114 | for every pair of bounds, collecting the iterator equals the direct range query, including its panics |
| BTreeIter.Collect | src/bin/locked_btreemap_iter.rs:107 | `collect_vec` drives `next` to exhaustion; `BTreeIter.CollectRemaining` shows it yields exactly what remains and `BTreeIter.CollectMatchesRange` that it equals the direct range query, panics included |
| BTreeIter.WithinSorted | src/bin/locked_btreemap_iter.rs:65-72 | the entries of a range come out with strictly increasing keys |
| RowDecode.DeserializeShape | benches/deserialize_ref.rs:31-56 | a decoded row has one scalar per schema entry, of that entry's type, in schema order, and every integer fits an `i64` |
| RowDecode.DeserializeExtend | benches/deserialize_ref.rs:31-56 | bytes after the last field change nothing |
| RowDecode.DecodeInt | benches/deserialize_ref.rs:35-40 | an `Int64` field consumes exactly its 8 big-endian two's-complement bytes and reads back as the value |
| RowDecode.DecodeStr | benches/deserialize_ref.rs:42-51 | a string consumes an 8-byte big-endian length `L`, then exactly `L` bytes |
| RowDecode.DeserializeEncode | benches/deserialize_ref.rs:31-56 | decoding the encoding of any encodable row, whatever follows it, gives the row back |
| RowDecode.RowOfFour | benches/deserialize_ref.rs:60-77 | the test's buffer shape (two integers, a length-prefixed string, an integer) decodes to those four values |
| RowDecode.TestRow | benches/deserialize_ref.rs:58-80 | the test's buffer decodes to 233, 114514, "hello, world" and 1919810 |
| RowDecode.Deserialize | benches/deserialize_ref.rs:31-56 | a successful `deserialize` yields one value per schema entry |
| NestedDecode.GetInt | src/bin/mut_trait.rs:38-52 | `get_i16`/`get_i32` succeed exactly when enough bytes remain, advance the slice past them, and return a value in the signed range |
| NestedDecode.GetIntBytes | src/bin/mut_trait.rs:38-52 | reading the big-endian bytes of a signed value gives it back |
| NestedDecode.DeSpec | src/bin/mut_trait.rs:30-36 | `de` succeeds exactly when the buffer holds the sum of the leaf widths, consumes exactly that, and returns a value whose shape mirrors the type |
| NestedDecode.DeAllSpec | src/bin/mut_trait.rs:34 | struct fields are decoded left to right from the one shared buffer, consuming the sum of their widths |
| NestedDecode.DeEncode | src/bin/mut_trait.rs:30-36 | decoding the bytes of a value, whatever follows them, gives the value back |
| NestedDecode.DeAllEncode | src/bin/mut_trait.rs:34 | decoding the concatenated bytes of a list of values gives the list back |
| NestedDecode.De | src/bin/mut_trait.rs:30-36 | `de` never hands back more bytes than it was given |
| NestedDecode.DeAll | src/bin/mut_trait.rs:34 | decoding a struct's fields yields one value per field type and never hands back more bytes than it was given |
| RowTrait.ToRef | src/bin/row_trait.rs:8-13 | `to_ref` keeps the variant |
| RowTrait.ToRefRoundTrip | src/bin/row_trait.rs:7-14 | `to_ref` keeps variant and contents: the owned datum behind the reference is the original |
| RowTrait.View | src/bin/row_trait.rs:47-105 | the list view of a readable row has the row's length |
| RowTrait.AtMatchesView | src/bin/row_trait.rs:47-105 | random access agrees with the list view at every position below the length, and past the end a row that is not a concatenation panics |
| RowTrait.AtPastEnd | src/bin/row_trait.rs:80-91 | past the end, every row panics, a concatenation included |
| RowTrait.Len | src/bin/row_trait.rs:39-102 | each row kind's `len`, a concatenation adding its parts and a map row counting its indices; `RowTrait.View` has exactly this length |
| RowTrait.At | src/bin/row_trait.rs:36-101 | each row kind's `datum_ref_at`; `RowTrait.AtMatchesView` shows it reads the list view below `Len` and `RowTrait.AtPastEnd` that it panics at or past `Len` |
| RowTrait.DemoRow | src/bin/row_trait.rs:130-149 | the demo's last row is readable and reads `hello`, `world`, `[4, 5, 6]`, `wave` |
| NewExpr.Cardinality | src/bin/new_expr.rs:19-21 | a chunk's cardinality is the length of its first array, and an empty chunk panics |
| NewExpr.IntoIter | src/bin/new_expr.rs:30-38 | a scalar yields exactly `cardinality` copies; an array yields its elements when its length matches and panics otherwise |
| NewExpr.ZipWith | src/bin/new_expr.rs:68-73 | element-wise application stops at the shorter array |
| NewExpr.BinaryNew | src/bin/new_expr.rs:83-91 | two scalars give the scalar `func(l, r)`; otherwise an array of length `cardinality` whose element `k` is `func` of the two operands' `k`-th rows |
| NewExpr.EvalNewRefinesEval | src/bin/new_expr.rs:43-92 | on a non-empty chunk whose arrays all have its cardinality, the new evaluation, broadcast as the default `eval` does, equals the old one |
| NewExpr.EmptyChunkDiffers | src/bin/new_expr.rs:65-91 | on an empty chunk the new binary evaluation panics, while the old one zips |
| NewExpr.Eval | src/bin/new_expr.rs:43-75 | the old `eval` succeeds on any non-empty chunk, and on an expression whose arrays have one element per row it returns one element per row |
| NewExpr.EvalNew | src/bin/new_expr.rs:50-91 | on a non-empty chunk and such an expression, `eval_new` succeeds, and an array result has one element per row |
| NewExpr.Broadcast | src/bin/new_expr.rs:43-48 | the default `eval` turns a scalar into one copy per row and keeps an array, agreeing with `into_iter` wherever that succeeds |
| EnumMatch.Get | src/bin/enum_match.rs:16-27 | an element of an array is a scalar of the array's type |
| EnumMatch.Push1 | src/bin/enum_match.rs:31-74 | `push_1` succeeds exactly when the tags match and panics with "Mismatched types" otherwise. On success the tag is kept, the length grows by one, the earlier elements are unchanged and the last is the pushed scalar |
| EnumMatch.PushesAgree | src/bin/enum_match.rs:77-91 | `push_2` equals `push_1` on every array and scalar |
| EnumMatch.PushKeepsValid | src/bin/enum_match.rs:31-74 | a successful push keeps every payload within its type's range |
| EnumMatch.MainPush | src/bin/enum_match.rs:94-99 | the program's push of `1i32` onto an empty `I32` array gives `[1]` with both versions |
| EnumMatch.Push2 | src/bin/enum_match.rs:77-91 | `push_2` succeeds exactly when the scalar's variant matches the array's, and otherwise panics with the mismatch message. On success it keeps the variant, appends the scalar as the last element, and leaves the earlier elements unchanged |
| TryTrait.FromOutput | src/bin/try_trait.rs:79-81 | `from_output` wraps the value in `Ok` |
| TryTrait.Branch | src/bin/try_trait.rs:83-89 | `branch` continues exactly on `Ok`, with its value |
| TryTrait.FromNone | src/bin/try_trait.rs:45-51 | `?` on `None` makes the rule not applicable |
| TryTrait.FromErr | src/bin/try_trait.rs:55-61 | `?` on `Err(e)` gives `Err(e)` |
| TryTrait.FromResidual | src/bin/try_trait.rs:64-72 | converting a residual never gives `Ok` |
| TryTrait.BranchFromOutput | src/bin/try_trait.rs:79-85 | `branch(from_output(x))` continues with `x` |
| TryTrait.BranchRoundTrip | src/bin/try_trait.rs:64-89 | `from_residual` of a `branch` residual rebuilds the original non-`Ok` result, and a continue rebuilds the `Ok` |
| TryTrait.QuestionPropagates | src/bin/try_trait.rs:83-89 | `?` continues exactly on `Ok` and propagates `NotApplicable` and `Err(e)` unchanged |
| TryTrait.Optimize | src/bin/try_trait.rs:92-116 | `optimize` returns the plan exactly when it is an interesting project with no errors. It is not applicable exactly when there is no project or the project is uninteresting, and is an error otherwise |
| TryTrait.Question | src/bin/try_trait.rs:64-89 | the `?` operator on an `OResult` continues exactly on `Ok`, with its value. Otherwise it returns `NotApplicable` for `NotApplicable` and the same error for `Err` |
| Visitor.NumAppend | src/bin/visitor.rs:45-75 | counting hook calls distributes over concatenated walks |
| Visitor.AcceptCounts | src/bin/visitor.rs:93-109 | `accept` calls `visit_function_call` once per function-call node and `visit_expression` once per node |
| Visitor.AcceptAllCounts | src/bin/visitor.rs:61-64 | accepting the inputs counts their function calls and their nodes |
| Visitor.PostOrderAppend | src/bin/visitor.rs:61-67 | two post-order walks, one after the other, form a post-order walk |
| Visitor.AcceptPostOrder | src/bin/visitor.rs:49-74 | `accept` is post-order: each node's `visit_expression` comes right after its whole subtree's walk |
| Visitor.AcceptAllPostOrder | src/bin/visitor.rs:61-67 | all inputs are accepted post-order before `visit_function_call` runs |
| Visitor.Visit1Zero | src/bin/visitor.rs:99-103 | `visit1` returns 0 on every tree, so it agrees with `visit2` exactly on trees without function calls |
| Visitor.Visit1FunctionCallCountsOne | src/bin/visitor.rs:82-91 | the overriding `visit_function_call`, called directly, counts its own node but none below it |
| Visitor.Visit1InputsKeep | src/bin/visitor.rs:22-28 | visiting inputs through the default `visit_expression` never changes the count |
| Visitor.Accept | src/bin/visitor.rs:49-74 | every walk calls at least one other hook and ends with `visit_expression` on the node it started at |
| Visitor.AcceptCall | src/bin/visitor.rs:61-67 | a function call's walk is at least two events per input plus one, and ends with `visit_function_call` on the node; `Visitor.AcceptCounts` and `Visitor.AcceptAllPostOrder` pin its counts and order |
| Visitor.AcceptAll | src/bin/visitor.rs:62-64 | the inputs' walks in order, at least two events per input; `Visitor.AcceptAllPostOrder` shows every input's walk is post-order and ends at that input |
| Visitor.Visit2 | src/bin/visitor.rs:105-109 | `visit2` returns the number of function-call nodes in the tree |
| Visitor.Visit1 | src/bin/visitor.rs:99-103 | `visit1` returns 0, because the default `visit_expression` never dispatches on the node |
| JsonCommon.Ws | src/bin/winnow_json.rs:69-73 | `ws` skips the longest run of space, tab, CR and LF |
| JsonCommon.Unescape | src/bin/winnow_json.rs:37-43 | an escape is valid exactly for `"`, `\`, `/` and `n` |
| JsonCommon.EscapeChar | src/bin/winnow_json.rs:37-45 | the reference encoder writes a character plainly unless it needs a backslash, and every escape it writes is one the grammar accepts |
| JsonCommon.EscapeAllPlain | src/bin/winnow_json.rs:45 | a string with nothing to escape is written as it is |
| WinnowJson.Char | src/bin/winnow_json.rs:32-48 | `char` accepts a non-quote character, or a backslash followed by a valid escape, decoding it. It backtracks at the end of input or at `"`, and an invalid escape is a cut at the escaped character |
| WinnowJson.Chars | src/bin/winnow_json.rs:58-61 | the characters stop at the end of input or at a quote, or fail with a cut right after a backslash |
| WinnowJson.StringLit | src/bin/winnow_json.rs:50-67 | a string is a quote, characters and a quote; it backtracks exactly when no quote opens it |
| WinnowJson.KeyValue | src/bin/winnow_json.rs:75-82 | a member that does not start with a quote backtracks in place; once a key starts, failure is a cut |
| WinnowJson.Element | src/bin/winnow_json.rs:85 | a member between whitespace backtracks exactly where the whitespace ends and no quote follows |
| WinnowJson.Members | src/bin/winnow_json.rs:85 | the member list never backtracks and yields only string or object fields |
| WinnowJson.ObjectLit | src/bin/winnow_json.rs:84-86 | an object yields only string or object fields |
| WinnowJson.Value | src/bin/winnow_json.rs:88-92 | a value is only a string or an object, at every depth |
| WinnowJson.Doc | src/bin/winnow_json.rs:94-96 | a parsed document consumes input and holds only strings and objects |
| WinnowJson.Parse | src/bin/winnow_json.rs:98-100 | a parsed document contains only strings and objects, and an error position lies within the input |
| WinnowJson.MoreMembers | src/bin/winnow_json.rs:85 | the rest of a member list after the first member never backtracks. On success it moves forward and keeps every field value a string or an object; a `cut_err` failure lies after the separator |
| WinnowJson.CharOfEscape | src/bin/winnow_json.rs:32-48 | one encoded character reads back as itself |
| WinnowJson.CharsOfEscaped | src/bin/winnow_json.rs:58-61 | an encoded string's characters, up to a closing quote, read back as the string |
| WinnowJson.QuoteRoundTrip | src/bin/winnow_json.rs:50-67 | a quoted, escaped string reads back as itself |
| WinnowJsonPlain.Char | src/bin/winnow_json/main.rs:30-46 | the same characters as the other grammar are accepted, but every failure backtracks, after the backslash for a bad escape |
| WinnowJsonPlain.Chars | src/bin/winnow_json/main.rs:51-54 | the characters never fail, and stop at the end, at a quote or at a bad backslash |
| WinnowJsonPlain.StringLit | src/bin/winnow_json/main.rs:48-58 | a string is a quote, characters and a quote, with no cut |
| WinnowJsonPlain.KeyValue | src/bin/winnow_json/main.rs:66-68 | a member never cuts |
| WinnowJsonPlain.Element | src/bin/winnow_json/main.rs:71 | a member between whitespace never cuts |
| WinnowJsonPlain.Members | src/bin/winnow_json/main.rs:71 | the member list never fails |
| WinnowJsonPlain.ObjectLit | src/bin/winnow_json/main.rs:70-72 | an object never cuts and yields only string or object fields |
| WinnowJsonPlain.Value | src/bin/winnow_json/main.rs:74-76 | a value is only a string or an object, and never cuts |
| WinnowJsonPlain.Doc | src/bin/winnow_json/main.rs:78-80 | a parsed document consumes input, holds only strings and objects, and never cuts |
| WinnowJsonPlain.Parse | src/bin/winnow_json/main.rs:82-84 | a parsed document contains only strings and objects |
| WinnowJsonPlain.MoreMembers | src/bin/winnow_json/main.rs:71 | without `cut_err`, the rest of a member list always succeeds, moves forward, and keeps every field value a string or an object |
| WinnowJsonPlain.CharOfEscape | src/bin/winnow_json/main.rs:30-46 | one encoded character reads back as itself |
| WinnowJsonPlain.CharsOfEscaped | src/bin/winnow_json/main.rs:51-54 | an encoded string's characters read back as the string |
| WinnowJsonPlain.QuoteRoundTrip | src/bin/winnow_json/main.rs:48-58 | a quoted, escaped string reads back as itself |
| JsonAgree.CharAgrees | src/bin/winnow_json/main.rs:30-46 | the two `char` parsers accept the same characters with the same results |
| JsonAgree.CharsAgree | src/bin/winnow_json/main.rs:51-54 | where the cut grammar's characters succeed the plain ones give the same, and where it cuts the plain ones stop at the backslash |
| JsonAgree.StringAgrees | src/bin/winnow_json/main.rs:48-58 | the two string parsers succeed on the same inputs with the same results |
| JsonAgree.KeyValueAgrees | src/bin/winnow_json/main.rs:66-68 | the two member parsers succeed on the same inputs with the same results |
| JsonAgree.MembersAgree | src/bin/winnow_json/main.rs:71 | where the cut grammar's members succeed the plain ones give the same, and where it cuts the plain ones stop before a non-`}` |
| JsonAgree.ObjectAgrees | src/bin/winnow_json/main.rs:70-72 | the two object parsers succeed on the same inputs with the same results |
| JsonAgree.ValueAgrees | src/bin/winnow_json/main.rs:74-76 | the two value parsers succeed on the same inputs with the same results |
| JsonAgree.DocAgrees | src/bin/winnow_json/main.rs:78-80 | the two document parsers succeed on the same inputs with the same results |
| JsonAgree.ParseAgrees | src/bin/winnow_json/main.rs:82-84 | a document parses under one grammar exactly when it parses under the other, to the same value, and both report the same error unless the cut grammar cut |
| JsonExamples.HelloExample | src/bin/winnow_json.rs:111-116 | `"hello"` parses to the string `hello` |
| JsonExamples.OneFieldExample | src/bin/winnow_json.rs:118-123 | `{ "abc": "def" }` parses to an object with one string field |
| JsonExamples.NestedExample | src/bin/winnow_json.rs:125-130 | the nested object of the test parses to the nested value |
| JsonExamples.BareValueExample | src/bin/winnow_json.rs:132-142 | `{ "abc": shit }`, with the tests' margins, fails at column 18 with cuts and at column 10 in the grammar without them |
| JsonExamples.DoubleQuoteExample | src/bin/winnow_json.rs:144-154 | `{ "abc"": shit }` fails at column 16 |
| JsonExamples.BareKeyExample | src/bin/winnow_json.rs:156-166 | `{ abc }` fails at column 10 |
| JsonExamples.BadEscapeExample | src/bin/winnow_json.rs:168-178 | `"\a"` fails at column 11 |
| JsonExamples.PlainHello | src/bin/winnow_json/main.rs:95-100 | the plain grammar parses `"hello"` to the string `hello` |
| JsonExamples.PlainOneField | src/bin/winnow_json/main.rs:102-107 | the plain grammar parses `{ "abc": "def" }` to a one-field object |
| JsonExamples.PlainNested | src/bin/winnow_json/main.rs:109-114 | the plain grammar parses the nested object to the nested value |
| Stacker.New | src/bin/stacker.rs:14-18 | a new tracker has depth 0 |
| Stacker.Enter | src/bin/stacker.rs:32-35 | the guard's creation raises the depth by one |
| Stacker.Exit | src/bin/stacker.rs:38-42 | the guard's drop lowers a positive depth by one, and a zero depth panics on `usize` underflow |
| Stacker.ExitAfterEnter | src/bin/stacker.rs:26-46 | a guard dropped after creation restores the depth |
| Stacker.SumSpec | src/bin/stacker.rs:108-119 | `sum(x)` is x(x+1)/2 exactly when that fits a `u64`, and panics on add overflow otherwise. The closure at level `i` sees depth one more than the caller's plus `i`, and the tracker ends as it began |
| Stacker.Sum | src/bin/stacker.rs:108-119 | after `sum` the tracker's depth is back where it was, one depth is recorded per level starting one below the caller, and any value returned fits in a `u64` |
| Stacker.MainSum | src/bin/stacker.rs:121-123 | the program's `sum(1919810)` from a fresh tracker returns 1842836177955 |
| Stacker.MainDepth | src/bin/stacker.rs:20-23 | the outermost closure of that call sees depth 1 |
| Discontinuous.EpochIsBigEndian666 | benches/discontinuous.rs:15 | the epoch constant is 666 as 8 big-endian bytes |
| Discontinuous.Contents | benches/discontinuous.rs:20-38 | a buffer's bytes, in reading order, number exactly its remaining count |
| Discontinuous.CopyToBytes | benches/discontinuous.rs:36 | `copy_to_bytes(n)` succeeds exactly when `n` bytes remain, and returns the first `n` of them |
| Discontinuous.BufWrite | benches/discontinuous.rs:17-39 | the chained-buffer writer produces the table id, the vnode, the key and the epoch, in that order |
| Discontinuous.VecWrite | benches/discontinuous.rs:41-62 | the vector writer produces a key 14 bytes longer than the user key: the 5-byte table id, the vnode byte 233, the key, and the 8-byte epoch |
| Discontinuous.WritersAgree | benches/discontinuous.rs:17-62 | the chained-buffer writer and the vector writer both produce TABLE_ID ++ VNODE ++ key ++ EPOCH, of length `len(key) + 14` |
| Discontinuous.Keys | benches/discontinuous.rs:66-70 | `keys()` makes 10000 keys |
| Discontinuous.KeysLayout | benches/discontinuous.rs:66-70 | every 8-byte quarter of key `i` reads back as `i`, so the keys are pairwise distinct |

## Left out

- The tokio `task_local!` binding, the `stack_traced` scope and `select!`, the reporter loop, the `watch` channels and `StackTraceManager`: concurrency and channel plumbing. The ambient context is an explicit `Option<TraceContext>` argument, and polling the wrapped future is a function parameter.
- `Instant` and the `Duration` text in the report: wall-clock time is the `Elapsed` parameter (whole seconds and preformatted text per node).
- `tracing::warn!` calls in `poll` and `drop`, and every `println!`/`eprintln!`/`dbg!`: output only.
- indextree's slot reuse after `remove`: the model never reuses a slot, and `SpanTree.Remove` covers only a node without a parent or without children, the only removals the tracer performs.
- SpanTree.AncestorOrSelf: follows at most as many parent links as there are slots, which covers every chain in a finite arena; `SpanTree.AncestorOrSelfMono` shows that a larger bound finds nothing a smaller one misses.
- SpanTreeFmt.RenderNode: recursion depth is bounded by fuel equal to the arena size; the contract states the shape and indentation of the lines but not the full text of deeper levels.
- SpanTreeFmt.SortBySpan: states order and permutation but not stability, so the relative order of children with equal span text is not promised.
- NestedDecode.De: states only that the rest is no longer than the input; the exact rest, `buf[width..]`, is `NestedDecode.DeSpec`.
- SpanTreeFmt.Report: states only that the report starts with the root's line.
- SpanTreeWf.RemoveAndDetachKeepsWf: is proved for a node other than the cursor, the case in which `drop` calls it (the cursor is the parent's span while a sibling future is dropped).
- StackTracedProps.TracedPollBalanced: assumes the inner future is balanced in the one context it is handed: it keeps the tree well-formed and the cursor in place, and cleans up its children when it completes. This is proved for a traced leaf (`StackTracedProps.LeafKeeps`, `StackTracedProps.LeafFirstPollKeeps`) and for a traced join that stays pending (`StackTracedProps.JoinPendingKeeps`), not for every future. It holds only when every traced future the inner future polled has completed or been dropped by the time it returns `Ready`; a pending traced sub-future borrowed through `&mut` leaves its node a child of the cursor, and `pop`'s `assert!` (src/bin/arena_stack.rs:191) panics.
- DagIso.Dfs: the `&mut` search state and its explicit snapshot and undo (`src/bin/dag.rs` lines 199 and 237-240) are not modelled. The state is passed and returned by value, so the unchanged state on failure follows from value semantics and is not a proof about the undo code.
- DagIso.DagIsomorphic: states soundness of a `true` answer only; completeness of the backtracking search is not proved. `DefaultHasher` is an uninterpreted hash parameter, so kind equality through fingerprints is not derived, and the sink pair is not required to have equal fingerprints.
- DagIso.Candidates: `f` is a pure two-argument predicate. The source takes it as `FnMut` (src/bin/dag.rs:113-115) and calls it once per pair with equal fingerprints, in `HashMap` bucket order (src/bin/dag.rs:165-176); a stateful `f`, whose answers depend on that call order, is not modelled.
- The `compile_fail` doc claim in `mut_trait.rs`: it is about compile-time type recursion.
- `from_utf8_unchecked` in `deserialize_ref.rs`: strings are kept as byte sequences.
- `RwLock`, `Arc` and the random bounds in `locked_btreemap_iter.rs`: the map is an immutable sorted sequence of integer keys, and the driver's filter becomes the `ValidRange` condition.
- winnow's error rendering (line, column, caret): errors are positions, with offset `c` being column `c` of the tests' second line. The behaviour of `alt`, `separated` and `cut_err` on failure follows the winnow documentation and is not derived from winnow's source, which is not part of this model.
- The f64 `Number`, `Null`, `Boolean` and `Array` JSON variants: never produced by either grammar.
- The order of an object's fields: `JsonCommon.Json` holds an object as an unordered `map<string, Json>`, so the order in which the `{:?}` output lists fields is not modelled. That order is sorted by key for the `BTreeMap` (src/bin/winnow_json.rs:17, 129) and hash order for the `HashMap` (src/bin/winnow_json/main.rs:15, 113). Duplicate keys keep the last value, as `collect` into either map does.
- `stacker::maybe_grow`, `thread_local!` and `RED_ZONE`/`STACK_SIZE`: stack growth is platform-level.
- Stacker.Enter: does not model `usize` overflow of the depth counter, which would need 2^64 nested calls.
- Criterion, jemalloc and `black_box`: benchmarking harness only; `bytes::Buf` chaining is modelled as a tree of slices read front to back.
- The `todo!()` bodies in `try_trait.rs`: their answers are fields of a `Project` record.
- The `Scalar` unit struct of `new_expr.rs`: generalised to a type parameter, so the properties hold for any payload.
- Floating-point payloads in `enum_match.rs`: kept as bit patterns, since `push` only moves them.

## Findings

| source | as written | input that shows it | evidently intended | confidence | as-written member | corrected member |
|---|---|---|---|---|---|---|
| src/bin/arena_stack.rs:269 | `poll` reads the cursor with `with_context` (`TRACE_CONTEXT.with`, which panics outside a task-local scope) before matching on the state | any `Initial` or `Polled` traced future polled outside a trace context, e.g. `Poll(Initial("s"), None, inner)` | the no-context arms at lines 285 and 305 run the inner future untraced, so the cursor should only be read once a context is known to exist | high; not executed | StackTraced.PollAsWritten | StackTraced.Poll |
