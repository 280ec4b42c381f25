/** Two visitor designs over a tiny expression tree (`visitor.rs`). In the
    first, the visitor walks the tree itself, and the default
    `visit_expression` does nothing; in the second, the tree's `accept` walks
    the inputs post-order and calls the visitor's hooks. Each walk is modelled
    as the sequence of hook calls it makes; `CountFunctionCall` counts the
    `visit_function_call` calls. */
module Visitor {

  datatype Expression = InputRef | FunctionCall(inputs: seq<Expression>)

  /** A call of one of the visitor's hooks, with its argument. */
  datatype Event =
    | VisitExpression(e: Expression)
    | VisitFunctionCall(inputs: seq<Expression>)
    | VisitInputRef

  /** `Expression::accept`: the node's own `accept` (inputs first for a
      function call), then `visit_expression` on the node. */
  function Accept(e: Expression): (r: seq<Event>)
    ensures |r| >= 2 && r[|r| - 1] == VisitExpression(e)
    decreases e, 1
  {
    match e
    case InputRef => [VisitInputRef, VisitExpression(e)]
    case FunctionCall(ins) => AcceptCall(ins) + [VisitExpression(e)]
  }

  /** `FunctionCall::accept`: every input in order, then
      `visit_function_call`. */
  function AcceptCall(ins: seq<Expression>): (r: seq<Event>)
    ensures |r| >= 1 + 2 * |ins| && r[|r| - 1] == VisitFunctionCall(ins)
    decreases ins, 1
  {
    AcceptAll(ins) + [VisitFunctionCall(ins)]
  }

  /** Function-call nodes in the tree, the reference count. */
  function Calls(e: Expression): nat
    decreases e, 1
  {
    match e
    case InputRef => 0
    case FunctionCall(ins) => 1 + CallsAll(ins)
  }

  function CallsAll(ins: seq<Expression>): nat
    decreases ins, 0
  {
    if |ins| == 0 then 0 else Calls(ins[0]) + CallsAll(ins[1..])
  }

  /** Nodes in the tree. */
  function Size(e: Expression): nat
    decreases e, 1
  {
    match e
    case InputRef => 1
    case FunctionCall(ins) => 1 + SizeAll(ins)
  }

  function SizeAll(ins: seq<Expression>): nat
    decreases ins, 0
  {
    if |ins| == 0 then 0 else Size(ins[0]) + SizeAll(ins[1..])
  }

  /** The hook calls of every input's `accept`, in order. */
  function AcceptAll(ins: seq<Expression>): (r: seq<Event>)
    ensures |r| >= 2 * |ins|
    decreases ins, 0
  {
    if |ins| == 0 then [] else Accept(ins[0]) + AcceptAll(ins[1..])
  }

  function NumCalls(t: seq<Event>): nat {
    if |t| == 0 then 0 else (if t[0].VisitFunctionCall? then 1 else 0) + NumCalls(t[1..])
  }

  function NumExprs(t: seq<Event>): nat {
    if |t| == 0 then 0 else (if t[0].VisitExpression? then 1 else 0) + NumExprs(t[1..])
  }

  lemma {:induction false} NumAppend(a: seq<Event>, b: seq<Event>)
    ensures NumCalls(a + b) == NumCalls(a) + NumCalls(b)
    ensures NumExprs(a + b) == NumExprs(a) + NumExprs(b)
  {
    if |a| > 0 {
      assert (a + b)[1..] == a[1..] + b;
      NumAppend(a[1..], b);
    } else {
      assert a + b == b;
    }
  }

  /** `CountFunctionCall` under the second design: one increment per
      `visit_function_call` hook call that `accept` makes, which is one per
      function-call node. */
  function Visit2(e: Expression): (r: nat)
    ensures r == Calls(e)
  {
    AcceptCounts(e);
    NumCalls(Accept(e))
  }

  /** `accept` calls `visit_function_call` once per function-call node and
      `visit_expression` once per node. */
  lemma {:induction false} AcceptCounts(e: Expression)
    ensures NumCalls(Accept(e)) == Calls(e)
    ensures NumExprs(Accept(e)) == Size(e)
    decreases e, 1
  {
    match e
    case InputRef =>
      NumAppend([VisitInputRef], [VisitExpression(e)]);
    case FunctionCall(ins) =>
      AcceptAllCounts(ins);
      var body := AcceptAll(ins);
      NumAppend(body, [VisitFunctionCall(ins)]);
      NumAppend(body + [VisitFunctionCall(ins)], [VisitExpression(e)]);
      assert NumCalls([VisitFunctionCall(ins)]) == 1 && NumCalls([VisitExpression(e)]) == 0;
      assert Accept(e) == body + [VisitFunctionCall(ins)] + [VisitExpression(e)];
  }

  lemma {:induction false} AcceptAllCounts(ins: seq<Expression>)
    ensures NumCalls(AcceptAll(ins)) == CallsAll(ins)
    ensures NumExprs(AcceptAll(ins)) == SizeAll(ins)
    decreases ins, 0
  {
    if |ins| > 0 {
      AcceptCounts(ins[0]);
      AcceptAllCounts(ins[1..]);
      NumAppend(Accept(ins[0]), AcceptAll(ins[1..]));
    }
  }

  /** Position `j` of `t` closes a copy of `u`. */
  predicate EndsAt(t: seq<Event>, j: nat, u: seq<Event>)
    requires j < |t|
  {
    |u| <= j + 1 && t[j + 1 - |u|..j + 1] == u
  }

  /** Post-order: every `visit_expression(x)` call comes right after the whole
      walk of `x`'s own subtree. */
  predicate PostOrder(t: seq<Event>) {
    forall j :: 0 <= j < |t| ==> ClosesSubtree(t, j)
  }

  predicate ClosesSubtree(t: seq<Event>, j: nat)
    requires j < |t|
  {
    t[j].VisitExpression? ==> EndsAt(t, j, Accept(t[j].e))
  }

  lemma PostOrderAppend(a: seq<Event>, b: seq<Event>)
    requires PostOrder(a) && PostOrder(b)
    ensures PostOrder(a + b)
  {
    var t := a + b;
    forall j | 0 <= j < |t| ensures ClosesSubtree(t, j) {
      if j < |a| {
        assert ClosesSubtree(a, j) && t[j] == a[j];
        if a[j].VisitExpression? {
          EndsAtLeft(a, b, j, Accept(a[j].e));
        }
      } else {
        assert ClosesSubtree(b, j - |a|) && t[j] == b[j - |a|];
        if b[j - |a|].VisitExpression? {
          EndsAtRight(a, b, j - |a|, Accept(b[j - |a|].e));
        }
      }
    }
  }

  lemma EndsAtLeft(a: seq<Event>, b: seq<Event>, j: nat, u: seq<Event>)
    requires j < |a| && EndsAt(a, j, u)
    ensures EndsAt(a + b, j, u)
  {
    assert (a + b)[j + 1 - |u|..j + 1] == a[j + 1 - |u|..j + 1];
  }

  lemma EndsAtRight(a: seq<Event>, b: seq<Event>, j: nat, u: seq<Event>)
    requires j < |b| && EndsAt(b, j, u)
    ensures EndsAt(a + b, |a| + j, u)
  {
    assert (a + b)[|a| + j + 1 - |u|..|a| + j + 1] == b[j + 1 - |u|..j + 1];
  }

  /** `accept` visits post-order. */
  lemma {:induction false} AcceptPostOrder(e: Expression)
    ensures PostOrder(Accept(e))
    decreases e, 1
  {
    match e
    case InputRef =>
      PostOrderClose([VisitInputRef], e);
    case FunctionCall(ins) =>
      AcceptAllPostOrder(ins);
      PostOrderAppend(AcceptAll(ins), [VisitFunctionCall(ins)]);
      PostOrderClose(AcceptCall(ins), e);
  }

  /** The walk of `e` ends with `visit_expression(e)` after a post-order walk
      of its parts. */
  lemma PostOrderClose(body: seq<Event>, e: Expression)
    requires PostOrder(body) && Accept(e) == body + [VisitExpression(e)]
    ensures PostOrder(Accept(e))
  {
    var t := Accept(e);
    forall j | 0 <= j < |t| ensures ClosesSubtree(t, j) {
      if j < |body| {
        assert ClosesSubtree(body, j) && t[j] == body[j];
        if body[j].VisitExpression? {
          EndsAtLeft(body, [VisitExpression(e)], j, Accept(body[j].e));
        }
      } else {
        assert j == |t| - 1 && t[j] == VisitExpression(e);
        assert t[0..|t|] == t;
      }
    }
  }

  lemma {:induction false} AcceptAllPostOrder(ins: seq<Expression>)
    ensures PostOrder(AcceptAll(ins))
    decreases ins, 0
  {
    if |ins| > 0 {
      AcceptPostOrder(ins[0]);
      AcceptAllPostOrder(ins[1..]);
      PostOrderAppend(Accept(ins[0]), AcceptAll(ins[1..]));
    }
  }

  /** The first design: `CountFunctionCall` overrides only
      `visit_function_call`, which counts and hands each input to
      `visit_expression`; the default `visit_expression` does nothing. Each
      returns the count after the hook. */
  function Visit1Expression(count: nat, e: Expression): nat {
    count
  }

  function Visit1FunctionCall(count: nat, ins: seq<Expression>): nat {
    Visit1Inputs(count + 1, ins)
  }

  function Visit1Inputs(count: nat, ins: seq<Expression>): nat {
    if |ins| == 0 then count else Visit1Inputs(Visit1Expression(count, ins[0]), ins[1..])
  }

  /** `visit1`: a fresh counter handed the root. The default
      `visit_expression` does not dispatch on the node, so the counter is never
      touched. */
  function Visit1(e: Expression): (r: nat)
    ensures r == 0
  {
    Visit1Expression(0, e)
  }

  /** `visit1` never reaches a function call: it answers 0 on every tree, and
      so agrees with `visit2` exactly on trees without function calls. */
  lemma Visit1Zero(e: Expression)
    ensures Visit1(e) == 0
    ensures Visit1(e) == Visit2(e) <==> Calls(e) == 0
  {
    AcceptCounts(e);
  }

  /** Called directly, the overriding `visit_function_call` counts its own node
      and nothing below it. */
  lemma {:induction false} Visit1FunctionCallCountsOne(count: nat, ins: seq<Expression>)
    ensures Visit1FunctionCall(count, ins) == count + 1
  {
    Visit1InputsKeep(count + 1, ins);
  }

  lemma {:induction false} Visit1InputsKeep(count: nat, ins: seq<Expression>)
    ensures Visit1Inputs(count, ins) == count
  {
    if |ins| > 0 {
      Visit1InputsKeep(count, ins[1..]);
    }
  }
}
