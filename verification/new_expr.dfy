/** Scalar/array broadcast evaluation (`new_expr.rs`). An expression either
    produces a whole array (`eval`) or a value that may be a single scalar
    standing for every row (`eval_new`); each has a default in terms of the
    other. The binary expression keeps its old array-only `eval` and adds an
    `eval_new` that broadcasts scalars only when the other side is an array.

    Scalars are a type parameter; the leaves of an expression stand for the
    implementors that are not shown, one overriding `eval_new`, one `eval`. */
module NewExpr {
  import opened Common

  type Array<S> = seq<S>

  /** A chunk: its arrays (columns). */
  type Chunk<S> = seq<Array<S>>

  datatype Value<S> = ScalarVal(s: S) | ArrayVal(a: Array<S>)

  datatype Expr<!S> =
    | NewLeaf(v: Value<S>)
    | OldLeaf(a: Array<S>)
    | Binary(lhs: Expr<S>, rhs: Expr<S>, func: (S, S) -> S)

  const IndexPanic := "index out of bounds"
  const AssertEqPanic := "assertion `left == right` failed"

  /** `Chunk::cardinality`: the length of the first array. */
  function Cardinality<S>(chunk: Chunk<S>): (r: Outcome<nat>)
    ensures r.Done? <==> |chunk| > 0
    ensures r.Done? ==> r.value == |chunk[0]|
  {
    if |chunk| == 0 then Panic(IndexPanic) else Done(|chunk[0]|)
  }

  /** `Value::into_iter`: a scalar repeated `card` times, or the array itself
      once its length is checked. */
  function IntoIter<S>(v: Value<S>, card: nat): (r: Outcome<Array<S>>)
    ensures v.ScalarVal? ==> r.Done? && |r.value| == card && forall k :: 0 <= k < card ==> r.value[k] == v.s
    ensures v.ArrayVal? ==> (r.Done? <==> |v.a| == card) && (r.Done? ==> r.value == v.a)
  {
    match v
    case ScalarVal(s) => Done(seq(card, _ => s))
    case ArrayVal(a) => if |a| == card then Done(a) else Panic(AssertEqPanic)
  }

  /** Element-wise application over two arrays; `zip` stops at the shorter. */
  function ZipWith<S>(xs: Array<S>, ys: Array<S>, f: (S, S) -> S): (r: Array<S>)
    ensures |r| == if |xs| <= |ys| then |xs| else |ys|
    ensures forall k :: 0 <= k < |r| ==> r[k] == f(xs[k], ys[k])
  {
    seq(if |xs| <= |ys| then |xs| else |ys|, k requires 0 <= k < |xs| && k < |ys| => f(xs[k], ys[k]))
  }

  /** `Expr::eval`: the old leaf's own array, the default for a new leaf (a
      scalar becomes `cardinality` copies), and the old binary evaluation. */
  function Eval<S>(e: Expr<S>, chunk: Chunk<S>): (r: Outcome<Array<S>>)
    ensures |chunk| > 0 ==> r.Done?
    ensures |chunk| > 0 && Conforms(e, |chunk[0]|) ==> |r.value| == |chunk[0]|
    decreases e
  {
    match e
    case OldLeaf(a) => Done(a)
    case NewLeaf(v) =>
      (match v
       case ArrayVal(a) => Done(a)
       case ScalarVal(s) =>
         match Cardinality(chunk)
         case Panic(m) => Panic(m)
         case Done(card) => Done(seq(card, _ => s)))
    case Binary(lhs, rhs, f) =>
      match Eval(lhs, chunk)
      case Panic(m) => Panic(m)
      case Done(l) =>
        match Eval(rhs, chunk)
        case Panic(m) => Panic(m)
        case Done(r) => Done(ZipWith(l, r, f))
  }

  /** `Expr::eval_new`: the new leaf's own value, the default for an old leaf
      (its array), and the broadcasting binary evaluation. */
  function EvalNew<S>(e: Expr<S>, chunk: Chunk<S>): (r: Outcome<Value<S>>)
    ensures |chunk| > 0 && Conforms(e, |chunk[0]|) ==>
      r.Done? && (r.value.ArrayVal? ==> |r.value.a| == |chunk[0]|)
    decreases e
  {
    match e
    case NewLeaf(v) => Done(v)
    case OldLeaf(a) => Done(ArrayVal(a))
    case Binary(lhs, rhs, f) =>
      match EvalNew(lhs, chunk)
      case Panic(m) => Panic(m)
      case Done(l) =>
        match EvalNew(rhs, chunk)
        case Panic(m) => Panic(m)
        case Done(r) =>
          match Cardinality(chunk)
          case Panic(m) => Panic(m)
          case Done(card) => BinaryNew(l, r, f, card)
  }

  /** The `match (lhs, rhs)` of the new binary evaluation. */
  function BinaryNew<S>(l: Value<S>, r: Value<S>, f: (S, S) -> S, card: nat): (res: Outcome<Value<S>>)
    ensures l.ScalarVal? && r.ScalarVal? ==> res == Done(ScalarVal(f(l.s, r.s)))
    ensures !(l.ScalarVal? && r.ScalarVal?) && res.Done? ==>
      && res.value.ArrayVal? && |res.value.a| == card
      && (l.ArrayVal? ==> |l.a| == card) && (r.ArrayVal? ==> |r.a| == card)
      && forall k :: 0 <= k < card ==> res.value.a[k] == f(At(l, k), At(r, k))
    ensures !(l.ScalarVal? && r.ScalarVal?) ==>
      (res.Done? <==> (l.ArrayVal? ==> |l.a| == card) && (r.ArrayVal? ==> |r.a| == card))
  {
    if l.ScalarVal? && r.ScalarVal? then Done(ScalarVal(f(l.s, r.s)))
    else
      match IntoIter(l, card)
      case Panic(m) => Panic(m)
      case Done(xs) =>
        match IntoIter(r, card)
        case Panic(m) => Panic(m)
        case Done(ys) => Done(ArrayVal(ZipWith(xs, ys, f)))
  }

  /** Row `k` of a value: the scalar itself, or the array's `k`-th element. */
  function At<S>(v: Value<S>, k: nat): S
    requires v.ArrayVal? ==> k < |v.a|
  {
    if v.ScalarVal? then v.s else v.a[k]
  }

  /** A value spread over `card` rows: the default `eval` applied to an
      `eval_new` result. */
  function Broadcast<S>(v: Value<S>, card: nat): (r: Array<S>)
    ensures IntoIter(v, card).Done? ==> r == IntoIter(v, card).value
    ensures v.ScalarVal? ==> |r| == card
  {
    match v
    case ScalarVal(s) => seq(card, _ => s)
    case ArrayVal(a) => a
  }

  /** Every array in the expression has one element per row of the chunk. */
  predicate Conforms<S>(e: Expr<S>, card: nat) {
    match e
    case NewLeaf(v) => v.ArrayVal? ==> |v.a| == card
    case OldLeaf(a) => |a| == card
    case Binary(lhs, rhs, _) => Conforms(lhs, card) && Conforms(rhs, card)
  }

  /** On a non-empty chunk whose arrays all have the chunk's cardinality, the
      new evaluation is a drop-in replacement for the old one: neither panics,
      and broadcasting the new result gives the old array. */
  lemma {:induction false} EvalNewRefinesEval<S>(e: Expr<S>, chunk: Chunk<S>)
    requires |chunk| > 0 && Conforms(e, |chunk[0]|)
    ensures Eval(e, chunk).Done? && EvalNew(e, chunk).Done?
    ensures Eval(e, chunk).value == Broadcast(EvalNew(e, chunk).value, |chunk[0]|)
    ensures |Eval(e, chunk).value| == |chunk[0]|
    decreases e
  {
    if e.Binary? {
      var card := |chunk[0]|;
      EvalNewRefinesEval(e.lhs, chunk);
      EvalNewRefinesEval(e.rhs, chunk);
      var l, r := EvalNew(e.lhs, chunk).value, EvalNew(e.rhs, chunk).value;
      var res := BinaryNew(l, r, e.func, card);
      assert Eval(e, chunk).value == ZipWith(Broadcast(l, card), Broadcast(r, card), e.func);
      if !(l.ScalarVal? && r.ScalarVal?) {
        assert |res.value.a| == card;
        forall k | 0 <= k < card ensures res.value.a[k] == Eval(e, chunk).value[k] {
        }
      }
    }
  }

  /** An empty chunk has no cardinality: the new binary evaluation panics on it
      even over two arrays, where the old one did not look at the chunk. */
  lemma EmptyChunkDiffers<S>(a: Array<S>, b: Array<S>, f: (S, S) -> S)
    ensures EvalNew(Binary(OldLeaf(a), OldLeaf(b), f), []).Panic?
    ensures Eval(Binary(OldLeaf(a), OldLeaf(b), f), []) == Done(ZipWith(a, b, f))
  {
  }
}
