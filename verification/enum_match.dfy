/** Pushing a tagged scalar onto a tagged array (`ArrayImpl::push_1` and
    `push_2`). Both enums have one variant per element type; a push succeeds
    only when the scalar's variant matches the array's. Integer payloads are
    kept as integers within their type's range; float payloads are carried as
    their bit patterns, since a push only moves them. */
module EnumMatch {
  import opened Common

  datatype Float32 = Float32(bits: nat)
  datatype Float64 = Float64(bits: nat)

  datatype ScalarImpl =
    | I8(i8: int) | I16(i16: int) | I32(i32: int) | I64(i64: int)
    | U8(u8: int) | U16(u16: int) | U32(u32: int) | U64(u64: int)
    | F32(f32: Float32) | F64(f64: Float64)

  datatype ArrayImpl =
    | I8Vec(i8s: seq<int>) | I16Vec(i16s: seq<int>) | I32Vec(i32s: seq<int>) | I64Vec(i64s: seq<int>)
    | U8Vec(u8s: seq<int>) | U16Vec(u16s: seq<int>) | U32Vec(u32s: seq<int>) | U64Vec(u64s: seq<int>)
    | F32Vec(f32s: seq<Float32>) | F64Vec(f64s: seq<Float64>)

  const MismatchPanic := "Mismatched types"

  /** The variant of each enum, as a number from 0 (`I8`) to 9 (`F64`). */
  function ScalarTag(s: ScalarImpl): (t: nat)
    ensures t < 10
  {
    match s
    case I8(_) => 0 case I16(_) => 1 case I32(_) => 2 case I64(_) => 3
    case U8(_) => 4 case U16(_) => 5 case U32(_) => 6 case U64(_) => 7
    case F32(_) => 8 case F64(_) => 9
  }

  function ArrayTag(a: ArrayImpl): (t: nat)
    ensures t < 10
  {
    match a
    case I8Vec(_) => 0 case I16Vec(_) => 1 case I32Vec(_) => 2 case I64Vec(_) => 3
    case U8Vec(_) => 4 case U16Vec(_) => 5 case U32Vec(_) => 6 case U64Vec(_) => 7
    case F32Vec(_) => 8 case F64Vec(_) => 9
  }

  function Len(a: ArrayImpl): nat {
    match a
    case I8Vec(v) => |v| case I16Vec(v) => |v| case I32Vec(v) => |v| case I64Vec(v) => |v|
    case U8Vec(v) => |v| case U16Vec(v) => |v| case U32Vec(v) => |v| case U64Vec(v) => |v|
    case F32Vec(v) => |v| case F64Vec(v) => |v|
  }

  /** Element `k` of an array, as a scalar of the array's type. */
  function Get(a: ArrayImpl, k: nat): (s: ScalarImpl)
    requires k < Len(a)
    ensures ScalarTag(s) == ArrayTag(a)
  {
    match a
    case I8Vec(v) => I8(v[k]) case I16Vec(v) => I16(v[k]) case I32Vec(v) => I32(v[k]) case I64Vec(v) => I64(v[k])
    case U8Vec(v) => U8(v[k]) case U16Vec(v) => U16(v[k]) case U32Vec(v) => U32(v[k]) case U64Vec(v) => U64(v[k])
    case F32Vec(v) => F32(v[k]) case F64Vec(v) => F64(v[k])
  }

  /** Every integer payload lies in the range of its Rust type. */
  predicate ValidScalar(s: ScalarImpl) {
    match s
    case I8(x) => -0x80 <= x < 0x80
    case I16(x) => -0x8000 <= x < 0x8000
    case I32(x) => -0x8000_0000 <= x < 0x8000_0000
    case I64(x) => -0x8000_0000_0000_0000 <= x < 0x8000_0000_0000_0000
    case U8(x) => 0 <= x < 0x100
    case U16(x) => 0 <= x < 0x1_0000
    case U32(x) => 0 <= x < 0x1_0000_0000
    case U64(x) => 0 <= x < 0x1_0000_0000_0000_0000
    case F32(_) => true
    case F64(_) => true
  }

  predicate ValidArray(a: ArrayImpl) {
    forall k :: 0 <= k < Len(a) ==> ValidScalar(Get(a, k))
  }

  /** `push_1`: match on the array, then on the scalar. A matching push
      appends the payload; a mismatch panics. */
  function Push1(a: ArrayImpl, s: ScalarImpl): (r: Outcome<ArrayImpl>)
    ensures r.Done? <==> ScalarTag(s) == ArrayTag(a)
    ensures r.Panic? ==> r.reason == MismatchPanic
    ensures r.Done? ==>
      && ArrayTag(r.value) == ArrayTag(a) && Len(r.value) == Len(a) + 1
      && Get(r.value, Len(a)) == s
      && forall k :: 0 <= k < Len(a) ==> Get(r.value, k) == Get(a, k)
  {
    match a
    case I8Vec(v) => (match s case I8(i) => Done(I8Vec(v + [i])) case _ => Panic(MismatchPanic))
    case I16Vec(v) => (match s case I16(i) => Done(I16Vec(v + [i])) case _ => Panic(MismatchPanic))
    case I32Vec(v) => (match s case I32(i) => Done(I32Vec(v + [i])) case _ => Panic(MismatchPanic))
    case I64Vec(v) => (match s case I64(i) => Done(I64Vec(v + [i])) case _ => Panic(MismatchPanic))
    case U8Vec(v) => (match s case U8(i) => Done(U8Vec(v + [i])) case _ => Panic(MismatchPanic))
    case U16Vec(v) => (match s case U16(i) => Done(U16Vec(v + [i])) case _ => Panic(MismatchPanic))
    case U32Vec(v) => (match s case U32(i) => Done(U32Vec(v + [i])) case _ => Panic(MismatchPanic))
    case U64Vec(v) => (match s case U64(i) => Done(U64Vec(v + [i])) case _ => Panic(MismatchPanic))
    case F32Vec(v) => (match s case F32(i) => Done(F32Vec(v + [i])) case _ => Panic(MismatchPanic))
    case F64Vec(v) => (match s case F64(i) => Done(F64Vec(v + [i])) case _ => Panic(MismatchPanic))
  }

  /** `push_2`: one match on the pair, with a single catch-all panic. */
  function Push2(a: ArrayImpl, s: ScalarImpl): (r: Outcome<ArrayImpl>)
    ensures r.Done? <==> ScalarTag(s) == ArrayTag(a)
    ensures r.Panic? ==> r.reason == MismatchPanic
    ensures r.Done? ==>
      && ArrayTag(r.value) == ArrayTag(a) && Len(r.value) == Len(a) + 1
      && Get(r.value, Len(a)) == s
      && forall k :: 0 <= k < Len(a) ==> Get(r.value, k) == Get(a, k)
  {
    match (a, s)
    case (I8Vec(v), I8(i)) => Done(I8Vec(v + [i]))
    case (I16Vec(v), I16(i)) => Done(I16Vec(v + [i]))
    case (I32Vec(v), I32(i)) => Done(I32Vec(v + [i]))
    case (I64Vec(v), I64(i)) => Done(I64Vec(v + [i]))
    case (U8Vec(v), U8(i)) => Done(U8Vec(v + [i]))
    case (U16Vec(v), U16(i)) => Done(U16Vec(v + [i]))
    case (U32Vec(v), U32(i)) => Done(U32Vec(v + [i]))
    case (U64Vec(v), U64(i)) => Done(U64Vec(v + [i]))
    case (F32Vec(v), F32(i)) => Done(F32Vec(v + [i]))
    case (F64Vec(v), F64(i)) => Done(F64Vec(v + [i]))
    case _ => Panic(MismatchPanic)
  }

  /** The two formulations agree on every array and scalar. */
  lemma PushesAgree(a: ArrayImpl, s: ScalarImpl)
    ensures Push1(a, s) == Push2(a, s)
  {
  }

  /** A successful push keeps every payload within its type's range. */
  lemma PushKeepsValid(a: ArrayImpl, s: ScalarImpl)
    requires ValidArray(a) && ValidScalar(s) && Push1(a, s).Done?
    ensures ValidArray(Push1(a, s).value)
  {
    var r := Push1(a, s).value;
    forall k | 0 <= k < Len(r) ensures ValidScalar(Get(r, k)) {
      if k < Len(a) {
        assert Get(r, k) == Get(a, k);
      }
    }
  }

  /** The program's own call: `1i32` onto an empty `I32` array. */
  lemma MainPush()
    ensures Push1(I32Vec([]), I32(1)) == Push2(I32Vec([]), I32(1)) == Done(I32Vec([1]))
  {
    assert [] + [1] == [1];
  }
}
