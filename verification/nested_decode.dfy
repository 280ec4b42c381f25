/** Decoding a nested type from one shared big-endian buffer (`de` in
    `mut_trait.rs`): `Int16` reads two bytes, `Int32` four, and a `Struct`
    decodes its fields left to right, each continuing where the previous one
    stopped. */
module NestedDecode {
  import opened Common

  datatype DataType = Int16 | Int32 | Struct(fields: seq<DataType>)

  datatype Scalar = Int16Val(i: int) | Int32Val(i: int) | StructVal(items: seq<Scalar>)

  const SplitPanic := "mid > len"

  /** The number of bytes a value of type `t` occupies. */
  function Width(t: DataType): nat {
    match t
    case Int16 => 2
    case Int32 => 4
    case Struct(fs) => WidthAll(fs)
  }

  function WidthAll(ts: seq<DataType>): nat {
    if |ts| == 0 then 0 else Width(ts[0]) + WidthAll(ts[1..])
  }

  /** `get_i16` / `get_i32` on a byte slice: split off `n` bytes, read them as a
      signed big-endian integer, and advance past them. */
  function GetInt(buf: seq<byte>, n: nat): (r: Outcome<(int, seq<byte>)>)
    requires n > 0
    ensures r.Done? <==> n <= |buf|
    ensures r.Done? ==> r.value.1 == buf[n..] && FitsSigned(r.value.0, n)
  {
    if |buf| < n then Panic(SplitPanic)
    else Done((ToSigned(BeValue(buf[..n]), n), buf[n..]))
  }

  /** `de`: the decoded value and the rest of the buffer. */
  function De(t: DataType, buf: seq<byte>): (r: Outcome<(Scalar, seq<byte>)>)
    ensures r.Done? ==> |r.value.1| <= |buf|
    decreases t
  {
    match t
    case Int16 =>
      (match GetInt(buf, 2)
       case Panic(m) => Panic(m)
       case Done((i, rest)) => Done((Int16Val(i), rest)))
    case Int32 =>
      (match GetInt(buf, 4)
       case Panic(m) => Panic(m)
       case Done((i, rest)) => Done((Int32Val(i), rest)))
    case Struct(fs) =>
      (match DeAll(fs, buf)
       case Panic(m) => Panic(m)
       case Done((vs, rest)) => Done((StructVal(vs), rest)))
  }

  /** The fields of a struct, in order, from the shared buffer. */
  function DeAll(ts: seq<DataType>, buf: seq<byte>): (r: Outcome<(seq<Scalar>, seq<byte>)>)
    ensures r.Done? ==> |r.value.0| == |ts|
    ensures r.Done? ==> |r.value.1| <= |buf|
    decreases ts
  {
    if |ts| == 0 then Done(([], buf))
    else
      match De(ts[0], buf)
      case Panic(m) => Panic(m)
      case Done((v, rest)) =>
        match DeAll(ts[1..], rest)
        case Panic(m) => Panic(m)
        case Done((vs, rest2)) => Done(([v] + vs, rest2))
  }

  /** The shape of a value mirrors its type. */
  predicate Conforms(v: Scalar, t: DataType)
    decreases t
  {
    match t
    case Int16 => v.Int16Val? && FitsSigned(v.i, 2)
    case Int32 => v.Int32Val? && FitsSigned(v.i, 4)
    case Struct(fs) => v.StructVal? && ConformsAll(v.items, fs)
  }

  predicate ConformsAll(vs: seq<Scalar>, ts: seq<DataType>)
    decreases ts
  {
    |vs| == |ts| && (|ts| == 0 || (Conforms(vs[0], ts[0]) && ConformsAll(vs[1..], ts[1..])))
  }

  /** Decoding succeeds exactly when the buffer holds the type's width, consumes
      exactly that many bytes, and yields a value shaped like the type. */
  lemma {:induction false} DeSpec(t: DataType, buf: seq<byte>)
    ensures De(t, buf).Done? <==> Width(t) <= |buf|
    ensures De(t, buf).Done? ==> De(t, buf).value.1 == buf[Width(t)..] && Conforms(De(t, buf).value.0, t)
    decreases t, 1
  {
    if t.Struct? {
      DeAllSpec(t.fields, buf);
    }
  }

  lemma {:induction false} DeAllSpec(ts: seq<DataType>, buf: seq<byte>)
    ensures DeAll(ts, buf).Done? <==> WidthAll(ts) <= |buf|
    ensures DeAll(ts, buf).Done? ==> DeAll(ts, buf).value.1 == buf[WidthAll(ts)..] && ConformsAll(DeAll(ts, buf).value.0, ts)
    decreases ts, 0
  {
    if |ts| > 0 {
      DeSpec(ts[0], buf);
      if Width(ts[0]) <= |buf| {
        var rest := buf[Width(ts[0])..];
        DeAllSpec(ts[1..], rest);
        if WidthAll(ts[1..]) <= |rest| {
          assert rest[WidthAll(ts[1..])..] == buf[WidthAll(ts)..];
        }
      }
    }
  }

  /** The bytes of a value, fields in order (the inverse of `de`). */
  function Encode(v: Scalar): seq<byte>
    requires Encodable(v)
    decreases v
  {
    match v
    case Int16Val(i) => BeBytes(ToUnsigned(i, 2), 2)
    case Int32Val(i) => BeBytes(ToUnsigned(i, 4), 4)
    case StructVal(vs) => EncodeAll(vs)
  }

  function EncodeAll(vs: seq<Scalar>): seq<byte>
    requires forall k :: 0 <= k < |vs| ==> Encodable(vs[k])
    decreases vs
  {
    if |vs| == 0 then [] else Encode(vs[0]) + EncodeAll(vs[1..])
  }

  predicate Encodable(v: Scalar)
    decreases v
  {
    match v
    case Int16Val(i) => FitsSigned(i, 2)
    case Int32Val(i) => FitsSigned(i, 4)
    case StructVal(vs) => forall k :: 0 <= k < |vs| ==> Encodable(vs[k])
  }

  function TypeOf(v: Scalar): DataType
    decreases v
  {
    match v
    case Int16Val(_) => Int16
    case Int32Val(_) => Int32
    case StructVal(vs) => Struct(seq(|vs|, k requires 0 <= k < |vs| => TypeOf(vs[k])))
  }

  /** Decoding the bytes of a value, whatever follows them, gives the value back
      and leaves exactly what followed. */
  lemma {:induction false} DeEncode(v: Scalar, trailing: seq<byte>)
    requires Encodable(v)
    ensures De(TypeOf(v), Encode(v) + trailing) == Done((v, trailing))
    decreases v, 1
  {
    match v
    case Int16Val(i) =>
      GetIntBytes(i, 2, trailing);
    case Int32Val(i) =>
      GetIntBytes(i, 4, trailing);
    case StructVal(vs) =>
      DeAllEncode(vs, trailing);
  }

  lemma {:induction false} DeAllEncode(vs: seq<Scalar>, trailing: seq<byte>)
    requires forall k :: 0 <= k < |vs| ==> Encodable(vs[k])
    ensures DeAll(seq(|vs|, k requires 0 <= k < |vs| => TypeOf(vs[k])), EncodeAll(vs) + trailing) == Done((vs, trailing))
    decreases vs, 0
  {
    var ts := seq(|vs|, k requires 0 <= k < |vs| => TypeOf(vs[k]));
    if |vs| > 0 {
      var tail := vs[1..];
      assert ts[1..] == seq(|tail|, k requires 0 <= k < |tail| => TypeOf(tail[k]));
      var rest := EncodeAll(tail) + trailing;
      assert EncodeAll(vs) + trailing == Encode(vs[0]) + rest;
      DeEncode(vs[0], rest);
      DeAllEncode(tail, trailing);
      assert ts[0] == TypeOf(vs[0]);
      var buf := EncodeAll(vs) + trailing;
      assert De(ts[0], buf) == Done((vs[0], rest));
      assert DeAll(ts[1..], rest) == Done((tail, trailing));
      assert vs == [vs[0]] + tail;
      assert DeAll(ts, buf) == Done(([vs[0]] + tail, trailing));
    } else {
      assert ts == [] && vs == [];
      assert EncodeAll(vs) + trailing == trailing;
    }
  }

  lemma GetIntBytes(i: int, n: nat, trailing: seq<byte>)
    requires FitsSigned(i, n)
    ensures GetInt(BeBytes(ToUnsigned(i, n), n) + trailing, n) == Done((i, trailing))
  {
    var w := BeBytes(ToUnsigned(i, n), n);
    assert (w + trailing)[..n] == w && (w + trailing)[n..] == trailing;
    BeValueOfBeBytes(ToUnsigned(i, n), n);
  }
}
