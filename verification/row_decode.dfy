/** Decoding one row of a flat schema from a big-endian buffer
    (`deserialize_ref.rs`). An `Int64` is eight bytes; a `String` is an eight
    byte length followed by that many bytes, kept as raw bytes (the source
    reinterprets them as UTF-8 without checking). Trailing bytes are ignored. */
module RowDecode {
  import opened Common

  datatype DataType = Int64 | Str

  datatype ScalarRef = Int64Val(i: int) | StrVal(bytes: seq<byte>)

  const SplitPanic := "mid > len"

  /** The variant a data type decodes to. */
  predicate HasType(v: ScalarRef, t: DataType) {
    if t.Int64? then v.Int64Val? else v.StrVal?
  }

  /** `deserialize`: one scalar per schema entry, in order, each read from
      where the previous one stopped; a buffer too short for the next field is
      a `split_at` panic. */
  function Deserialize(buf: seq<byte>, schema: seq<DataType>): (r: Outcome<seq<ScalarRef>>)
    ensures r.Done? ==> |r.value| == |schema|
    decreases |schema|
  {
    if |schema| == 0 then Done([])
    else if |buf| < 8 then Panic(SplitPanic)
    else
      var word := BeValue(buf[..8]);
      var rest := buf[8..];
      if schema[0].Int64? then
        var v := Int64Val(ToSigned(word, 8));
        match Deserialize(rest, schema[1..])
        case Panic(m) => Panic(m)
        case Done(vs) => Done([v] + vs)
      else if |rest| < word then Panic(SplitPanic)
      else
        match Deserialize(rest[word..], schema[1..])
        case Panic(m) => Panic(m)
        case Done(vs) => Done([StrVal(rest[..word])] + vs)
  }

  /** A decoded row has one scalar per schema entry, of the entry's type, and
      every integer is an `i64`. */
  lemma {:induction false} DeserializeShape(buf: seq<byte>, schema: seq<DataType>)
    ensures var r := Deserialize(buf, schema);
      r.Done? ==>
        && |r.value| == |schema|
        && (forall k :: 0 <= k < |schema| ==> HasType(r.value[k], schema[k]))
        && (forall k :: 0 <= k < |schema| ==> r.value[k].Int64Val? ==> FitsSigned(r.value[k].i, 8))
    decreases |schema|
  {
    if |schema| > 0 && |buf| >= 8 {
      var rest := buf[8..];
      var word := BeValue(buf[..8]);
      if schema[0].Int64? {
        DeserializeShape(rest, schema[1..]);
      } else if |rest| >= word {
        DeserializeShape(rest[word..], schema[1..]);
      }
    }
  }

  /** Bytes after the last field change nothing: a buffer that decodes keeps
      decoding to the same row when more bytes are appended. */
  lemma {:induction false} DeserializeExtend(buf: seq<byte>, extra: seq<byte>, schema: seq<DataType>)
    requires Deserialize(buf, schema).Done?
    ensures Deserialize(buf + extra, schema) == Deserialize(buf, schema)
    decreases |schema|
  {
    if |schema| > 0 {
      var big := buf + extra;
      assert big[..8] == buf[..8];
      assert big[8..] == buf[8..] + extra;
      var word := BeValue(buf[..8]);
      if schema[0].Int64? {
        DeserializeExtend(buf[8..], extra, schema[1..]);
      } else {
        assert big[8..][..word] == buf[8..][..word];
        assert big[8..][word..] == buf[8..][word..] + extra;
        DeserializeExtend(buf[8..][word..], extra, schema[1..]);
      }
    }
  }

  /** The encoding the test builds by hand: `to_be_bytes` of each integer, and
      each string's length before its bytes. */
  function Encode(row: seq<ScalarRef>): (r: seq<byte>)
    requires Encodable(row)
  {
    if |row| == 0 then []
    else
      match row[0]
      case Int64Val(i) => BeBytes(ToUnsigned(i, 8), 8) + Encode(row[1..])
      case StrVal(bs) => BeBytes(|bs|, 8) + bs + Encode(row[1..])
  }

  predicate Encodable(row: seq<ScalarRef>) {
    forall k :: 0 <= k < |row| ==> EncodableScalar(row[k])
  }

  /** An `i64`, or a string whose length fits the `u64` prefix. */
  predicate EncodableScalar(v: ScalarRef) {
    match v
    case Int64Val(i) => FitsSigned(i, 8)
    case StrVal(bs) => |bs| < Pow256(8)
  }

  function Prepend(v: ScalarRef, r: Outcome<seq<ScalarRef>>): Outcome<seq<ScalarRef>> {
    match r
    case Panic(m) => Panic(m)
    case Done(vs) => Done([v] + vs)
  }

  lemma DecodeInt(i: int, tail: seq<byte>, schema: seq<DataType>)
    requires FitsSigned(i, 8)
    ensures Deserialize(BeBytes(ToUnsigned(i, 8), 8) + tail, [Int64] + schema)
      == Prepend(Int64Val(i), Deserialize(tail, schema))
  {
    var w := BeBytes(ToUnsigned(i, 8), 8);
    var buf := w + tail;
    assert buf[..8] == w && buf[8..] == tail;
    BeValueOfBeBytes(ToUnsigned(i, 8), 8);
    assert ([Int64] + schema)[1..] == schema;
  }

  lemma DecodeStr(bs: seq<byte>, tail: seq<byte>, schema: seq<DataType>)
    requires |bs| < Pow256(8)
    ensures Deserialize(BeBytes(|bs|, 8) + bs + tail, [Str] + schema)
      == Prepend(StrVal(bs), Deserialize(tail, schema))
  {
    var w := BeBytes(|bs|, 8);
    var buf := w + bs + tail;
    assert buf[..8] == w && buf[8..] == bs + tail;
    BeValueOfBeBytes(|bs|, 8);
    assert (bs + tail)[..|bs|] == bs && (bs + tail)[|bs|..] == tail;
    assert ([Str] + schema)[1..] == schema;
  }

  function SchemaOf(row: seq<ScalarRef>): (r: seq<DataType>)
    ensures |r| == |row|
  {
    seq(|row|, k requires 0 <= k < |row| => if row[k].Int64Val? then Int64 else Str)
  }

  /** Decoding an encoded row, whatever follows it, gives the row back. */
  lemma {:induction false} DeserializeEncode(row: seq<ScalarRef>, trailing: seq<byte>)
    requires Encodable(row)
    ensures Deserialize(Encode(row) + trailing, SchemaOf(row)) == Done(row)
    decreases |row|
  {
    if |row| > 0 {
      EncodableTail(row);
      DeserializeEncode(row[1..], trailing);
      DecodeHead(row, trailing);
    }
  }

  /** One inductive step: the first field decodes in front of the rest. */
  lemma DecodeHead(row: seq<ScalarRef>, trailing: seq<byte>)
    requires Encodable(row) && |row| > 0
    requires Deserialize(Encode(row[1..]) + trailing, SchemaOf(row[1..])) == Done(row[1..])
    ensures Deserialize(Encode(row) + trailing, SchemaOf(row)) == Done(row)
  {
    assert EncodableScalar(row[0]);
    if row[0].Int64Val? {
      DecodeHeadInt(row, trailing);
    } else {
      DecodeHeadStr(row, trailing);
    }
  }

  lemma DecodeHeadInt(row: seq<ScalarRef>, trailing: seq<byte>)
    requires Encodable(row) && |row| > 0 && row[0].Int64Val? && FitsSigned(row[0].i, 8)
    requires Deserialize(Encode(row[1..]) + trailing, SchemaOf(row[1..])) == Done(row[1..])
    ensures Deserialize(Encode(row) + trailing, SchemaOf(row)) == Done(row)
  {
    var tail := row[1..];
    var i := row[0].i;
    var w := BeBytes(ToUnsigned(i, 8), 8);
    var rest := Encode(tail) + trailing;
    assert SchemaOf(row) == [Int64] + SchemaOf(tail);
    assert Encode(row) + trailing == w + rest;
    assert Deserialize(w + rest, [Int64] + SchemaOf(tail)) == Done(row) by {
      DecodeInt(i, rest, SchemaOf(tail));
      ConsTail(row);
    }
  }

  lemma DecodeHeadStr(row: seq<ScalarRef>, trailing: seq<byte>)
    requires Encodable(row) && |row| > 0 && row[0].StrVal? && |row[0].bytes| < Pow256(8)
    requires Deserialize(Encode(row[1..]) + trailing, SchemaOf(row[1..])) == Done(row[1..])
    ensures Deserialize(Encode(row) + trailing, SchemaOf(row)) == Done(row)
  {
    var tail := row[1..];
    var bs := row[0].bytes;
    var w := BeBytes(|bs|, 8);
    var rest := Encode(tail) + trailing;
    assert SchemaOf(row) == [Str] + SchemaOf(tail);
    assert Encode(row) + trailing == w + bs + rest;
    assert Deserialize(w + bs + rest, [Str] + SchemaOf(tail)) == Done(row) by {
      DecodeStr(bs, rest, SchemaOf(tail));
      ConsTail(row);
    }
  }

  lemma EncodableTail(row: seq<ScalarRef>)
    requires Encodable(row) && |row| > 0
    ensures EncodableScalar(row[0]) && Encodable(row[1..])
  {
    var tail := row[1..];
    forall k | 0 <= k < |tail| ensures EncodableScalar(tail[k]) {
      assert tail[k] == row[k + 1];
    }
  }

  lemma ConsTail<T>(s: seq<T>)
    requires |s| > 0
    ensures [s[0]] + s[1..] == s
  {
  }

  /** The last two fields of the test's row: a string, then an integer. */
  lemma StrThenInt(bs: seq<byte>, i3: int, t: seq<byte>)
    requires FitsSigned(i3, 8) && |bs| < Pow256(8)
    requires t == BeBytes(|bs|, 8) + bs + BeBytes(ToUnsigned(i3, 8), 8)
    ensures Deserialize(t, [Str, Int64]) == Done([StrVal(bs), Int64Val(i3)])
  {
    var c := BeBytes(ToUnsigned(i3, 8), 8);
    DecodeInt(i3, [], []);
    assert c + [] == c && [Int64] + [] == [Int64];
    assert Deserialize([], []) == Done([]);
    assert [Int64Val(i3)] + [] == [Int64Val(i3)];
    DecodeStr(bs, c, [Int64]);
    assert [Str] + [Int64] == [Str, Int64];
    Cons2(StrVal(bs), Int64Val(i3));
  }

  /** The shape of the test's row: two integers, a string and an integer,
      written out field by field, decode back to themselves. */
  lemma RowOfFour(i1: int, i2: int, bs: seq<byte>, i3: int, buf: seq<byte>, schema: seq<DataType>)
    requires FitsSigned(i1, 8) && FitsSigned(i2, 8) && FitsSigned(i3, 8) && |bs| < Pow256(8)
    requires buf == BeBytes(ToUnsigned(i1, 8), 8) + BeBytes(ToUnsigned(i2, 8), 8) + BeBytes(|bs|, 8) + bs
                    + BeBytes(ToUnsigned(i3, 8), 8)
    requires schema == [Int64, Int64, Str, Int64]
    ensures Deserialize(buf, schema) == Done([Int64Val(i1), Int64Val(i2), StrVal(bs), Int64Val(i3)])
  {
    var a, b, c := BeBytes(ToUnsigned(i1, 8), 8), BeBytes(ToUnsigned(i2, 8), 8), BeBytes(ToUnsigned(i3, 8), 8);
    var n := BeBytes(|bs|, 8);
    var t3, t2 := n + bs + c, b + (n + bs + c);
    StrThenInt(bs, i3, t3);
    var s2, s1: seq<DataType> := [Str, Int64], [Int64, Str, Int64];
    assert [Int64] + s2 == s1 && [Int64] + s1 == schema;
    DecodeInt(i2, t3, s2);
    Cons3(Int64Val(i2), StrVal(bs), Int64Val(i3));
    DecodeInt(i1, t2, s1);
    Cons4(Int64Val(i1), Int64Val(i2), StrVal(bs), Int64Val(i3));
    Regroup(a, b, n, bs, c);
  }

  lemma Cons1<T>(x: T)
    ensures [x] + [] == [x]
  {
  }

  lemma Cons2<T>(x: T, y: T)
    ensures [x] + [y] == [x, y]
  {
  }

  lemma Cons3<T>(x: T, y: T, z: T)
    ensures [x] + [y, z] == [x, y, z]
  {
  }

  lemma Cons4<T>(w: T, x: T, y: T, z: T)
    ensures [w] + [x, y, z] == [w, x, y, z]
  {
  }

  lemma Regroup(a: seq<byte>, b: seq<byte>, c: seq<byte>, d: seq<byte>, e: seq<byte>)
    ensures a + b + c + d + e == a + (b + (c + d + e))
  {
  }

  /** The row of the test: 233, 114514, "hello, world" and 1919810 under the
      schema [Int64, Int64, String, Int64]. */
  lemma TestRow(hello: seq<byte>)
    requires hello == [104, 101, 108, 108, 111, 44, 32, 119, 111, 114, 108, 100]
    ensures var bytes := BeBytes(233, 8) + BeBytes(114514, 8) + BeBytes(12, 8) + hello + BeBytes(1919810, 8);
      Deserialize(bytes, [Int64, Int64, Str, Int64])
        == Done([Int64Val(233), Int64Val(114514), StrVal(hello), Int64Val(1919810)])
  {
    Pow256Eight();
    assert FitsSigned(233, 8) && FitsSigned(114514, 8) && FitsSigned(1919810, 8);
    assert ToUnsigned(233, 8) == 233 && ToUnsigned(114514, 8) == 114514 && ToUnsigned(1919810, 8) == 1919810;
    RowOfFour(233, 114514, hello, 1919810, BeBytes(233, 8) + BeBytes(114514, 8) + BeBytes(12, 8) + hello + BeBytes(1919810, 8),
      [Int64, Int64, Str, Int64]);
  }

  lemma Pow256Eight()
    ensures Pow256(8) == 0x1_0000_0000_0000_0000
  {
    assert Pow256(1) == 256;
    assert Pow256(2) == 0x1_0000;
    assert Pow256(4) == 0x1_0000_0000 by {
      assert Pow256(3) == 0x100_0000;
    }
    assert Pow256(6) == 0x1_0000_0000_0000 by {
      assert Pow256(5) == 0x100_0000_0000;
    }
    assert Pow256(7) == 0x100_0000_0000_0000;
  }
}
