/** Two ways of building a storage key (`benches/discontinuous.rs`): by
    chaining borrowed buffers (`buf::write`) and by concatenating owned
    vectors (`v::write`). Both lay out the table id, the vnode, the user key
    and the epoch, in that order. A chained buffer is a tree of slices read
    front to back; `copy_to_bytes` reads a given number of bytes from it. */
module Discontinuous {
  import opened Common

  /** `233u8.to_be_bytes()`. */
  const Vnode: seq<byte> := [233]

  /** `b"t2333"`. */
  const TableId: seq<byte> := [0x74, 0x32, 0x33, 0x33, 0x33]

  /** `666u64.to_be_bytes()`. */
  const Epoch: seq<byte> := [0, 0, 0, 0, 0, 0, 2, 154]

  lemma EpochIsBigEndian666()
    ensures Pow256(8) == 0x1_0000_0000_0000_0000
    ensures Epoch == BeBytes(666, 8)
  {
  }

  datatype Buf = Slice(bytes: seq<byte>) | Chain(first: Buf, second: Buf)

  /** `Buf::remaining`. */
  function Remaining(b: Buf): nat {
    match b
    case Slice(bs) => |bs|
    case Chain(x, y) => Remaining(x) + Remaining(y)
  }

  /** Every byte of a buffer, in reading order. */
  function Contents(b: Buf): (r: seq<byte>)
    ensures |r| == Remaining(b)
  {
    match b
    case Slice(bs) => bs
    case Chain(x, y) => Contents(x) + Contents(y)
  }

  /** `Buf::copy_to_bytes(n)`: the next `n` bytes, the first part of a chain
      before the second; asking for more than remains panics. */
  function CopyToBytes(b: Buf, n: nat): (r: Outcome<seq<byte>>)
    ensures r.Done? <==> n <= Remaining(b)
    ensures r.Done? ==> r.value == Contents(b)[..n]
  {
    if n > Remaining(b) then Panic("`len` greater than remaining")
    else
      match b
      case Slice(bs) => Done(bs[..n])
      case Chain(x, y) =>
        if n <= Remaining(x) then CopyToBytes(x, n)
        else
          var rest := CopyToBytes(y, n - Remaining(x)).value;
          assert Contents(b)[..n] == Contents(x) + Contents(y)[..n - Remaining(x)];
          Done(Contents(x) + rest)
  }

  /** `buf::write` and the writers it calls: the key, chained after the vnode,
      after the table id, followed by the epoch, then copied out in full. */
  function BufWrite(key: seq<byte>): (r: seq<byte>)
    ensures r == TableId + Vnode + key + Epoch
  {
    var b1 := Chain(Slice(Vnode), Slice(key));
    var b2 := Chain(Slice(TableId), b1);
    var b3 := Chain(b2, Slice(Epoch));
    assert Contents(b1) == Vnode + key;
    assert Contents(b2) == TableId + Vnode + key;
    assert Contents(b3) == TableId + Vnode + key + Epoch;
    assert Contents(b3)[..Remaining(b3)] == Contents(b3);
    CopyToBytes(b3, Remaining(b3)).value
  }

  /** `v::write` and the writers it calls: vector concatenation and an
      extend. */
  function VecWrite(key: seq<byte>): (r: seq<byte>)
    ensures |r| == |key| + 14
    ensures r[..5] == TableId && r[5] == 233 && r[6..6 + |key|] == key && r[6 + |key|..] == Epoch
  {
    var b1 := Vnode + key;
    var b2 := TableId + b1;
    b2 + Epoch
  }

  /** Both writers produce the same bytes: table id, vnode, key, epoch; the
      full key is 14 bytes longer than the user key. */
  lemma WritersAgree(key: seq<byte>)
    ensures BufWrite(key) == VecWrite(key)
    ensures BufWrite(key) == TableId + Vnode + key + Epoch
    ensures |BufWrite(key)| == |key| + 14
    ensures BufWrite(key)[..5] == TableId && BufWrite(key)[5] == 233
    ensures BufWrite(key)[6..6 + |key|] == key && BufWrite(key)[6 + |key|..] == Epoch
  {
    var r := TableId + Vnode + key + Epoch;
    var b3 := Chain(Chain(Slice(TableId), Chain(Slice(Vnode), Slice(key))), Slice(Epoch));
    assert Contents(Chain(Slice(Vnode), Slice(key))) == Vnode + key;
    assert Contents(Chain(Slice(TableId), Chain(Slice(Vnode), Slice(key)))) == TableId + (Vnode + key);
    assert Contents(b3) == TableId + (Vnode + key) + Epoch;
    assert Contents(b3)[..Remaining(b3)] == Contents(b3);
    assert TableId + (Vnode + key) + Epoch == r;
    assert r[..5] == TableId;
    assert r[6..6 + |key|] == key;
    assert r[6 + |key|..] == Epoch;
  }

  /** Key `i`: its eight big-endian bytes, four times over. */
  function Key(i: nat): (k: seq<byte>)
    requires i < Pow256(8)
    ensures |k| == 32
  {
    var b := BeBytes(i, 8);
    b + b + b + b
  }

  /** `keys()`: keys 0 to 9999. */
  function Keys(): (ks: seq<seq<byte>>)
    ensures |ks| == 10000
  {
    EpochIsBigEndian666();
    seq(10000, i requires 0 <= i < 10000 => Key(i))
  }

  /** Bytes `8q` to `8q + 7` of a 32-byte key. */
  function Quarter(k: seq<byte>, q: nat): (r: seq<byte>)
    requires |k| == 32 && q < 4
    ensures |r| == 8
  {
    k[8 * q..8 * q + 8]
  }

  /** Every quarter of key `i` reads back as `i`, so the keys are pairwise
      distinct. */
  lemma KeysLayout()
    ensures forall i, q :: 0 <= i < 10000 && 0 <= q < 4 ==> BeValue(Quarter(Keys()[i], q)) == i
    ensures NoDup(Keys())
  {
    EpochIsBigEndian666();
    var ks := Keys();
    forall i, q | 0 <= i < 10000 && 0 <= q < 4 ensures BeValue(Quarter(ks[i], q)) == i {
      var b := BeBytes(i, 8);
      assert ks[i] == b + b + b + b;
      assert Quarter(ks[i], q) == b;
      BeValueOfBeBytes(i, 8);
    }
    forall i, j | 0 <= i < j < 10000 ensures ks[i] != ks[j] {
      assert BeValue(Quarter(ks[i], 0)) == i;
      assert BeValue(Quarter(ks[j], 0)) == j;
    }
  }
}
