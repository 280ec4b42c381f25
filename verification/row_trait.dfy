/** Row views (`row_trait.rs`): a row is anything with a length and random
    access to datum references. A chunk row reads one index across the
    columns, a datum vector reads its own elements, a concatenation reads its
    left part then its right part, and a map row reads its inner row through an
    index list. Out-of-range indexing is a panic. */
module RowTrait {
  import opened Common

  datatype Datum = DString(s: string) | DArray(a: seq<byte>)

  datatype DatumRef = RString(s: string) | RArray(a: seq<byte>)

  /** `Datum::to_ref`. */
  function ToRef(d: Datum): (r: DatumRef)
    ensures r.RString? <==> d.DString?
  {
    match d
    case DString(s) => RString(s)
    case DArray(a) => RArray(a)
  }

  /** The owned datum a reference borrows from. */
  function Owned(r: DatumRef): Datum {
    match r
    case RString(s) => DString(s)
    case RArray(a) => DArray(a)
  }

  /** `to_ref` keeps the variant and the contents: the borrowed reference
      leads back to the same datum. */
  lemma ToRefRoundTrip(d: Datum)
    ensures Owned(ToRef(d)) == d
    ensures ToRef(Owned(ToRef(d))) == ToRef(d)
  {
  }

  datatype Row =
    | ChunkRow(columns: seq<seq<Datum>>, index: nat)
    | VecRow(data: seq<Datum>)
    | VecRefRow(refs: seq<DatumRef>)
    | Concat(left: Row, right: Row)
    | Map(inner: Row, indices: seq<nat>)

  const IndexPanic := "index out of bounds"

  /** `Row::len`. */
  function Len(row: Row): nat {
    match row
    case ChunkRow(columns, _) => |columns|
    case VecRow(data) => |data|
    case VecRefRow(refs) => |refs|
    case Concat(l, r) => Len(l) + Len(r)
    case Map(_, indices) => |indices|
  }

  /** `Row::datum_ref_at`. */
  function At(row: Row, i: nat): (r: Outcome<DatumRef>)
  {
    match row
    case ChunkRow(columns, index) =>
      if i < |columns| && index < |columns[i]| then Done(ToRef(columns[i][index])) else Panic(IndexPanic)
    case VecRow(data) =>
      if i < |data| then Done(ToRef(data[i])) else Panic(IndexPanic)
    case VecRefRow(refs) =>
      if i < |refs| then Done(refs[i]) else Panic(IndexPanic)
    case Concat(l, r) =>
      if i < Len(l) then At(l, i) else At(r, i - Len(l))
    case Map(inner, indices) =>
      if i < |indices| then At(inner, indices[i]) else Panic(IndexPanic)
  }

  /** A row all of whose positions below `Len` can be read: the chunk row's
      index exists in every column and every map index is in range. */
  predicate Valid(row: Row) {
    match row
    case ChunkRow(columns, index) => forall c :: 0 <= c < |columns| ==> index < |columns[c]|
    case VecRow(_) => true
    case VecRefRow(_) => true
    case Concat(l, r) => Valid(l) && Valid(r)
    case Map(inner, indices) => Valid(inner) && forall k :: 0 <= k < |indices| ==> indices[k] < Len(inner)
  }

  /** The row as a plain list, built from whole lists: a chunk row is its
      column slice, a concatenation the two lists joined, a map row the inner
      list permuted by the indices. */
  function View(row: Row): (r: seq<DatumRef>)
    requires Valid(row)
    ensures |r| == Len(row)
  {
    match row
    case ChunkRow(columns, index) => seq(|columns|, c requires 0 <= c < |columns| => ToRef(columns[c][index]))
    case VecRow(data) => seq(|data|, k requires 0 <= k < |data| => ToRef(data[k]))
    case VecRefRow(refs) => refs
    case Concat(l, r) => View(l) + View(r)
    case Map(inner, indices) =>
      var v := View(inner);
      seq(|indices|, k requires 0 <= k < |indices| => v[indices[k]])
  }

  /** Random access agrees with the list view: every position below the
      length reads the view's element, and every position at or past it
      panics. */
  lemma {:induction false} AtMatchesView(row: Row, i: nat)
    requires Valid(row)
    ensures i < Len(row) ==> At(row, i) == Done(View(row)[i])
    ensures i >= Len(row) && !row.Concat? ==> At(row, i).Panic?
    decreases row
  {
    match row
    case Concat(l, r) =>
      if i < Len(l) {
        AtMatchesView(l, i);
      } else {
        AtMatchesView(r, i - Len(l));
      }
    case Map(inner, indices) =>
      if i < |indices| {
        AtMatchesView(inner, indices[i]);
      }
    case _ =>
  }

  /** Past the end a concatenation reads past the end of its right part. */
  lemma {:induction false} AtPastEnd(row: Row, i: nat)
    requires Valid(row) && i >= Len(row)
    ensures At(row, i).Panic?
    decreases row
  {
    if row.Concat? {
      AtPastEnd(row.right, i - Len(row.left));
    } else {
      AtMatchesView(row, i);
    }
  }

  /** The last row printed by the demo: the first datum of `r1`, then `r2`,
      then the chunk row at index 1 mapped through column 0. */
  lemma DemoRow()
    ensures var r1 := VecRow([DString("hello"), DArray([1, 2, 3])]);
      var r2 := VecRefRow([RString("world"), RArray([4, 5, 6])]);
      var r3 := ChunkRow([[DString("rising"), DString("wave")]], 1);
      var row := Concat(Concat(Map(r1, [0]), r2), Map(r3, [0]));
      Valid(row) && View(row) == [RString("hello"), RString("world"), RArray([4, 5, 6]), RString("wave")]
  {
  }
}
