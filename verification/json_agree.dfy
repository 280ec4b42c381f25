/** The two grammars accept exactly the same documents and build the same
    values from them. They differ only in how they fail: where the grammar
    with cuts stops at a cut, the plain one fails recoverably, possibly at
    another position; every other failure is the same in both. */
module JsonAgree {
  import opened Common
  import opened JsonCommon
  import A = WinnowJson
  import B = WinnowJsonPlain

  /** `b` (plain grammar) matches `a` (grammar with cuts): the same success
      or recoverable failure, and a recoverable failure for a cut. */
  predicate Agrees<T(==)>(a: PResult<T>, b: PResult<T>) {
    && (a.Ok? || a.Backtrack? ==> b == a)
    && (a.Cut? ==> b.Backtrack?)
  }

  lemma CharAgrees(s: string, p: nat)
    requires p <= |s|
    ensures Agrees(A.Char(s, p), B.Char(s, p))
  {
  }

  /** Where the characters stop at a cut (an invalid escape), the plain
      grammar stops at the backslash before it. */
  lemma {:induction false} CharsAgree(s: string, p: nat)
    requires p <= |s|
    ensures A.Chars(s, p).Ok? ==> B.Chars(s, p) == A.Chars(s, p)
    ensures A.Chars(s, p).Cut? ==> B.Chars(s, p).next == A.Chars(s, p).at - 1
    decreases |s| - p
  {
    var c := A.Char(s, p);
    CharAgrees(s, p);
    if c.Ok? {
      CharsAgree(s, c.next);
    }
  }

  lemma StringAgrees(s: string, p: nat)
    requires p <= |s|
    ensures Agrees(A.StringLit(s, p), B.StringLit(s, p))
  {
    if At(s, p, '"') {
      CharsAgree(s, p + 1);
    }
  }

  lemma {:induction false} KeyValueAgrees(s: string, p: nat)
    requires p <= |s|
    ensures Agrees(A.KeyValue(s, p), B.KeyValue(s, p))
    decreases |s| - p, 0
  {
    StringAgrees(s, p);
    var key := A.StringLit(s, p);
    if key.Ok? && At(s, Ws(s, key.next), ':') {
      ValueAgrees(s, Ws(s, Ws(s, key.next) + 1));
    }
    KeyValueCombine(s, p);
  }

  /** `key_value` agrees once its key and its value do. */
  lemma KeyValueCombine(s: string, p: nat)
    requires p <= |s|
    requires Agrees(A.StringLit(s, p), B.StringLit(s, p))
    requires var key := A.StringLit(s, p);
      key.Ok? && At(s, Ws(s, key.next), ':') ==>
        var q := Ws(s, Ws(s, key.next) + 1);
        Agrees(A.Value(s, q), B.Value(s, q))
    ensures Agrees(A.KeyValue(s, p), B.KeyValue(s, p))
  {
    var key := A.StringLit(s, p);
    if key.Ok? {
      assert B.StringLit(s, p) == key;
      var q1 := Ws(s, key.next);
      if At(s, q1, ':') {
        var q2 := Ws(s, q1 + 1);
        var v := A.Value(s, q2);
        if v.Ok? {
          assert B.Value(s, q2) == v;
        } else {
          assert B.Value(s, q2).Backtrack?;
        }
      }
    }
  }

  lemma {:induction false} ElementAgrees(s: string, p: nat)
    requires p <= |s|
    ensures Agrees(A.Element(s, p), B.Element(s, p))
    decreases |s| - p, 1
  {
    KeyValueAgrees(s, Ws(s, p));
  }

  /** An element that fails with a cut starts, after whitespace, with a
      quote; so the position before it is not a closing brace. */
  lemma CutElementNotBrace(s: string, p: nat)
    requires p <= |s| && A.Element(s, p).Cut?
    ensures !At(s, p, '}')
  {
  }

  /** Where the members stop at a cut, the plain grammar's members end at a
      position that does not close the object. */
  lemma {:induction false} MembersAgree(s: string, p: nat)
    requires p <= |s|
    ensures A.Members(s, p).Ok? ==> B.Members(s, p) == A.Members(s, p)
    ensures A.Members(s, p).Cut? ==> !At(s, B.Members(s, p).next, '}')
    decreases |s| - p, 2
  {
    ElementAgrees(s, p);
    var e := A.Element(s, p);
    if e.Cut? {
      CutElementNotBrace(s, p);
    } else if e.Ok? {
      MoreMembersAgree(s, e.next, map[e.value.0 := e.value.1]);
    }
  }

  lemma {:induction false} MoreMembersAgree(s: string, p: nat, acc: map<string, Json>)
    requires p <= |s| && FieldsOk(acc)
    ensures A.MoreMembers(s, p, acc).Ok? ==> B.MoreMembers(s, p, acc) == A.MoreMembers(s, p, acc)
    ensures A.MoreMembers(s, p, acc).Cut? ==> !At(s, B.MoreMembers(s, p, acc).next, '}')
    decreases |s| - p, 2
  {
    if At(s, p, ',') {
      ElementAgrees(s, p + 1);
      var e := A.Element(s, p + 1);
      if e.Ok? {
        MoreMembersAgree(s, e.next, acc[e.value.0 := e.value.1]);
      }
    }
  }

  lemma {:induction false} ObjectAgrees(s: string, p: nat)
    requires p <= |s|
    ensures Agrees(A.ObjectLit(s, p), B.ObjectLit(s, p))
    decreases |s| - p, 3
  {
    if At(s, p, '{') {
      MembersAgree(s, p + 1);
    }
  }

  lemma {:induction false} ValueAgrees(s: string, p: nat)
    requires p <= |s|
    ensures Agrees(A.Value(s, p), B.Value(s, p))
    decreases |s| - p, 4
  {
    StringAgrees(s, p);
    ObjectAgrees(s, p);
  }

  lemma DocAgrees(s: string, p: nat)
    requires p <= |s|
    ensures Agrees(A.Doc(s, p), B.Doc(s, p))
  {
    ValueAgrees(s, Ws(s, p));
  }

  /** A document parses under one grammar exactly when it parses under the
      other, to the same value; a failure that is not a cut is reported at the
      same position by both. */
  lemma ParseAgrees(s: string)
    ensures A.Parse(s).Parsed? <==> B.Parse(s).Parsed?
    ensures A.Parse(s).Parsed? ==> A.Parse(s) == B.Parse(s)
    ensures !A.Doc(s, 0).Cut? ==> A.Parse(s) == B.Parse(s)
  {
    DocAgrees(s, 0);
  }
}
