/** The documented examples of both grammars (the `test` functions of
    `winnow_json.rs` and `winnow_json/main.rs`). Each input is a raw string
    that starts with a line feed and eight spaces, so the character at offset
    `c` is the one an error message reports at line 2, column `c`. The inputs
    are spelled as concatenations of short pieces; the comment above each
    gives the text. */
module JsonExamples {
  import opened Common
  import opened JsonCommon
  import A = WinnowJson
  import B = WinnowJsonPlain
  import JsonAgree

  /** The line feed and eight spaces that open and close every input. */
  const Margin := "\n        "

  /** A string literal with nothing to escape. */
  function Q(str: string): (r: string)
    ensures |r| == |str| + 2 && r[0] == '"' && r[|r| - 1] == '"'
  {
    "\"" + str + "\""
  }

  lemma MarginIsWs(s: string, p: nat)
    requires HasAt(s, p, Margin)
    ensures forall i :: p <= i < p + 9 ==> IsWs(s[i])
  {
    forall i | p <= i < p + 9 ensures IsWs(s[i]) {
      assert s[i] == Margin[i - p];
    }
  }

  /** An input is its body between two margins, which `ws` skips. */
  lemma Margins(s: string, body: string)
    requires s == Margin + body + Margin && |body| > 0 && !IsWs(body[0])
    ensures |s| == |body| + 18 && HasAt(s, 9, body)
    ensures Ws(s, 0) == 9 && Ws(s, 9 + |body|) == |s|
  {
    assert HasAt(s, 0, (Margin + body) + Margin);
    HasAtSplit(s, 0, Margin + body, Margin);
    HasAtSplit(s, 0, Margin, body);
    MarginIsWs(s, 0);
    MarginIsWs(s, 9 + |body|);
    WsSkips(s, 0, 9);
    WsSkips(s, 9 + |body|, |s|);
  }

  /** The two characters of a two-character piece. */
  lemma Pair(s: string, p: nat, t: string)
    requires HasAt(s, p, t) && |t| == 2
    ensures s[p] == t[0] && s[p + 1] == t[1]
  {
    assert s[p..p + 2][0] == s[p] && s[p..p + 2][1] == s[p + 1];
  }

  /** Nothing in `str` needs escaping. */
  predicate Plain(str: string) {
    forall i :: 0 <= i < |str| ==> str[i] != '"' && str[i] != '\\' && str[i] != '\n'
  }

  lemma PlainWords()
    ensures Plain("abc") && Plain("def") && Plain("foo") && Plain("hello") && Plain("world")
  {
  }

  /** A string literal with nothing escaped reads back as its contents in
      both grammars. */
  lemma Quoted(s: string, p: nat, str: string)
    requires Plain(str)
    requires HasAt(s, p, Q(str))
    ensures s[p] == '"' && s[p + |str| + 1] == '"'
    ensures A.StringLit(s, p) == Ok(str, p + |str| + 2)
    ensures B.StringLit(s, p) == Ok(str, p + |str| + 2)
  {
    assert s[p..p + |str| + 2][0] == s[p];
    assert s[p..p + |str| + 2][|str| + 1] == s[p + |str| + 1];
    EscapeAllPlain(str);
    A.QuoteRoundTrip(s, p, str);
    B.QuoteRoundTrip(s, p, str);
  }

  /** `"hello"` */
  const Hello := Q("hello")

  /** `"hello"` is the string `hello`. */
  lemma HelloExample(s: string)
    requires s == Margin + Hello + Margin
    ensures A.Parse(s) == Parsed(String("hello"))
  {
    PlainWords();
    Margins(s, Hello);
    Quoted(s, 9, "hello");
  }

  /** `{ "abc": "def" }` */
  const OneField := "{ " + Q("abc") + ": " + Q("def") + " }"

  /** `{ "abc": "def" }` is an object with one string field. */
  lemma OneFieldExample(s: string)
    requires s == Margin + OneField + Margin
    ensures A.Parse(s) == Parsed(Object(map["abc" := String("def")]))
  {
    PlainWords();
    Margins(s, OneField);
    HasAtSplit(s, 9, "{ " + Q("abc") + ": " + Q("def"), " }");
    FieldPieces(s);
    Pair(s, 9, "{ ");
    Pair(s, 16, ": ");
    Pair(s, 23, " }");
    Quoted(s, 11, "abc");
    Quoted(s, 18, "def");
    KeyValueWs(s, 10);
    WsSkips(s, 23, 24);
    OneFieldSteps(s);
  }

  lemma OneFieldSteps(s: string)
    requires |s| == 34 && s[9] == '{' && s[16] == ':' && s[24] == '}'
    requires Ws(s, 0) == 9 && Ws(s, 25) == 34
    requires Ws(s, 10) == 11 && Ws(s, 16) == 16 && Ws(s, 17) == 18 && Ws(s, 23) == 24
    requires A.StringLit(s, 11) == Ok("abc", 16) && A.StringLit(s, 18) == Ok("def", 23)
    ensures A.Parse(s) == Parsed(Object(map["abc" := String("def")]))
  {
    assert A.Value(s, 18) == Ok(String("def"), 23);
    assert A.KeyValue(s, 11) == Ok(("abc", String("def")), 23);
    assert A.Element(s, 10) == Ok(("abc", String("def")), 24);
    assert A.Members(s, 10) == Ok(map["abc" := String("def")], 24);
    assert A.ObjectLit(s, 9) == Ok(map["abc" := String("def")], 25);
  }

  /** `{ "abc": "def", ` and `"foo": { "hello": "world" } }`: the two halves
      of the nested example, at offsets 9 and 25. */
  const NestedHead := "{ " + Q("abc") + ": " + Q("def") + ", "
  const NestedTail := Q("foo") + ": " + "{ " + Q("hello") + ": " + Q("world") + " }" + " }"
  const Nested := NestedHead + NestedTail

  /** `{ "abc": "def", "foo": { "hello": "world" } }`: objects nest. */
  lemma NestedExample(s: string)
    requires s == Margin + Nested + Margin
    ensures A.Parse(s) == Parsed(Object(map["abc" := String("def"), "foo" := Object(map["hello" := String("world")])]))
  {
    Margins(s, Nested);
    HasAtSplit(s, 9, NestedHead, NestedTail);
    TailValue(s);
    NestedSteps(s);
  }

  /** The second member, `"foo": { "hello": "world" }`, read from offset 25. */
  lemma TailValue(s: string)
    requires |s| == 63 && HasAt(s, 25, NestedTail)
    ensures s[25] == '"' && s[53] == '}' && Ws(s, 52) == 53
    ensures A.KeyValue(s, 25) == Ok(("foo", Object(map["hello" := String("world")])), 52)
  {
    TailFacts(s);
    NestedInner(s);
  }

  lemma HeadFacts(s: string)
    requires HasAt(s, 9, NestedHead)
    ensures s[9] == '{' && s[16] == ':' && s[23] == ',' && s[24] == ' '
    ensures Ws(s, 10) == 11 && Ws(s, 16) == 16 && Ws(s, 17) == 18 && Ws(s, 23) == 23
    ensures A.StringLit(s, 11) == Ok("abc", 16) && A.StringLit(s, 18) == Ok("def", 23)
  {
    PlainWords();
    HasAtSplit(s, 9, "{ " + Q("abc") + ": " + Q("def"), ", ");
    FieldPieces(s);
    Pair(s, 9, "{ ");
    Pair(s, 16, ": ");
    Pair(s, 23, ", ");
    Quoted(s, 11, "abc");
    Quoted(s, 18, "def");
    KeyValueWs(s, 10);
    WsSkips(s, 23, 23);
  }

  /** The pieces of `{ "abc": "def"` at offset 9. */
  lemma FieldPieces(s: string)
    requires HasAt(s, 9, "{ " + Q("abc") + ": " + Q("def"))
    ensures HasAt(s, 9, "{ ") && HasAt(s, 11, Q("abc")) && HasAt(s, 16, ": ") && HasAt(s, 18, Q("def"))
  {
    HasAtSplit(s, 9, "{ " + Q("abc") + ": ", Q("def"));
    HasAtSplit(s, 9, "{ " + Q("abc"), ": ");
    HasAtSplit(s, 9, "{ ", Q("abc"));
  }

  /** Around `"abc": "def"` at `p + 1`, with a space before it: where `ws`
      stops. */
  lemma KeyValueWs(s: string, p: nat)
    requires p + 8 < |s| && s[p] == ' ' && s[p + 1] == '"' && s[p + 6] == ':' && s[p + 7] == ' ' && s[p + 8] == '"'
    ensures Ws(s, p) == p + 1 && Ws(s, p + 6) == p + 6 && Ws(s, p + 7) == p + 8
  {
    WsSkips(s, p, p + 1);
    WsSkips(s, p + 6, p + 6);
    WsSkips(s, p + 7, p + 8);
  }

  lemma TailFacts(s: string)
    requires HasAt(s, 25, NestedTail)
    ensures s[25] == '"' && s[30] == ':' && s[32] == '{' && s[41] == ':' && s[51] == '}' && s[53] == '}'
    ensures Ws(s, 30) == 30 && Ws(s, 31) == 32 && Ws(s, 33) == 34
    ensures Ws(s, 41) == 41 && Ws(s, 42) == 43 && Ws(s, 50) == 51 && Ws(s, 52) == 53
    ensures A.StringLit(s, 25) == Ok("foo", 30) && A.StringLit(s, 34) == Ok("hello", 41)
    ensures A.StringLit(s, 43) == Ok("world", 50)
  {
    PlainWords();
    TailPieces(s);
    Quoted(s, 25, "foo");
    Quoted(s, 34, "hello");
    Quoted(s, 43, "world");
    Pair(s, 30, ": ");
    Pair(s, 32, "{ ");
    Pair(s, 41, ": ");
    Pair(s, 50, " }");
    Pair(s, 52, " }");
    TailWsOuter(s);
    TailWsInner(s);
  }

  lemma TailPieces(s: string)
    requires HasAt(s, 25, NestedTail)
    ensures HasAt(s, 25, Q("foo")) && HasAt(s, 30, ": ") && HasAt(s, 32, "{ ") && HasAt(s, 34, Q("hello"))
    ensures HasAt(s, 41, ": ") && HasAt(s, 43, Q("world")) && HasAt(s, 50, " }") && HasAt(s, 52, " }")
  {
    var t1 := Q("foo") + ": " + "{ ";
    var t2 := t1 + Q("hello") + ": " + Q("world");
    HasAtSplit(s, 25, t2 + " }", " }");
    HasAtSplit(s, 25, t2, " }");
    HasAtSplit(s, 25, t1 + Q("hello") + ": ", Q("world"));
    HasAtSplit(s, 25, t1 + Q("hello"), ": ");
    HasAtSplit(s, 25, t1, Q("hello"));
    HasAtSplit(s, 25, Q("foo") + ": ", "{ ");
    HasAtSplit(s, 25, Q("foo"), ": ");
  }

  lemma TailWsOuter(s: string)
    requires |s| > 34 && s[30] == ':' && s[31] == ' ' && s[32] == '{' && s[33] == ' ' && s[34] == '"'
    ensures Ws(s, 30) == 30 && Ws(s, 31) == 32 && Ws(s, 33) == 34
  {
    WsSkips(s, 30, 30);
    WsSkips(s, 31, 32);
    WsSkips(s, 33, 34);
  }

  lemma TailWsInner(s: string)
    requires |s| > 53 && s[41] == ':' && s[42] == ' ' && s[43] == '"' && s[50] == ' ' && s[51] == '}'
    requires s[52] == ' ' && s[53] == '}'
    ensures Ws(s, 41) == 41 && Ws(s, 42) == 43 && Ws(s, 50) == 51 && Ws(s, 52) == 53
  {
    WsSkips(s, 41, 41);
    WsSkips(s, 42, 43);
    WsSkips(s, 50, 51);
    WsSkips(s, 52, 53);
  }

  lemma NestedInner(s: string)
    requires |s| == 63 && s[32] == '{' && s[41] == ':' && s[51] == '}'
    requires Ws(s, 33) == 34 && Ws(s, 41) == 41 && Ws(s, 42) == 43 && Ws(s, 50) == 51
    requires A.StringLit(s, 34) == Ok("hello", 41) && A.StringLit(s, 43) == Ok("world", 50)
    ensures A.Value(s, 32) == Ok(Object(map["hello" := String("world")]), 52)
  {
    assert A.Value(s, 43) == Ok(String("world"), 50);
    assert A.KeyValue(s, 34) == Ok(("hello", String("world")), 50);
    assert A.Element(s, 33) == Ok(("hello", String("world")), 51);
    assert A.Members(s, 33) == Ok(map["hello" := String("world")], 51);
    assert A.ObjectLit(s, 32) == Ok(map["hello" := String("world")], 52);
  }

  lemma NestedSteps(s: string)
    requires |s| == 63 && HasAt(s, 9, NestedHead) && s[25] == '"' && s[53] == '}'
    requires Ws(s, 0) == 9 && Ws(s, 54) == 63 && Ws(s, 52) == 53
    requires A.KeyValue(s, 25) == Ok(("foo", Object(map["hello" := String("world")])), 52)
    ensures A.Parse(s) == Parsed(Object(map["abc" := String("def"), "foo" := Object(map["hello" := String("world")])]))
  {
    var inner := Object(map["hello" := String("world")]);
    HeadFacts(s);
    WsSkips(s, 24, 25);
    assert A.Value(s, 18) == Ok(String("def"), 23);
    assert A.KeyValue(s, 11) == Ok(("abc", String("def")), 23);
    assert A.Element(s, 10) == Ok(("abc", String("def")), 23);
    assert A.Element(s, 24) == Ok(("foo", inner), 53);
    var m := map["abc" := String("def")]["foo" := inner];
    assert A.MoreMembers(s, 53, m) == Ok(m, 53);
    assert A.MoreMembers(s, 23, map["abc" := String("def")]) == Ok(m, 53);
    assert A.Members(s, 10) == Ok(m, 53);
    assert A.ObjectLit(s, 9) == Ok(m, 54);
    assert A.Value(s, 9) == Ok(Object(m), 54);
    assert A.Doc(s, 0) == Ok(Object(m), 63);
    assert m == map["abc" := String("def"), "foo" := inner];
  }

  /** `{ "abc": shit }` */
  const BareValue := "{ " + Q("abc") + ": " + "shit }"

  /** `{ "abc": shit }`: a bare word is no value. The grammar with cuts
      reports it where the value should start (column 18); the plain grammar
      falls back to an empty object and reports the missing `}` after `{`
      (column 10). */
  lemma BareValueExample(s: string)
    requires s == Margin + BareValue + Margin
    ensures A.Parse(s) == Failed(18)
    ensures B.Parse(s) == Failed(10)
  {
    PlainWords();
    Margins(s, BareValue);
    HasAtSplit(s, 9, "{ " + Q("abc") + ": ", "shit }");
    HasAtSplit(s, 9, "{ " + Q("abc"), ": ");
    HasAtSplit(s, 9, "{ ", Q("abc"));
    Pair(s, 9, "{ ");
    Pair(s, 16, ": ");
    assert s[18] == "shit }"[0];
    Quoted(s, 11, "abc");
    WsSkips(s, 10, 11);
    WsSkips(s, 16, 16);
    WsSkips(s, 17, 18);
    BareValueSteps(s);
  }

  lemma BareValueSteps(s: string)
    requires |s| == 33 && s[9] == '{' && s[10] == ' ' && s[16] == ':' && s[18] == 's'
    requires Ws(s, 0) == 9 && Ws(s, 10) == 11 && Ws(s, 16) == 16 && Ws(s, 17) == 18
    requires A.StringLit(s, 11) == Ok("abc", 16) && B.StringLit(s, 11) == Ok("abc", 16)
    ensures A.Parse(s) == Failed(18) && B.Parse(s) == Failed(10)
  {
    assert A.Value(s, 18) == Backtrack(18);
    assert A.KeyValue(s, 11) == Cut(18);
    assert A.Members(s, 10) == Cut(18);
    assert A.Value(s, 9) == Cut(18);
    assert B.Value(s, 18) == Backtrack(18);
    assert B.KeyValue(s, 11) == Backtrack(18);
    assert B.Members(s, 10) == Ok(map[], 10);
    assert B.Value(s, 9) == Backtrack(10);
  }

  /** `{ "abc"": shit }` */
  const DoubleQuote := "{ " + Q("abc") + "\": shit }"

  /** `{ "abc"": shit }`: after the key, a second quote where `:` belongs is a
      cut at that quote (column 16). */
  lemma DoubleQuoteExample(s: string)
    requires s == Margin + DoubleQuote + Margin
    ensures A.Parse(s) == Failed(16)
  {
    PlainWords();
    Margins(s, DoubleQuote);
    HasAtSplit(s, 9, "{ " + Q("abc"), "\": shit }");
    HasAtSplit(s, 9, "{ ", Q("abc"));
    Pair(s, 9, "{ ");
    assert s[16] == "\": shit }"[0];
    Quoted(s, 11, "abc");
    WsSkips(s, 10, 11);
    WsSkips(s, 16, 16);
    DoubleQuoteSteps(s);
  }

  lemma DoubleQuoteSteps(s: string)
    requires |s| == 34 && s[9] == '{' && s[16] == '"'
    requires Ws(s, 0) == 9 && Ws(s, 10) == 11 && Ws(s, 16) == 16
    requires A.StringLit(s, 11) == Ok("abc", 16)
    ensures A.Parse(s) == Failed(16)
  {
    assert A.KeyValue(s, 11) == Cut(16);
    assert A.Members(s, 10) == Cut(16);
    assert A.Value(s, 9) == Cut(16);
  }

  /** `{ abc }` */
  const BareKey := "{ abc }"

  /** `{ abc }`: a bare key is no member, so the object is empty and its `}`
      is missing right after `{` (column 10). */
  lemma BareKeyExample(s: string)
    requires s == Margin + BareKey + Margin
    ensures A.Parse(s) == Failed(10)
  {
    Margins(s, BareKey);
    assert s[9..16][0] == '{' && s[9..16][1] == ' ' && s[9..16][2] == 'a';
    WsSkips(s, 10, 11);
    BareKeySteps(s);
  }

  lemma BareKeySteps(s: string)
    requires |s| == 25 && s[9] == '{' && s[10] == ' ' && s[11] == 'a'
    requires Ws(s, 0) == 9 && Ws(s, 10) == 11
    ensures A.Parse(s) == Failed(10)
  {
    assert A.Element(s, 10) == Backtrack(11);
    assert A.Members(s, 10) == Ok(map[], 10);
    assert A.Value(s, 9) == Backtrack(10);
  }

  /** `"\a"` */
  const BadEscape := "\"\\a\""

  /** `"\a"`: `a` is no escape, a cut at the `a` (column 11). */
  lemma BadEscapeExample(s: string)
    requires s == Margin + BadEscape + Margin
    ensures A.Parse(s) == Failed(11)
  {
    Margins(s, BadEscape);
    assert s[9..13][0] == '"' && s[9..13][1] == '\\' && s[9..13][2] == 'a';
    assert A.Chars(s, 10) == Cut(11);
  }

  /** The plain grammar's documented successes follow from the other's. */
  lemma PlainHello(s: string)
    requires s == Margin + Hello + Margin
    ensures B.Parse(s) == Parsed(String("hello"))
  {
    HelloExample(s);
    JsonAgree.ParseAgrees(s);
  }

  lemma PlainOneField(s: string)
    requires s == Margin + OneField + Margin
    ensures B.Parse(s) == Parsed(Object(map["abc" := String("def")]))
  {
    OneFieldExample(s);
    JsonAgree.ParseAgrees(s);
  }

  lemma PlainNested(s: string)
    requires s == Margin + Nested + Margin
    ensures B.Parse(s) == Parsed(Object(map["abc" := String("def"), "foo" := Object(map["hello" := String("world")])]))
  {
    NestedExample(s);
    JsonAgree.ParseAgrees(s);
  }
}
