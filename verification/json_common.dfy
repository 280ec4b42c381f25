/** What the two JSON-subset grammars share: the value type, the three-way
    parser result, whitespace, escapes, and a reference encoder for strings.

    A parser reads a string from a position. `Ok(v, q)` means it recognised
    `v` and stopped at position `q`. `Backtrack(at)` is a recoverable failure:
    an enclosing alternative or repetition may try something else from where it
    started. `Cut(at)` is a failure no enclosing combinator recovers from.
    `at` is where the failure was detected, the position an error message
    points at. */
module JsonCommon {
  import opened Common

  /** `Value`: numbers are `f64` in the program, which the grammars never
      produce; they are kept here as reals. */
  datatype Json =
    | Null
    | Boolean(b: bool)
    | Number(n: real)
    | String(s: string)
    | Array(items: seq<Json>)
    | Object(fields: map<string, Json>)

  datatype PResult<+T> = Ok(value: T, next: nat) | Backtrack(at: nat) | Cut(at: nat)

  /** A failure passed on unchanged to a parser of another result type. */
  function Propagate<T, U>(r: PResult<T>): (r': PResult<U>)
    requires !r.Ok?
    ensures r'.Backtrack? == r.Backtrack? && r'.Cut? == r.Cut? && r'.at == r.at
  {
    if r.Backtrack? then Backtrack(r.at) else Cut(r.at)
  }

  /** The grammars build only strings and objects, at every depth. */
  predicate StringsAndObjects(v: Json) {
    match v
    case String(_) => true
    case Object(m) => forall k :: k in m ==> StringsAndObjects(m[k])
    case _ => false
  }

  /** All field values are strings or objects. */
  predicate FieldsOk(m: map<string, Json>) {
    forall k :: k in m ==> StringsAndObjects(m[k])
  }

  /** `parse`: the document or the position of the error. */
  datatype ParseResult = Parsed(value: Json) | Failed(at: nat)

  predicate IsWs(c: char) {
    c == ' ' || c == '\t' || c == '\r' || c == '\n'
  }

  /** `ws`: the longest run of spaces, tabs, carriage returns and line feeds
      from `p`; it never fails. */
  function Ws(s: string, p: nat): (q: nat)
    requires p <= |s|
    ensures p <= q <= |s|
    ensures forall i :: p <= i < q ==> IsWs(s[i])
    ensures q == |s| || !IsWs(s[q])
    decreases |s| - p
  {
    if p < |s| && IsWs(s[p]) then Ws(s, p + 1) else p
  }

  /** `s` has character `c` at position `p`. */
  predicate At(s: string, p: nat, c: char) {
    p < |s| && s[p] == c
  }

  /** The character after a backslash: `"`, `\` and `/` stand for themselves,
      `n` for a line feed; nothing else is an escape. */
  function Unescape(c: char): (r: Option<char>)
    ensures r.Some? <==> (c == '"' || c == '\\' || c == '/' || c == 'n')
  {
    match c
    case '"' => Some('"')
    case '\\' => Some('\\')
    case '/' => Some('/')
    case 'n' => Some('\n')
    case _ => None
  }

  /** A reference encoder: a character as it may be written inside a string
      literal. */
  function EscapeChar(c: char): (r: string)
    ensures 1 <= |r| <= 2 && r[0] != '"'
    ensures |r| == 1 <==> r[0] != '\\'
    ensures |r| == 1 ==> r[0] == c
    ensures |r| == 2 ==> Unescape(r[1]) == Some(c)
  {
    if c == '"' then "\\\"" else if c == '\\' then "\\\\" else if c == '\n' then "\\n" else [c]
  }

  function EscapeAll(str: string): (r: string)
    ensures |r| >= |str|
  {
    if |str| == 0 then "" else EscapeChar(str[0]) + EscapeAll(str[1..])
  }

  /** `str` as a string literal. */
  function Quote(str: string): (r: string)
    ensures |r| >= 2 && r[0] == '"' && r[|r| - 1] == '"'
  {
    "\"" + EscapeAll(str) + "\""
  }

  /** `s` holds `t` from position `p`. */
  predicate HasAt(s: string, p: nat, t: string) {
    p + |t| <= |s| && s[p..p + |t|] == t
  }

  lemma HasAtSplit(s: string, p: nat, t: string, u: string)
    requires HasAt(s, p, t + u)
    ensures HasAt(s, p, t) && HasAt(s, p + |t|, u)
  {
    assert s[p..p + |t|] == (t + u)[..|t|];
    assert s[p + |t|..p + |t| + |u|] == (t + u)[|t|..];
  }

  /** An encoded string is its first character's encoding followed by the
      encoding of the rest. */
  lemma EscapedSplit(s: string, p: nat, str: string)
    requires |str| > 0 && HasAt(s, p, EscapeAll(str))
    ensures EscapeAll(str) == EscapeChar(str[0]) + EscapeAll(str[1..])
    ensures HasAt(s, p, EscapeChar(str[0])) && HasAt(s, p + |EscapeChar(str[0])|, EscapeAll(str[1..]))
  {
    var e, tail := EscapeChar(str[0]), EscapeAll(str[1..]);
    assert EscapeAll(str) == e + tail;
    HasAtSplit(s, p, e, tail);
  }

  /** `ws` stops exactly at the first non-whitespace character. */
  lemma WsSkips(s: string, p: nat, q: nat)
    requires p <= q <= |s| && (forall i :: p <= i < q ==> IsWs(s[i])) && (q == |s| || !IsWs(s[q]))
    ensures Ws(s, p) == q
  {
  }

  /** A string with nothing to escape is quoted as it is. */
  lemma {:induction false} EscapeAllPlain(str: string)
    requires forall i :: 0 <= i < |str| ==> str[i] != '"' && str[i] != '\\' && str[i] != '\n'
    ensures EscapeAll(str) == str
  {
    if |str| > 0 {
      EscapeAllPlain(str[1..]);
      assert [str[0]] + str[1..] == str;
    }
  }
}
