/** The JSON-subset grammar with cuts (`src/bin/winnow_json.rs`). Once a
    string's opening quote, a backslash, or a key has been read, a failure
    further on is a cut: no alternative is tried and the error stays where it
    was found. Every function reads `s` from position `p`. */
module WinnowJson {
  import opened Common
  import opened JsonCommon

  /** `char`: a backslash and a valid escape, or any character but `"`. After
      the backslash, a missing or invalid escape is a cut at the character
      following it. */
  function Char(s: string, p: nat): (r: PResult<char>)
    requires p <= |s|
    ensures r.Ok? <==> p < |s| && s[p] != '"' && (s[p] == '\\' ==> p + 1 < |s| && Unescape(s[p + 1]).Some?)
    ensures r.Ok? ==> r.next == (if s[p] == '\\' then p + 2 else p + 1)
    ensures r.Ok? ==> r.value == if s[p] == '\\' then Unescape(s[p + 1]).value else s[p]
    ensures r.Backtrack? <==> p == |s| || s[p] == '"'
    ensures r.Backtrack? ==> r.at == p
    ensures r.Cut? ==> s[p] == '\\' && r.at == p + 1
  {
    if At(s, p, '\\') then
      if p + 1 < |s| && Unescape(s[p + 1]).Some? then Ok(Unescape(s[p + 1]).value, p + 2)
      else Cut(p + 1)
    else if p < |s| && s[p] != '"' then Ok(s[p], p + 1)
    else Backtrack(p)
  }

  /** `repeat(0.., char)` folded into a string: characters until one fails;
      a cut inside is passed on. */
  function Chars(s: string, p: nat): (r: PResult<string>)
    requires p <= |s|
    ensures !r.Backtrack?
    ensures r.Ok? ==> p <= r.next <= |s| && (r.next == |s| || s[r.next] == '"')
    ensures r.Cut? ==> p < r.at <= |s| && s[r.at - 1] == '\\'
    decreases |s| - p
  {
    match Char(s, p)
    case Backtrack(_) => Ok("", p)
    case Cut(e) => Cut(e)
    case Ok(c, q) =>
      var rest := Chars(s, q);
      if rest.Ok? then Ok([c] + rest.value, rest.next) else rest
  }

  /** `string`: `"`, characters, `"`; everything after the opening quote is
      under a cut. */
  function StringLit(s: string, p: nat): (r: PResult<string>)
    requires p <= |s|
    ensures r.Ok? ==> p + 2 <= r.next <= |s| && s[p] == '"' && s[r.next - 1] == '"'
    ensures r.Backtrack? <==> !At(s, p, '"')
    ensures r.Backtrack? ==> r.at == p
    ensures r.Cut? ==> p < r.at <= |s|
  {
    if !At(s, p, '"') then Backtrack(p)
    else
      var body := Chars(s, p + 1);
      if !body.Ok? then Cut(body.at)
      else if At(s, body.next, '"') then Ok(body.value, body.next + 1)
      else Cut(body.next)
  }

  /** `key_value`: a string key, then `ws ':' ws` and a value, both under a
      cut. */
  function KeyValue(s: string, p: nat): (r: PResult<(string, Json)>)
    requires p <= |s|
    ensures r.Ok? ==> p < r.next <= |s| && StringsAndObjects(r.value.1)
    ensures r.Backtrack? ==> r.at == p && !At(s, p, '"')
    ensures r.Cut? ==> At(s, p, '"') && p < r.at <= |s|
    decreases |s| - p, 0
  {
    var key := StringLit(s, p);
    if !key.Ok? then Propagate(key)
    else
      var q1 := Ws(s, key.next);
      if !At(s, q1, ':') then Cut(q1)
      else
        var v := Value(s, Ws(s, q1 + 1));
        if !v.Ok? then Cut(v.at) else Ok((key.value, v.value), v.next)
  }

  /** `delimited(ws, key_value, ws)`. */
  function Element(s: string, p: nat): (r: PResult<(string, Json)>)
    requires p <= |s|
    ensures r.Ok? ==> p < r.next <= |s| && StringsAndObjects(r.value.1)
    ensures r.Backtrack? ==> r.at == Ws(s, p) && !At(s, Ws(s, p), '"')
    ensures r.Cut? ==> At(s, Ws(s, p), '"') && p < r.at <= |s|
    decreases |s| - p, 1
  {
    var kv := KeyValue(s, Ws(s, p));
    if !kv.Ok? then kv else Ok(kv.value, Ws(s, kv.next))
  }

  /** `separated(0.., element, ',')`: no element at all is an empty object;
      after a `,` that no element follows, the input is left at the `,`. */
  function Members(s: string, p: nat): (r: PResult<map<string, Json>>)
    requires p <= |s|
    ensures !r.Backtrack?
    ensures r.Ok? ==> p <= r.next <= |s| && FieldsOk(r.value)
    ensures r.Cut? ==> p < r.at <= |s|
    decreases |s| - p, 2
  {
    match Element(s, p)
    case Backtrack(_) => Ok(map[], p)
    case Cut(e) => Cut(e)
    case Ok(kv, q) => MoreMembers(s, q, map[kv.0 := kv.1])
  }

  /** The loop of `separated` once an element has been read. */
  function MoreMembers(s: string, p: nat, acc: map<string, Json>): (r: PResult<map<string, Json>>)
    requires p <= |s| && FieldsOk(acc)
    ensures !r.Backtrack?
    ensures r.Ok? ==> p <= r.next <= |s| && FieldsOk(r.value)
    ensures r.Cut? ==> p < r.at <= |s|
    decreases |s| - p, 2
  {
    if !At(s, p, ',') then Ok(acc, p)
    else
      match Element(s, p + 1)
      case Backtrack(_) => Ok(acc, p)
      case Cut(e) => Cut(e)
      case Ok(kv, q) => MoreMembers(s, q, acc[kv.0 := kv.1])
  }

  /** `object`: `{`, members, `}`. */
  function ObjectLit(s: string, p: nat): (r: PResult<map<string, Json>>)
    requires p <= |s|
    ensures r.Ok? ==> p < r.next <= |s| && FieldsOk(r.value)
    ensures r.Backtrack? ==> p <= r.at <= |s|
    ensures r.Cut? ==> p < r.at <= |s|
    decreases |s| - p, 3
  {
    if !At(s, p, '{') then Backtrack(p)
    else
      var m := Members(s, p + 1);
      if !m.Ok? then m
      else if At(s, m.next, '}') then Ok(m.value, m.next + 1)
      else Backtrack(m.next)
  }

  /** `value`: a string, else an object. When both fail recoverably, the
      object's error is the one reported. */
  function Value(s: string, p: nat): (r: PResult<Json>)
    requires p <= |s|
    ensures r.Ok? ==> p < r.next <= |s| && StringsAndObjects(r.value)
    ensures r.Backtrack? ==> p <= r.at <= |s|
    ensures r.Cut? ==> p < r.at <= |s|
    decreases |s| - p, 4
  {
    match StringLit(s, p)
    case Ok(str, q) => Ok(String(str), q)
    case Cut(e) => Cut(e)
    case Backtrack(_) =>
      var m := ObjectLit(s, p);
      if m.Ok? then Ok(Object(m.value), m.next) else Propagate(m)
  }

  /** `doc`: a value between optional whitespace. */
  function Doc(s: string, p: nat): (r: PResult<Json>)
    requires p <= |s|
    ensures r.Ok? ==> p < r.next <= |s| && StringsAndObjects(r.value)
  {
    var v := Value(s, Ws(s, p));
    if v.Ok? then Ok(v.value, Ws(s, v.next)) else v
  }

  /** `parse`: the document must use up the whole input. */
  function Parse(s: string): (r: ParseResult)
    ensures r.Parsed? ==> StringsAndObjects(r.value)
    ensures r.Failed? ==> r.at <= |s|
  {
    var d := Doc(s, 0);
    if !d.Ok? then Failed(d.at)
    else if d.next == |s| then Parsed(d.value)
    else Failed(d.next)
  }

  /** The characters of an encoded string, up to a closing quote, read back
      as the string. */
  lemma {:induction false} CharsOfEscaped(s: string, p: nat, str: string)
    requires HasAt(s, p, EscapeAll(str)) && At(s, p + |EscapeAll(str)|, '"')
    ensures Chars(s, p) == Ok(str, p + |EscapeAll(str)|)
    decreases |str|
  {
    if |str| > 0 {
      var e, tail := EscapeChar(str[0]), EscapeAll(str[1..]);
      EscapedSplit(s, p, str);
      CharOfEscape(s, p, str[0]);
      CharsOfEscaped(s, p + |e|, str[1..]);
      CharsStep(s, p, str[0], p + |e|, str[1..], p + |e| + |tail|);
      assert [str[0]] + str[1..] == str;
    }
  }

  /** A character followed by the rest of the run. */
  lemma CharsStep(s: string, p: nat, c: char, q: nat, rest: string, n: nat)
    requires p <= q <= |s| && Char(s, p) == Ok(c, q) && Chars(s, q) == Ok(rest, n)
    ensures Chars(s, p) == Ok([c] + rest, n)
  {
  }

  /** One encoded character reads back as itself. */
  lemma CharOfEscape(s: string, p: nat, c: char)
    requires HasAt(s, p, EscapeChar(c))
    ensures Char(s, p) == Ok(c, p + |EscapeChar(c)|)
  {
    var e := EscapeChar(c);
    assert s[p] == e[0];
    if |e| == 2 {
      assert s[p + 1] == e[1];
    }
  }

  /** Decoding inverts the reference encoder: a quoted, escaped string reads
      back as itself, ending right after its closing quote. */
  lemma QuoteRoundTrip(s: string, p: nat, str: string)
    requires HasAt(s, p, Quote(str))
    ensures StringLit(s, p) == Ok(str, p + |Quote(str)|)
  {
    HasAtSplit(s, p, "\"" + EscapeAll(str), "\"");
    HasAtSplit(s, p, "\"", EscapeAll(str));
    CharsOfEscaped(s, p + 1, str);
  }
}
