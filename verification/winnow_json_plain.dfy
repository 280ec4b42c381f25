/** The JSON-subset grammar without cuts (`src/bin/winnow_json/main.rs`).
    Every failure is recoverable, so an enclosing alternative or repetition
    always gets to try again from where it started. Every function reads `s`
    from position `p`. */
module WinnowJsonPlain {
  import opened Common
  import opened JsonCommon

  /** `char`: any character but `"`; a backslash must be followed by a valid
      escape, whose meaning is the result. */
  function Char(s: string, p: nat): (r: PResult<char>)
    requires p <= |s|
    ensures !r.Cut?
    ensures r.Ok? <==> p < |s| && s[p] != '"' && (s[p] == '\\' ==> p + 1 < |s| && Unescape(s[p + 1]).Some?)
    ensures r.Ok? ==> r.next == (if s[p] == '\\' then p + 2 else p + 1)
    ensures r.Ok? ==> r.value == if s[p] == '\\' then Unescape(s[p + 1]).value else s[p]
    ensures r.Backtrack? ==> r.at == if p < |s| && s[p] == '\\' then p + 1 else p
  {
    if p == |s| || s[p] == '"' then Backtrack(p)
    else if s[p] != '\\' then Ok(s[p], p + 1)
    else if p + 1 < |s| && Unescape(s[p + 1]).Some? then Ok(Unescape(s[p + 1]).value, p + 2)
    else Backtrack(p + 1)
  }

  /** `repeat(0.., char)` folded into a string: characters until one fails,
      leaving the input before the failed one. */
  function Chars(s: string, p: nat): (r: PResult<string>)
    requires p <= |s|
    ensures r.Ok? && p <= r.next <= |s|
    ensures r.next == |s| || s[r.next] == '"' || s[r.next] == '\\'
    decreases |s| - p
  {
    var c := Char(s, p);
    if !c.Ok? then Ok("", p)
    else
      var rest := Chars(s, c.next);
      Ok([c.value] + rest.value, rest.next)
  }

  /** `string`: `"`, characters, `"`. */
  function StringLit(s: string, p: nat): (r: PResult<string>)
    requires p <= |s|
    ensures !r.Cut?
    ensures r.Ok? ==> p + 2 <= r.next <= |s| && s[p] == '"' && s[r.next - 1] == '"'
    ensures r.Backtrack? && !At(s, p, '"') ==> r.at == p
    ensures r.Backtrack? ==> p <= r.at <= |s|
  {
    if !At(s, p, '"') then Backtrack(p)
    else
      var body := Chars(s, p + 1);
      if At(s, body.next, '"') then Ok(body.value, body.next + 1)
      else Backtrack(body.next)
  }

  /** `key_value`: a string key, `ws ':' ws`, a value. */
  function KeyValue(s: string, p: nat): (r: PResult<(string, Json)>)
    requires p <= |s|
    ensures !r.Cut?
    ensures r.Ok? ==> p < r.next <= |s| && StringsAndObjects(r.value.1)
    ensures r.Backtrack? ==> p <= r.at <= |s|
    decreases |s| - p, 0
  {
    var key := StringLit(s, p);
    if !key.Ok? then Propagate(key)
    else
      var q1 := Ws(s, key.next);
      if !At(s, q1, ':') then Backtrack(q1)
      else
        var v := Value(s, Ws(s, q1 + 1));
        if !v.Ok? then Propagate(v) else Ok((key.value, v.value), v.next)
  }

  /** `delimited(ws, key_value, ws)`. */
  function Element(s: string, p: nat): (r: PResult<(string, Json)>)
    requires p <= |s|
    ensures !r.Cut?
    ensures r.Ok? ==> p < r.next <= |s| && StringsAndObjects(r.value.1)
    ensures r.Backtrack? ==> p <= r.at <= |s|
    decreases |s| - p, 1
  {
    var kv := KeyValue(s, Ws(s, p));
    if !kv.Ok? then kv else Ok(kv.value, Ws(s, kv.next))
  }

  /** `separated(0.., element, ',')`; it never fails. */
  function Members(s: string, p: nat): (r: PResult<map<string, Json>>)
    requires p <= |s|
    ensures r.Ok? && p <= r.next <= |s| && FieldsOk(r.value)
    decreases |s| - p, 2
  {
    var e := Element(s, p);
    if !e.Ok? then Ok(map[], p) else MoreMembers(s, e.next, map[e.value.0 := e.value.1])
  }

  function MoreMembers(s: string, p: nat, acc: map<string, Json>): (r: PResult<map<string, Json>>)
    requires p <= |s| && FieldsOk(acc)
    ensures r.Ok? && p <= r.next <= |s| && FieldsOk(r.value)
    decreases |s| - p, 2
  {
    if !At(s, p, ',') then Ok(acc, p)
    else
      var e := Element(s, p + 1);
      if !e.Ok? then Ok(acc, p) else MoreMembers(s, e.next, acc[e.value.0 := e.value.1])
  }

  /** `object`: `{`, members, `}`. */
  function ObjectLit(s: string, p: nat): (r: PResult<map<string, Json>>)
    requires p <= |s|
    ensures !r.Cut?
    ensures r.Ok? ==> p < r.next <= |s| && FieldsOk(r.value)
    ensures r.Backtrack? ==> p <= r.at <= |s|
    decreases |s| - p, 3
  {
    if !At(s, p, '{') then Backtrack(p)
    else
      var m := Members(s, p + 1);
      if At(s, m.next, '}') then Ok(m.value, m.next + 1) else Backtrack(m.next)
  }

  /** `value`: a string, else an object, whose error is the one reported. */
  function Value(s: string, p: nat): (r: PResult<Json>)
    requires p <= |s|
    ensures !r.Cut?
    ensures r.Ok? ==> p < r.next <= |s| && StringsAndObjects(r.value)
    ensures r.Backtrack? ==> p <= r.at <= |s|
    decreases |s| - p, 4
  {
    var str := StringLit(s, p);
    if str.Ok? then Ok(String(str.value), str.next)
    else
      var m := ObjectLit(s, p);
      if m.Ok? then Ok(Object(m.value), m.next) else Propagate(m)
  }

  /** `doc`: a value between optional whitespace. */
  function Doc(s: string, p: nat): (r: PResult<Json>)
    requires p <= |s|
    ensures !r.Cut?
    ensures r.Ok? ==> p < r.next <= |s| && StringsAndObjects(r.value)
  {
    var v := Value(s, Ws(s, p));
    if v.Ok? then Ok(v.value, Ws(s, v.next)) else v
  }

  /** `parse`: the document must use up the whole input. */
  function Parse(s: string): (r: ParseResult)
    ensures r.Parsed? ==> StringsAndObjects(r.value)
    ensures r.Failed? ==> r.at <= |s|
  {
    var d := Doc(s, 0);
    if !d.Ok? then Failed(d.at)
    else if d.next == |s| then Parsed(d.value)
    else Failed(d.next)
  }

  /** The characters of an encoded string, up to a closing quote, read back
      as the string. */
  lemma {:induction false} CharsOfEscaped(s: string, p: nat, str: string)
    requires HasAt(s, p, EscapeAll(str)) && At(s, p + |EscapeAll(str)|, '"')
    ensures Chars(s, p) == Ok(str, p + |EscapeAll(str)|)
    decreases |str|
  {
    if |str| > 0 {
      var e, tail := EscapeChar(str[0]), EscapeAll(str[1..]);
      EscapedSplit(s, p, str);
      CharOfEscape(s, p, str[0]);
      CharsOfEscaped(s, p + |e|, str[1..]);
      CharsStep(s, p, str[0], p + |e|, str[1..], p + |e| + |tail|);
      assert [str[0]] + str[1..] == str;
    }
  }

  /** A character followed by the rest of the run. */
  lemma CharsStep(s: string, p: nat, c: char, q: nat, rest: string, n: nat)
    requires p <= q <= |s| && Char(s, p) == Ok(c, q) && Chars(s, q) == Ok(rest, n)
    ensures Chars(s, p) == Ok([c] + rest, n)
  {
  }

  /** One encoded character reads back as itself. */
  lemma CharOfEscape(s: string, p: nat, c: char)
    requires HasAt(s, p, EscapeChar(c))
    ensures Char(s, p) == Ok(c, p + |EscapeChar(c)|)
  {
    var e := EscapeChar(c);
    assert s[p] == e[0];
    if |e| == 2 {
      assert s[p + 1] == e[1];
    }
  }

  /** Decoding inverts the reference encoder: a quoted, escaped string reads
      back as itself, ending right after its closing quote. */
  lemma QuoteRoundTrip(s: string, p: nat, str: string)
    requires HasAt(s, p, Quote(str))
    ensures StringLit(s, p) == Ok(str, p + |Quote(str)|)
  {
    HasAtSplit(s, p, "\"" + EscapeAll(str), "\"");
    HasAtSplit(s, p, "\"", EscapeAll(str));
    CharsOfEscaped(s, p + 1, str);
  }
}
