/** The cleaned error-chain report (`CleanedErrorText` and
    `ReportFormatter::cleaned_error_trace`). An error and its `source()` chain
    are given as the list of their display strings, outermost first. Each text
    loses the trailing copies of its source's text, then trailing whitespace,
    then trailing colons; the report prints the survivors one per line. */
module ErrorChain {

  /** `s[..n]` ends with `pat`. */
  predicate EndsWithAt(s: string, n: nat, pat: string)
    requires n <= |s|
  {
    |pat| <= n && s[n - |pat|..n] == pat
  }

  /** `s[lo..hi]` is some number of copies of `pat` (none when it is empty). */
  predicate RepeatsIn(s: string, lo: nat, hi: nat, pat: string)
    requires lo <= hi <= |s|
    decreases hi - lo
  {
    lo == hi || (|pat| > 0 && lo + |pat| <= hi && EndsWithAt(s, hi, pat) && RepeatsIn(s, lo, hi - |pat|, pat))
  }

  /** `str::trim_end_matches` with a string pattern, applied to `s[..n]`: the
      length of what is kept. An empty pattern matches nothing to strip. */
  function TrimEndMatches(s: string, pat: string, n: nat): (k: nat)
    requires n <= |s|
    ensures k <= n && RepeatsIn(s, k, n, pat)
    ensures |pat| > 0 ==> !EndsWithAt(s, k, pat)
    decreases n
  {
    if |pat| > 0 && EndsWithAt(s, n, pat) then TrimEndMatches(s, pat, n - |pat|) else n
  }

  /** `char::is_whitespace`: the Unicode `White_Space` property. */
  predicate IsWhitespace(c: char) {
    || c == ' ' || ('\t' <= c <= '\r')
    || c == '\U{0085}' || c == '\U{00A0}' || c == '\U{1680}'
    || ('\U{2000}' <= c <= '\U{200A}')
    || c == '\U{2028}' || c == '\U{2029}' || c == '\U{202F}' || c == '\U{205F}' || c == '\U{3000}'
  }

  /** `str::trim_end` applied to `s[..n]`: the length of what is kept. */
  function TrimEnd(s: string, n: nat): (k: nat)
    requires n <= |s|
    ensures k <= n
    ensures forall i :: k <= i < n ==> IsWhitespace(s[i])
    ensures k == 0 || !IsWhitespace(s[k - 1])
    decreases n
  {
    if n > 0 && IsWhitespace(s[n - 1]) then TrimEnd(s, n - 1) else n
  }

  /** `str::trim_end_matches` with a character pattern, applied to `s[..n]`. */
  function TrimEndChar(s: string, c: char, n: nat): (k: nat)
    requires n <= |s|
    ensures k <= n
    ensures forall i :: k <= i < n ==> s[i] == c
    ensures k == 0 || s[k - 1] != c
    decreases n
  {
    if n > 0 && s[n - 1] == c then TrimEndChar(s, c, n - 1) else n
  }

  /** How much of `text` one error keeps once its source's text `next` is
      removed: copies of `next`, then whitespace, then colons come off the
      end. */
  function CleanLen(text: string, next: string): (k: nat)
    ensures k <= |text|
    ensures k == 0 || text[k - 1] != ':'
  {
    TrimEndChar(text, ':', TrimEnd(text, TrimEndMatches(text, next, |text|)))
  }

  /** What one error keeps of its text. */
  function Clean(text: string, next: string): (r: string)
    ensures |r| <= |text| && r == text[..|r|]
    ensures |r| == 0 || r[|r| - 1] != ':'
  {
    text[..CleanLen(text, next)]
  }

  /** The text of `Clean` is the original with, in order from the end, copies
      of the source's text, then whitespace, then colons taken off; each
      stripping stops at the first character it may not remove. */
  lemma CleanShape(text: string, next: string)
    ensures var a := TrimEndMatches(text, next, |text|);
            var b := TrimEnd(text, a);
            var r := Clean(text, next);
            && |r| <= b <= a <= |text|
            && (forall i :: |r| <= i < b ==> text[i] == ':')
            && (forall i :: b <= i < a ==> IsWhitespace(text[i]))
            && RepeatsIn(text, a, |text|, next)
            && (|next| > 0 ==> !EndsWithAt(text, a, next))
            && (b == 0 || !IsWhitespace(text[b - 1]))
            && (|r| == 0 || text[|r| - 1] != ':')
  {
  }

  /** One item of `CleanedErrorText`: the (possibly shortened) text and whether
      it was shortened. */
  datatype Item = Item(text: string, cleaned: bool)

  /** The whole iteration: one item per error of the chain, outermost first. */
  function CleanedChain(chain: seq<string>): (r: seq<Item>)
    ensures |r| == |chain|
    ensures forall i :: 0 <= i < |r| ==> |r[i].text| <= |chain[i]| && r[i].text == chain[i][..|r[i].text|]
    ensures forall i :: 0 <= i < |r| ==> (r[i].cleaned <==> |r[i].text| < |chain[i]|)
    ensures |chain| > 0 ==> r[|r| - 1] == Item(chain[|chain| - 1], false)
    ensures forall i {:trigger r[i]} :: 0 <= i < |r| - 1 ==> r[i].text == Clean(chain[i], chain[i + 1])
  {
    seq(|chain|, i requires 0 <= i < |chain| => CleanStep(chain, i))
  }

  /** The item `next` yields for the error at position `i`. */
  function CleanStep(chain: seq<string>, i: nat): (it: Item)
    requires i < |chain|
    ensures |it.text| <= |chain[i]| && it.text == chain[i][..|it.text|]
    ensures it.cleaned <==> |it.text| < |chain[i]|
  {
    if i == |chain| - 1 then Item(chain[i], false)
    else
      var text := Clean(chain[i], chain[i + 1]);
      Item(text, |text| != |chain[i]|)
  }

  /** The visible messages: empty ones dropped, cleaned ones marked. */
  function Messages(items: seq<Item>): (r: seq<string>)
    ensures |r| <= |items|
  {
    if |items| == 0 then []
    else
      var it := items[0];
      var rest := Messages(items[1..]);
      if |it.text| == 0 then rest
      else [if it.cleaned then it.text + " *" else it.text] + rest
  }

  /** A message is in the report exactly when its item's text is non-empty, and
      carries the ` *` note exactly when that item was cleaned. */
  lemma {:induction false} MessagesSpec(items: seq<Item>)
    ensures forall m :: m in Messages(items) ==> |m| > 0
    ensures |Messages(items)| == |items| <==> forall i :: 0 <= i < |items| ==> |items[i].text| > 0
    ensures (forall i :: 0 <= i < |items| ==> |items[i].text| > 0) ==>
      forall i :: 0 <= i < |items| ==>
        Messages(items)[i] == if items[i].cleaned then items[i].text + " *" else items[i].text
  {
    if |items| > 0 {
      MessagesSpec(items[1..]);
      var rest := Messages(items[1..]);
      if |items[0].text| == 0 {
        assert |Messages(items)| < |items|;
      }
      if forall i :: 0 <= i < |items| ==> |items[i].text| > 0 {
        assert forall i :: 1 <= i < |items| ==> items[1..][i - 1] == items[i];
      } else {
        var i :| 0 <= i < |items| && |items[i].text| == 0;
        if i > 0 {
          assert |items[1..][i - 1].text| == 0;
        }
      }
    }
  }

  function DigitChar(d: nat): (c: char)
    requires d < 10
    ensures '0' <= c <= '9' && (c as int) - ('0' as int) == d
  {
    (('0' as int) + d) as char
  }

  /** The decimal digits of `n`, without leading zeros. */
  function Decimal(n: nat): (r: string)
    ensures |r| > 0 && forall i :: 0 <= i < |r| ==> '0' <= r[i] <= '9'
    ensures n >= 10 ==> r[0] != '0'
  {
    if n < 10 then [DigitChar(n)] else Decimal(n / 10) + [DigitChar(n % 10)]
  }

  function DecimalValue(s: string): nat
    requires forall i :: 0 <= i < |s| ==> '0' <= s[i] <= '9'
  {
    if |s| == 0 then 0 else DecimalValue(s[..|s| - 1]) * 10 + ((s[|s| - 1] as int) - ('0' as int))
  }

  lemma {:induction false} DecimalRoundTrip(n: nat)
    ensures DecimalValue(Decimal(n)) == n
  {
    if n >= 10 {
      var s := Decimal(n);
      assert s[..|s| - 1] == Decimal(n / 10);
      DecimalRoundTrip(n / 10);
    }
  }

  /** `{:3}` applied to an integer: right-aligned in a field of three. */
  function Pad3(n: nat): (r: string)
    ensures |r| >= 3 && |r| >= |Decimal(n)|
    ensures var d := Decimal(n);
            r[|r| - |d|..] == d && forall i :: 0 <= i < |r| - |d| ==> r[i] == ' '
  {
    var d := Decimal(n);
    if |d| >= 3 then d else seq(3 - |d|, _ => ' ') + d
  }

  const OneCause := "Caused by this error:"
  const ManyCauses := "Caused by these errors (recent errors listed first):"

  /** The report, line by line (each is followed by a newline in the output):
      the head message, a blank line and a header when there are causes, then
      the causes numbered from 1. */
  function ReportLines(msgs: seq<string>): (r: seq<string>)
    ensures r == [] <==> msgs == []
    ensures |msgs| == 1 ==> r == [msgs[0]]
    ensures |msgs| >= 2 ==>
      && |r| == |msgs| + 2 && r[0] == msgs[0] && r[1] == ""
      && r[2] == (if |msgs| == 2 then OneCause else ManyCauses)
      && forall i :: 1 <= i < |msgs| ==> r[i + 2] == Pad3(i) + ": " + msgs[i]
  {
    if |msgs| == 0 then []
    else
      var header := if |msgs| == 1 then [] else if |msgs| == 2 then ["", OneCause] else ["", ManyCauses];
      [msgs[0]] + header + seq(|msgs| - 1, i requires 0 <= i < |msgs| - 1 => Pad3(i + 1) + ": " + msgs[i + 1])
  }

  function JoinLines(lines: seq<string>): (r: string)
    ensures |lines| == 0 <==> r == ""
  {
    if |lines| == 0 then "" else lines[0] + "\n" + JoinLines(lines[1..])
  }

  /** `cleaned_error_trace` for a chain of display texts. */
  function Report(chain: seq<string>): (r: string)
    ensures r == "" <==> forall i :: 0 <= i < |chain| ==> |CleanedChain(chain)[i].text| == 0
  {
    var msgs := Messages(CleanedChain(chain));
    MessagesEmpty(CleanedChain(chain));
    JoinLines(ReportLines(msgs))
  }

  lemma {:induction false} MessagesEmpty(items: seq<Item>)
    ensures Messages(items) == [] <==> forall i :: 0 <= i < |items| ==> |items[i].text| == 0
  {
    if |items| > 0 {
      MessagesEmpty(items[1..]);
      assert forall i :: 1 <= i < |items| ==> items[1..][i - 1] == items[i];
    }
  }

  /** An outer error whose text ends with its source's, after a colon, keeps
      only its own part and is marked cleaned. */
  lemma DocumentedExample()
    ensures CleanedChain(["Outer: Inner", "Inner"]) == [Item("Outer", true), Item("Inner", false)]
  {
    ExampleCleanLen();
    assert "Outer: Inner"[..5] == "Outer";
  }

  lemma ExampleCleanLen()
    ensures CleanLen("Outer: Inner", "Inner") == 5
  {
    var text := "Outer: Inner";
    assert EndsWithAt(text, 12, "Inner");
    assert text[2..7][0] == 't' != "Inner"[0];
    assert !EndsWithAt(text, 7, "Inner");
    assert TrimEndMatches(text, "Inner", 12) == 7;
    assert TrimEnd(text, 7) == 6;
  }
}
