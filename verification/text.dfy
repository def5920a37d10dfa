/** String primitives shared by the thread composer: the ECMAScript notion of
    whitespace, `trim()`, `split(/\s+/)`, `join`, `slice(0, n)` and decimal
    rendering of numbers. Strings are sequences of `char`, and one `char` is
    one Unicode character, where JavaScript counts UTF-16 code units (see
    "Left out" in README.md). */
module Text {

  /** A value that may be missing: what a reader returns on input it cannot
      read. */
  datatype Option<T> = None | Some(value: T)

  /** True for the characters matched by `\s` and removed by `trim()`:
      ECMAScript WhiteSpace (TAB, VT, FF, ZWNBSP and the Zs category) and
      LineTerminator (LF, CR, LS, PS). */
  predicate IsSpace(c: char) {
    || c == '\t' || c == '\n' || c == '\U{000B}' || c == '\U{000C}' || c == '\r'
    || c == ' ' || c == '\U{00A0}' || c == '\U{1680}'
    || ('\U{2000}' <= c <= '\U{200A}')
    || c == '\U{2028}' || c == '\U{2029}' || c == '\U{202F}' || c == '\U{205F}'
    || c == '\U{3000}' || c == '\U{FEFF}'
  }

  predicate NoSpace(s: string) {
    forall k :: 0 <= k < |s| ==> !IsSpace(s[k])
  }

  predicate AllSpace(s: string) {
    forall k :: 0 <= k < |s| ==> IsSpace(s[k])
  }

  /** `s.trimStart()`: the suffix of `s` left after dropping leading whitespace. */
  function TrimStart(s: string): (r: string)
    ensures |r| <= |s| && r == s[|s| - |r|..]
    ensures AllSpace(s[..|s| - |r|])
    ensures r == [] || !IsSpace(r[0])
  {
    if s != [] && IsSpace(s[0]) then TrimStart(s[1..]) else s
  }

  /** `s.trimEnd()`: the prefix of `s` left after dropping trailing whitespace. */
  function TrimEnd(s: string): (r: string)
    ensures |r| <= |s| && r == s[..|r|]
    ensures AllSpace(s[|r|..])
    ensures r == [] || !IsSpace(r[|r| - 1])
  {
    if s != [] && IsSpace(s[|s| - 1]) then
      var init := s[..|s| - 1];
      var r := TrimEnd(init);
      assert init[..|r|] == s[..|r|];
      assert s[|r|..] == init[|r|..] + [s[|s| - 1]];
      r
    else s
  }

  /** `s.trim()`. */
  function Trim(s: string): string {
    TrimEnd(TrimStart(s))
  }

  /** A string is blank when `s.trim()` is the empty (falsy) string. */
  predicate IsBlank(s: string) {
    Trim(s) == []
  }

  /** How much leading whitespace `trim` drops. */
  function TrimOffset(s: string): nat {
    |s| - |TrimStart(s)|
  }

  lemma SuffixSlices(s: string, i: nat, a: string, n: nat)
    requires i <= |s| && a == s[i..] && n <= |a|
    ensures a[..n] == s[i..i + n] && a[n..] == s[i + n..]
  {
  }

  lemma TrimEdges(s: string)
    ensures var r := Trim(s);
      r == [] || (!IsSpace(r[0]) && !IsSpace(r[|r| - 1]))
  {
    var a := TrimStart(s);
    var r := TrimEnd(a);
    if r != [] {
      assert r[0] == a[0];
    }
  }

  lemma TrimSliceLeft(s: string)
    ensures TrimOffset(s) + |Trim(s)| <= |s| && AllSpace(s[..TrimOffset(s)])
  {
  }

  lemma TrimSliceMiddle(s: string)
    ensures TrimOffset(s) + |Trim(s)| <= |s|
    ensures Trim(s) == s[TrimOffset(s)..TrimOffset(s) + |Trim(s)|]
  {
    var a := TrimStart(s);
    var r := TrimEnd(a);
    SuffixSlices(s, TrimOffset(s), a, |r|);
  }

  lemma AllSpaceSuffix(s: string, i: nat, a: string, n: nat)
    requires i <= |s| && a == s[i..] && n <= |a|
    requires AllSpace(a[n..])
    ensures AllSpace(s[i + n..])
  {
    SuffixSlices(s, i, a, n);
  }

  lemma TrimSliceRight(s: string)
    ensures TrimOffset(s) + |Trim(s)| <= |s|
    ensures AllSpace(s[TrimOffset(s) + |Trim(s)|..])
  {
    var a := TrimStart(s);
    var r := TrimEnd(a);
    AllSpaceSuffix(s, TrimOffset(s), a, |r|);
  }

  lemma TrimSlice(s: string)
    ensures var r := Trim(s);
      var i := TrimOffset(s);
      && i + |r| <= |s| && r == s[i..i + |r|]
      && AllSpace(s[..i]) && AllSpace(s[i + |r|..])
  {
    TrimSliceLeft(s);
    TrimSliceMiddle(s);
    TrimSliceRight(s);
  }

  /** Trimming yields a slice of the input that neither starts nor ends with
      whitespace, and drops nothing but whitespace on either side. */
  lemma TrimIsSlice(s: string)
    ensures var r := Trim(s);
      var i := TrimOffset(s);
      && (r == [] || (!IsSpace(r[0]) && !IsSpace(r[|r| - 1])))
      && i + |r| <= |s| && r == s[i..i + |r|]
      && AllSpace(s[..i]) && AllSpace(s[i + |r|..])
  {
    TrimEdges(s);
    TrimSlice(s);
  }

  /** A string is blank exactly when every character in it is whitespace. */
  lemma BlankIffAllSpace(s: string)
    ensures IsBlank(s) <==> AllSpace(s)
  {
    TrimIsSlice(s);
    if IsBlank(s) {
      assert s[..TrimOffset(s)] == s;
    }
  }

  /** Length of the leading run of non-whitespace characters. */
  function SpanNonSpace(s: string): (n: nat)
    ensures n <= |s| && NoSpace(s[..n])
    ensures n < |s| ==> IsSpace(s[n])
  {
    if s == [] || IsSpace(s[0]) then 0 else 1 + SpanNonSpace(s[1..])
  }

  /** Length of the leading run of whitespace characters. */
  function SpanSpace(s: string): (n: nat)
    ensures n <= |s| && AllSpace(s[..n])
    ensures n < |s| ==> !IsSpace(s[n])
  {
    if s == [] || !IsSpace(s[0]) then 0 else 1 + SpanSpace(s[1..])
  }

  /** `s.split(/\s+/)`: the fields between maximal whitespace runs. As in
      JavaScript, a leading or trailing run produces an empty field and the
      empty string splits into one empty field. */
  function SplitWs(s: string): (fields: seq<string>)
    ensures |fields| >= 1
    ensures forall w :: w in fields ==> NoSpace(w)
    decreases |s|
  {
    var i := SpanNonSpace(s);
    if i == |s| then [s]
    else
      var rest := s[i..];
      var j := SpanSpace(rest);
      [s[..i]] + SplitWs(rest[j..])
  }

  /** The tokens `splitThread` iterates over: `text.trim().split(/\s+/)`. */
  function Words(text: string): seq<string> {
    SplitWs(Trim(text))
  }

  /** Splitting a string with no leading or trailing whitespace gives only
      non-empty fields. */
  lemma {:induction false} SplitWsTrimmed(s: string)
    requires s != [] && !IsSpace(s[0]) && !IsSpace(s[|s| - 1])
    ensures forall w :: w in SplitWs(s) ==> w != []
    decreases |s|
  {
    var i := SpanNonSpace(s);
    if i < |s| {
      var rest := s[i..];
      var j := SpanSpace(rest);
      assert rest[|rest| - 1] == s[|s| - 1];
      assert j < |rest|;
      var t := rest[j..];
      assert t[0] == rest[j];
      assert t[|t| - 1] == s[|s| - 1];
      SplitWsTrimmed(t);
    }
  }

  /** The words of a text are free of whitespace. */
  lemma WordsNoSpace(text: string)
    ensures forall w :: w in Words(text) ==> NoSpace(w)
  {
  }

  /** A blank text has the single empty word. */
  lemma WordsOfBlank(text: string)
    requires IsBlank(text)
    ensures Words(text) == [""]
  {
  }

  /** The words of a non-blank text are all non-empty. */
  lemma {:induction false} WordsOfNonBlank(text: string)
    requires !IsBlank(text)
    ensures forall k :: 0 <= k < |Words(text)| ==> Words(text)[k] != []
  {
    TrimIsSlice(text);
    var ws := Words(text);
    SplitWsTrimmed(Trim(text));
    forall k | 0 <= k < |ws| ensures ws[k] != [] {
      assert ws[k] in ws;
    }
  }

  /** A whitespace-free string is its own single field. */
  lemma SplitWsSingle(s: string)
    requires NoSpace(s)
    ensures SplitWs(s) == [s]
  {
  }

  /** `xs.join(sep)`. */
  function Join(xs: seq<string>, sep: string): string
  {
    if |xs| == 0 then ""
    else if |xs| == 1 then xs[0]
    else xs[0] + sep + Join(xs[1..], sep)
  }

  lemma JoinCons(a: string, xs: seq<string>, sep: string)
    requires xs != []
    ensures Join([a] + xs, sep) == a + sep + Join(xs, sep)
  {
    assert ([a] + xs)[1..] == xs;
  }

  /** `s` with every maximal run of whitespace replaced by one space: an
      independent description of what splitting on `/\s+/` and joining with
      single spaces does. */
  function Squeeze(s: string): string
    decreases |s|
  {
    if s == [] then []
    else if IsSpace(s[0]) then " " + Squeeze(s[SpanSpace(s)..])
    else [s[0]] + Squeeze(s[1..])
  }

  lemma {:induction false} SqueezeNoSpace(a: string, b: string)
    requires NoSpace(a)
    ensures Squeeze(a + b) == a + Squeeze(b)
  {
    if a != [] {
      assert (a + b)[0] == a[0];
      assert (a + b)[1..] == a[1..] + b;
      SqueezeNoSpace(a[1..], b);
      assert [a[0]] + a[1..] == a;
    } else {
      assert a + b == b;
    }
  }

  lemma SqueezeSpace(s: string)
    requires s != [] && IsSpace(s[0])
    ensures Squeeze(s) == " " + Squeeze(s[SpanSpace(s)..])
  {
  }

  /** A string with whitespace in it splits into the field before the first
      whitespace run and the fields after that run. */
  lemma SplitWsStep(s: string)
    requires SpanNonSpace(s) < |s|
    ensures var i := SpanNonSpace(s);
      SplitWs(s) == [s[..i]] + SplitWs(s[i..][SpanSpace(s[i..])..])
  {
  }

  /** The pieces of one step of `SplitWsJoin` put together. */
  lemma JoinSqueezeStep(first: string, fields: seq<string>, joined: string, squeezedRest: string)
    requires fields != []
    requires Join(fields, " ") == joined
    requires squeezedRest == " " + joined
    ensures Join([first] + fields, " ") == first + squeezedRest
  {
    JoinCons(first, fields, " ");
  }

  /** Splitting on whitespace runs and joining the fields with single spaces
      squeezes every whitespace run to one space and changes nothing else. */
  lemma {:induction false} SplitWsJoin(s: string)
    ensures Join(SplitWs(s), " ") == Squeeze(s)
    decreases |s|
  {
    var i := SpanNonSpace(s);
    if i == |s| {
      assert s[..i] == s;
      SqueezeNoSpace(s, []);
      assert s + [] == s;
    } else {
      var first := s[..i];
      var rest := s[i..];
      var t := rest[SpanSpace(rest)..];
      assert s == first + rest;
      SqueezeNoSpace(first, rest);
      SqueezeSpace(rest);
      SplitWsStep(s);
      SplitWsJoin(t);
      JoinSqueezeStep(first, SplitWs(t), Squeeze(t), Squeeze(rest));
    }
  }

  /** `s.slice(0, n)` for `n >= 0`. */
  function Take(s: string, n: nat): (r: string)
    ensures |r| == if |s| <= n then |s| else n
    ensures r <= s
  {
    if |s| <= n then s else s[..n]
  }

  predicate IsDigit(c: char) {
    '0' <= c <= '9'
  }

  predicate AllDigits(s: string) {
    forall k :: 0 <= k < |s| ==> IsDigit(s[k])
  }

  function DigitChar(d: nat): (c: char)
    requires d < 10
    ensures IsDigit(c)
  {
    ['0', '1', '2', '3', '4', '5', '6', '7', '8', '9'][d]
  }

  function DigitValue(c: char): nat
    requires IsDigit(c)
  {
    c as int - '0' as int
  }

  /** The decimal rendering of a number, as `${n}` produces it for a
      non-negative integer: no sign, no leading zero. */
  function NatToString(n: nat): (s: string)
    ensures s != [] && AllDigits(s)
    ensures |s| > 1 ==> s[0] != '0'
  {
    if n < 10 then [DigitChar(n)] else NatToString(n / 10) + [DigitChar(n % 10)]
  }

  /** The number a string of decimal digits denotes. */
  function DecimalValue(s: string): nat
    requires AllDigits(s)
  {
    if s == [] then 0 else 10 * DecimalValue(s[..|s| - 1]) + DigitValue(s[|s| - 1])
  }

  /** Reading back the decimal rendering of `n` gives `n`. */
  lemma {:induction false} DecimalRoundTrip(n: nat)
    ensures DecimalValue(NatToString(n)) == n
  {
    var s := NatToString(n);
    if n >= 10 {
      DecimalRoundTrip(n / 10);
      assert s[..|s| - 1] == NatToString(n / 10);
    }
  }
}
