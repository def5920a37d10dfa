/** The thread composer: the `final` sequence of posts built from a draft
    (optional hook, optional `i/N` numbering) and the text "Copy Thread"
    puts on the clipboard. */
module Thread {
  import opened Text
  import opened Sorting
  import opened Chunker
  import opened Hook
  import opened Tags

  /** Blank line between posts in the copied text. */
  const PostSeparator: string := "\n\n"

  /** The posts before numbering: the hook first when it is switched on and
      the draft is not blank, then the chunks of the draft. */
  function Bodies(raw: string, useHook: bool): seq<string> {
    (if useHook && !IsBlank(raw) then [CtHook(raw)] else []) + SplitThread(raw, DefaultLimit)
  }

  /** The position label `${i}/${n} `. */
  function Label(i: nat, n: nat): string {
    NatToString(i) + "/" + NatToString(n) + " "
  }

  /** Prefixes element `k` of `posts` with the label of position `first + k`
      out of `total`. */
  function NumberFrom(posts: seq<string>, first: nat, total: nat): (r: seq<string>)
    ensures |r| == |posts|
    ensures forall k :: 0 <= k < |posts| ==> r[k] == Label(first + k, total) + posts[k]
  {
    if posts == [] then [] else [Label(first, total) + posts[0]] + NumberFrom(posts[1..], first + 1, total)
  }

  /** The `final` memo of `ThreadComposer`. */
  function Assemble(raw: string, useHook: bool, addNumbers: bool): seq<string> {
    var posts := Bodies(raw, useHook);
    if addNumbers then NumberFrom(posts, 1, |posts|) else posts
  }

  /** A post read back as label and body. */
  datatype Labelled = Labelled(index: nat, total: nat, body: string)

  /** Length of the leading run of decimal digits. */
  function SpanDigits(s: string): (n: nat)
    ensures n <= |s| && AllDigits(s[..n])
    ensures n < |s| ==> !IsDigit(s[n])
  {
    if s == [] || !IsDigit(s[0]) then 0 else 1 + SpanDigits(s[1..])
  }

  /** Reads a leading `i/N ` label off a post. */
  function ParseLabel(s: string): Option<Labelled> {
    var a := SpanDigits(s);
    if a == 0 || a == |s| || s[a] != '/' then None
    else
      var t := s[a + 1..];
      var b := SpanDigits(t);
      if b == 0 || b == |t| || t[b] != ' ' then None
      else Some(Labelled(DecimalValue(s[..a]), DecimalValue(t[..b]), t[b + 1..]))
  }

  lemma {:induction false} SpanDigitsOf(d: string, rest: string)
    requires AllDigits(d)
    requires rest == [] || !IsDigit(rest[0])
    ensures SpanDigits(d + rest) == |d|
  {
    if d != [] {
      assert (d + rest)[1..] == d[1..] + rest;
      SpanDigitsOf(d[1..], rest);
    }
  }

  /** A run of digits ended by a non-digit `c`: the run, `c` and what
      follows can be cut apart again. */
  lemma DigitsThen(d: string, c: char, rest: string)
    requires AllDigits(d) && !IsDigit(c)
    ensures var s := d + [c] + rest;
      && SpanDigits(s) == |d| && |d| < |s|
      && s[|d|] == c && s[..|d|] == d && s[|d| + 1..] == rest
  {
    var s := d + [c] + rest;
    assert s == d + ([c] + rest);
    SpanDigitsOf(d, [c] + rest);
  }

  lemma {:induction false} ParseLabelOf(d1: string, d2: string, body: string)
    requires d1 != [] && AllDigits(d1)
    requires d2 != [] && AllDigits(d2)
    ensures ParseLabel(d1 + "/" + d2 + " " + body)
         == Some(Labelled(DecimalValue(d1), DecimalValue(d2), body))
  {
    var t := d2 + " " + body;
    assert d1 + "/" + d2 + " " + body == d1 + ['/'] + t;
    DigitsThen(d1, '/', t);
    DigitsThen(d2, ' ', body);
  }

  /** A label can be read back off the post it starts: the position, the
      total and the body are all recovered. */
  lemma {:induction false} LabelRoundTrip(i: nat, n: nat, body: string)
    ensures ParseLabel(Label(i, n) + body) == Some(Labelled(i, n, body))
  {
    var di := NatToString(i);
    var dn := NatToString(n);
    assert Label(i, n) + body == di + "/" + dn + " " + body;
    ParseLabelOf(di, dn, body);
    DecimalRoundTrip(i);
    DecimalRoundTrip(n);
  }

  /** The thread has one post per chunk, plus one for the hook when the hook
      is on and the draft is not blank. */
  lemma {:induction false} AssembleLength(raw: string, useHook: bool, addNumbers: bool)
    ensures |Assemble(raw, useHook, addNumbers)|
         == |SplitThread(raw, DefaultLimit)| + (if useHook && !IsBlank(raw) then 1 else 0)
  {
  }

  /** With the hook on and a non-blank draft the first post is the hook,
      labelled `1/N` when numbering is on; the posts after it carry the
      chunks in order. */
  lemma {:induction false} AssembleHookFirst(raw: string, useHook: bool, addNumbers: bool)
    requires useHook && !IsBlank(raw)
    ensures var posts := Assemble(raw, useHook, addNumbers);
      && |posts| == |SplitThread(raw, DefaultLimit)| + 1
      && posts[0] == (if addNumbers then Label(1, |posts|) else "") + CtHook(raw)
      && (!addNumbers ==> posts[1..] == SplitThread(raw, DefaultLimit))
  {
    var b := Bodies(raw, useHook);
    assert b[0] == CtHook(raw);
    assert b[1..] == SplitThread(raw, DefaultLimit);
  }

  /** With numbering on, every post reads back as its 1-based position, the
      length of the thread, and the unnumbered post; with numbering off the
      posts are the unnumbered ones. */
  lemma {:induction false} AssembleNumbering(raw: string, useHook: bool, addNumbers: bool)
    ensures var posts := Assemble(raw, useHook, addNumbers);
      && |posts| == |Bodies(raw, useHook)|
      && (addNumbers ==> forall i :: 0 <= i < |posts| ==>
            ParseLabel(posts[i]) == Some(Labelled(i + 1, |posts|, Bodies(raw, useHook)[i])))
      && (!addNumbers ==> posts == Bodies(raw, useHook))
  {
    var b := Bodies(raw, useHook);
    var posts := Assemble(raw, useHook, addNumbers);
    if addNumbers {
      forall i | 0 <= i < |posts|
        ensures ParseLabel(posts[i]) == Some(Labelled(i + 1, |posts|, b[i]))
      {
        LabelRoundTrip(i + 1, |b|, b[i]);
      }
    }
  }

  /** With numbering on, no two posts are equal. */
  lemma {:induction false} AssembleNumberedDistinct(raw: string, useHook: bool)
    ensures Distinct(Assemble(raw, useHook, true))
  {
    var posts := Assemble(raw, useHook, true);
    AssembleNumbering(raw, useHook, true);
    forall i, j | 0 <= i < j < |posts| ensures posts[i] != posts[j] {
      assert ParseLabel(posts[i]) != ParseLabel(posts[j]);
    }
  }

  /** The line of space-separated tags. */
  function TagLine(tags: seq<string>): string {
    Join(tags, " ")
  }

  /** Each post as copied: `s + (tags.length && final[final.length-1] === s ?
      "\n\n" + tags.join(' ') : '')`. The tag line is appended to every post
      equal to the last one, not only to the last position. */
  function Decorated(posts: seq<string>, tags: seq<string>): (r: seq<string>)
    ensures |r| == |posts|
  {
    if posts == [] then [] else DecorateEach(posts, posts[|posts| - 1], tags)
  }

  function DecorateEach(posts: seq<string>, last: string, tags: seq<string>): (r: seq<string>)
    ensures |r| == |posts|
    ensures forall k :: 0 <= k < |posts| ==>
      r[k] == posts[k] + (if |tags| > 0 && posts[k] == last then PostSeparator + TagLine(tags) else "")
  {
    if posts == [] then []
    else
      [posts[0] + (if |tags| > 0 && posts[0] == last then PostSeparator + TagLine(tags) else "")]
      + DecorateEach(posts[1..], last, tags)
  }

  /** The text `copyAll` writes to the clipboard. */
  function CopyText(posts: seq<string>, tags: seq<string>): string {
    Join(Decorated(posts, tags), PostSeparator)
  }

  /** What "Copy Thread" copies for a draft and the three switches. */
  function ThreadText(raw: string, useHook: bool, addNumbers: bool, addTags: bool): string {
    CopyText(Assemble(raw, useHook, addNumbers), if addTags then KeywordTags(raw, DefaultCount) else [])
  }

  lemma {:induction false} JoinAppendLast(xs: seq<string>, last: string, extra: string, sep: string)
    requires xs != []
    ensures Join(xs[..|xs| - 1] + [xs[|xs| - 1] + extra], sep) == Join(xs, sep) + extra
  {
    if |xs| > 1 {
      var ys := xs[..|xs| - 1] + [xs[|xs| - 1] + extra];
      assert ys[1..] == xs[1..][..|xs[1..]| - 1] + [xs[1..][|xs[1..]| - 1] + extra];
      JoinAppendLast(xs[1..], last, extra, sep);
    }
  }

  /** Without tags the copied text is the posts separated by blank lines. */
  lemma {:induction false} CopyTextNoTags(posts: seq<string>)
    ensures CopyText(posts, []) == Join(posts, PostSeparator)
  {
    if posts != [] {
      var d := Decorated(posts, []);
      forall k | 0 <= k < |posts| ensures d[k] == posts[k] {
        assert d[k] == posts[k] + "";
      }
      assert d == posts;
    }
  }

  lemma {:induction false} DecoratedUniqueLast(posts: seq<string>, tags: seq<string>)
    requires posts != [] && tags != []
    requires forall k :: 0 <= k < |posts| - 1 ==> posts[k] != posts[|posts| - 1]
    ensures Decorated(posts, tags)
         == posts[..|posts| - 1] + [posts[|posts| - 1] + PostSeparator + TagLine(tags)]
  {
    var d := Decorated(posts, tags);
    var e := posts[..|posts| - 1] + [posts[|posts| - 1] + PostSeparator + TagLine(tags)];
    forall k | 0 <= k < |posts| ensures d[k] == e[k] {
      if k < |posts| - 1 {
        assert d[k] == posts[k] + "";
      }
    }
  }

  /** When no earlier post repeats the last one, the tag line appears once,
      after the last post. */
  lemma {:induction false} CopyTextTagsAtEnd(posts: seq<string>, tags: seq<string>)
    requires posts != [] && tags != []
    requires forall k :: 0 <= k < |posts| - 1 ==> posts[k] != posts[|posts| - 1]
    ensures CopyText(posts, tags) == Join(posts, PostSeparator) + PostSeparator + TagLine(tags)
  {
    var extra := PostSeparator + TagLine(tags);
    DecoratedUniqueLast(posts, tags);
    assert posts[|posts| - 1] + PostSeparator + TagLine(tags) == posts[|posts| - 1] + extra;
    JoinAppendLast(posts, posts[|posts| - 1], extra, PostSeparator);
  }

  /** When all posts differ, the copied text is the posts separated by blank
      lines, followed by one tag line when there are posts and tags. */
  lemma {:induction false} CopyTextDistinct(posts: seq<string>, tags: seq<string>)
    requires Distinct(posts)
    ensures CopyText(posts, tags)
         == Join(posts, PostSeparator) + (if posts != [] && tags != [] then PostSeparator + TagLine(tags) else "")
  {
    if posts != [] && tags != [] {
      CopyTextTagsAtEnd(posts, tags);
    } else if tags == [] {
      CopyTextNoTags(posts);
    }
  }

  /** With numbering on, the copied text is the posts separated by blank
      lines followed, when there are tags and posts, by one tag line. */
  lemma {:induction false} ThreadTextNumbered(raw: string, useHook: bool, addTags: bool)
    ensures var posts := Assemble(raw, useHook, true);
      var tags := if addTags then KeywordTags(raw, DefaultCount) else [];
      ThreadText(raw, useHook, true, addTags)
        == Join(posts, PostSeparator) + (if posts != [] && tags != [] then PostSeparator + TagLine(tags) else "")
  {
    var posts := Assemble(raw, useHook, true);
    var tags := if addTags then KeywordTags(raw, DefaultCount) else [];
    assert ThreadText(raw, useHook, true, addTags) == CopyText(posts, tags);
    AssembleNumberedDistinct(raw, useHook);
    CopyTextDistinct(posts, tags);
  }

  /** A post that repeats the last one also gets the tag line: two equal
      posts carry it twice. */
  lemma {:induction false} CopyTextRepeatedLast(post: string, tags: seq<string>)
    requires tags != []
    ensures CopyText([post, post], tags)
         == post + PostSeparator + TagLine(tags) + PostSeparator + post + PostSeparator + TagLine(tags)
  {
    var d := Decorated([post, post], tags);
    assert d[0] == post + PostSeparator + TagLine(tags);
    assert d[1] == post + PostSeparator + TagLine(tags);
    assert d[1..] == [d[1]];
    assert Join(d, PostSeparator) == d[0] + PostSeparator + d[1];
  }

  lemma {:induction false} SpanNonSpaceOf(a: string, b: string)
    requires NoSpace(a)
    requires b == [] || IsSpace(b[0])
    ensures SpanNonSpace(a + b) == |a|
  {
    if a != [] {
      assert (a + b)[1..] == a[1..] + b;
      SpanNonSpaceOf(a[1..], b);
    }
  }

  lemma {:induction false} SplitTwoWords(w: string)
    requires w != [] && NoSpace(w)
    ensures Words(w + " " + w) == [w, w]
  {
    var s := w + " " + w;
    assert !IsSpace(s[0]) && !IsSpace(s[|s| - 1]);
    assert TrimStart(s) == s;
    assert Trim(s) == s;
    SpanNonSpaceOf(w, " " + w);
    assert s == w + (" " + w);
    var rest := s[|w|..];
    assert rest == " " + w;
    assert SpanSpace(rest) == 1;
    assert rest[1..] == w;
    SplitWsSingle(w);
  }

  lemma {:induction false} PackTwoEqual(w: string)
    requires 135 < |w| <= DefaultLimit
    ensures Pack([w, w], "", DefaultLimit) == [w, w]
  {
    assert [w, w][1..] == [w];
    assert Pack([w, w], "", DefaultLimit) == Pack([w], w, DefaultLimit);
    assert Pack([w], w, DefaultLimit) == [w] + Pack([], w, DefaultLimit);
  }

  /** With hook and numbering off, the posts are the chunks of the draft. */
  lemma PlainPosts(raw: string)
    ensures Assemble(raw, false, false) == SplitThread(raw, DefaultLimit)
  {
    assert Bodies(raw, false) == [] + SplitThread(raw, DefaultLimit);
  }

  /** A draft of one word of 136 to 270 characters written twice is cut
      into two equal chunks. */
  lemma {:induction false} TwoEqualChunks(w: string)
    requires w != [] && NoSpace(w) && 135 < |w| <= DefaultLimit
    ensures SplitThread(w + " " + w, DefaultLimit) == [w, w]
  {
    SplitTwoWords(w);
    PackTwoEqual(w);
  }

  /** The repeated-post case is reachable from a draft: with the hook and
      numbering off, a draft of one word of 136 to 270 characters written
      twice becomes two equal posts, and the copied text carries the tag
      line twice, once in the middle of the thread. */
  lemma {:induction false} RepeatedChunkTagLineTwice(w: string, tags: seq<string>)
    requires NoSpace(w) && 135 < |w| <= DefaultLimit
    requires tags != []
    ensures Assemble(w + " " + w, false, false) == [w, w]
    ensures CopyText(Assemble(w + " " + w, false, false), tags)
         == w + PostSeparator + TagLine(tags) + PostSeparator + w + PostSeparator + TagLine(tags)
  {
    PlainPosts(w + " " + w);
    TwoEqualChunks(w);
    CopyTextRepeatedLast(w, tags);
  }
}
