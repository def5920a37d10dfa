/** `keywordTags`: the most frequent meaningful words of a draft, as
    hashtags. */
module Tags {
  import opened Text
  import opened Sorting

  /** `STOPWORDS`: common English function words, plus "rt". */
  const Stopwords: set<string> := {
    "the", "a", "an", "and", "or", "but", "of", "to", "in", "on", "for", "with",
    "at", "by", "from", "as", "that", "this", "it", "is", "are", "was", "were",
    "be", "has", "have", "had", "will", "can", "do", "does", "did", "you", "your",
    "we", "our", "they", "their", "i", "me", "my", "rt"
  }

  /** How many tags `keywordTags` returns when the caller gives no count. */
  const DefaultCount: nat := 5

  /** Words shorter than this are never counted. */
  const MinWordLength: nat := 3

  /** `toLowerCase` on one character, restricted to ASCII letters. */
  function LowerChar(c: char): char {
    if 'A' <= c <= 'Z' then (c as int + 32) as char else c
  }

  function Lower(s: string): (r: string)
    ensures |r| == |s|
    ensures forall k :: 0 <= k < |s| ==> r[k] == LowerChar(s[k])
  {
    if s == [] then [] else [LowerChar(s[0])] + Lower(s[1..])
  }

  /** The characters of `[a-z0-9_]`. */
  predicate IsWordChar(c: char) {
    ('a' <= c <= 'z') || ('0' <= c <= '9') || c == '_'
  }

  /** The characters `replace(/[^a-z0-9_\s]/g, '')` leaves in place. */
  predicate KeptChar(c: char) {
    IsWordChar(c) || IsSpace(c)
  }

  /** `replace(/[^a-z0-9_\s]/g, '')`: drops every character that is neither a
      word character nor whitespace. */
  function Clean(s: string): (r: string)
    ensures |r| <= |s|
    ensures forall k :: 0 <= k < |r| ==> KeptChar(r[k])
  {
    if s == [] then []
    else (if KeptChar(s[0]) then [s[0]] else []) + Clean(s[1..])
  }

  /** The replacement works character by character: cleaning a concatenation
      cleans each part, in order. */
  lemma {:induction false} CleanAppend(a: string, b: string)
    ensures Clean(a + b) == Clean(a) + Clean(b)
  {
    if a == [] {
      assert a + b == b;
    } else {
      assert (a + b)[0] == a[0];
      assert (a + b)[1..] == a[1..] + b;
      CleanAppend(a[1..], b);
    }
  }

  /** A text made only of kept characters comes through unchanged, and a
      single character that is not kept is dropped. */
  lemma {:induction false} CleanKeepsAll(s: string, c: char)
    ensures (forall k :: 0 <= k < |s| ==> KeptChar(s[k])) ==> Clean(s) == s
    ensures !KeptChar(c) ==> Clean([c]) == []
  {
    if s != [] {
      CleanKeepsAll(s[1..], c);
      assert s == [s[0]] + s[1..];
    }
  }

  /** The test a token passes to be counted: not empty, not a stop word, at
      least `MinWordLength` characters. */
  predicate Counted(w: string) {
    w != [] && w !in Stopwords && |w| >= MinWordLength
  }

  /** The tokens that reach the counter, in the order they are met. */
  function Candidates(text: string): seq<string> {
    Filter(SplitWs(Clean(Lower(text))), Counted)
  }

  /** How often a word was counted. */
  function Occurrences(text: string, w: string): nat {
    multiset(Candidates(text))[w]
  }

  /** What a tag word looks like: only `[a-z0-9_]`, long enough, no stop
      word. */
  predicate TagWord(w: string) {
    && |w| >= MinWordLength
    && w !in Stopwords
    && forall k :: 0 <= k < |w| ==> IsWordChar(w[k])
  }

  /** The counter `counts[w] = (counts[w] || 0) + 1`, run over `ws`. */
  function Tally(ws: seq<string>): (counts: map<string, nat>)
    ensures forall w :: w in counts <==> w in ws
  {
    if ws == [] then map[]
    else
      var m := Tally(ws[..|ws| - 1]);
      var w := ws[|ws| - 1];
      assert ws == ws[..|ws| - 1] + [w];
      m[w := (if w in m then m[w] else 0) + 1]
  }

  /** The counter holds, for every word, the number of times it was met. */
  lemma {:induction false} TallyCounts(ws: seq<string>)
    ensures forall w :: w in Tally(ws) ==> Tally(ws)[w] == multiset(ws)[w]
  {
    if ws != [] {
      var init := ws[..|ws| - 1];
      TallyCounts(init);
      assert ws == init + [ws[|ws| - 1]];
    }
  }

  /** The counter's keys in insertion order: each word where it was first
      met. */
  function FirstSeen(ws: seq<string>): (keys: seq<string>)
    ensures Distinct(keys)
    ensures forall w :: w in keys <==> w in ws
  {
    if ws == [] then []
    else
      var d := FirstSeen(ws[..|ws| - 1]);
      var w := ws[|ws| - 1];
      assert ws == ws[..|ws| - 1] + [w];
      if w in d then d else d + [w]
  }

  /** `keys` lists words in the order they are first met in `ws`: a key
      listed before another was already met before any occurrence of the
      other. */
  predicate InFirstSeenOrder(keys: seq<string>, ws: seq<string>) {
    forall i, j, q :: 0 <= i < j < |keys| && 0 <= q < |ws| && ws[q] == keys[j] ==> keys[i] in ws[..q]
  }

  /** The counter's keys come in the order their words are first met. */
  lemma {:induction false} FirstSeenOrder(ws: seq<string>)
    ensures InFirstSeenOrder(FirstSeen(ws), ws)
  {
    if ws != [] {
      var init := ws[..|ws| - 1];
      var w := ws[|ws| - 1];
      FirstSeenOrder(init);
      var d := FirstSeen(init);
      var keys := FirstSeen(ws);
      assert ws == init + [w];
      assert keys == if w in d then d else d + [w];
      forall i, j, q | 0 <= i < j < |keys| && 0 <= q < |ws| && ws[q] == keys[j]
        ensures keys[i] in ws[..q]
      {
        assert keys[i] == d[i];
        if q < |init| {
          assert ws[q] == init[q] && ws[..q] == init[..q];
          assert keys[j] in d;
          assert keys[j] == d[j];
          assert d[i] in init[..q];
        } else {
          assert ws[..q] == init;
        }
      }
    }
  }

  /** A key JavaScript treats as an array index: the canonical decimal form
      of an integer below 2^32 - 1. */
  predicate IsIndexKey(k: string) {
    && k != []
    && AllDigits(k)
    && (|k| == 1 || k[0] != '0')
    && DecimalValue(k) < 0xFFFF_FFFF
  }

  predicate IsNamedKey(k: string) {
    !IsIndexKey(k)
  }

  /** The numeric value used to order index keys. */
  function KeyValue(k: string): nat {
    if AllDigits(k) then DecimalValue(k) else 0
  }

  function IndexLe(a: string, b: string): bool {
    KeyValue(a) <= KeyValue(b)
  }

  /** The order `Object.entries` lists an object's keys in: index keys in
      ascending numeric order, then every other key in insertion order. */
  function EnumerationOrder(keys: seq<string>): (ord: seq<string>)
    ensures multiset(ord) == multiset(keys)
  {
    FilterPartition(keys, IsIndexKey, IsNamedKey);
    Sort(Filter(keys, IsIndexKey), IndexLe) + Filter(keys, IsNamedKey)
  }

  lemma IndexLeTotal()
    ensures TotalPreorder(IndexLe)
  {
  }

  /** The enumeration lists every key exactly once. */
  lemma {:induction false} EnumerationDistinct(keys: seq<string>)
    requires Distinct(keys)
    ensures Distinct(EnumerationOrder(keys))
  {
    PermutationDistinct(keys, EnumerationOrder(keys));
  }

  lemma {:induction false} SortedIndexKeys(keys: seq<string>)
    ensures var sorted := Sort(Filter(keys, IsIndexKey), IndexLe);
      && (forall k :: 0 <= k < |sorted| ==> IsIndexKey(sorted[k]))
      && SortedBy(sorted, IndexLe)
  {
    var idx := Filter(keys, IsIndexKey);
    var sorted := Sort(idx, IndexLe);
    IndexLeTotal();
    SortSorted(idx, IndexLe);
    FilterMembers(keys, IsIndexKey);
    forall k | 0 <= k < |sorted| ensures IsIndexKey(sorted[k]) {
      assert sorted[k] in multiset(idx);
    }
  }

  lemma {:induction false} NamedKeys(keys: seq<string>)
    ensures forall k :: 0 <= k < |Filter(keys, IsNamedKey)| ==> !IsIndexKey(Filter(keys, IsNamedKey)[k])
  {
    var named := Filter(keys, IsNamedKey);
    FilterMembers(keys, IsNamedKey);
    forall k | 0 <= k < |named| ensures !IsIndexKey(named[k]) {
      assert named[k] in named;
    }
  }

  /** Index keys come first, in ascending numeric order. */
  lemma {:induction false} EnumerationIndexFirst(keys: seq<string>)
    ensures var ord := EnumerationOrder(keys);
      && (forall i, j :: 0 <= i < j < |ord| && IsIndexKey(ord[j]) ==> IsIndexKey(ord[i]))
      && (forall i, j :: 0 <= i < j < |ord| && IsIndexKey(ord[j]) ==> DecimalValue(ord[i]) <= DecimalValue(ord[j]))
  {
    var sorted := Sort(Filter(keys, IsIndexKey), IndexLe);
    var named := Filter(keys, IsNamedKey);
    var ord := EnumerationOrder(keys);
    assert ord == sorted + named;
    SortedIndexKeys(keys);
    NamedKeys(keys);
    forall i, j | 0 <= i < j < |ord| && IsIndexKey(ord[j])
      ensures IsIndexKey(ord[i]) && DecimalValue(ord[i]) <= DecimalValue(ord[j])
    {
      assert ord[i] == sorted[i];
      assert ord[j] == sorted[j];
      assert IndexLe(sorted[i], sorted[j]);
    }
  }

  /** Every other key keeps its insertion order. */
  lemma {:induction false} EnumerationNamedOrder(keys: seq<string>)
    ensures Filter(EnumerationOrder(keys), IsNamedKey) == Filter(keys, IsNamedKey)
  {
    var sorted := Sort(Filter(keys, IsIndexKey), IndexLe);
    var named := Filter(keys, IsNamedKey);
    SortedIndexKeys(keys);
    NamedKeys(keys);
    FilterAppend(sorted, named, IsNamedKey);
    NoneKept(sorted, IsNamedKey);
    AllKept(named, IsNamedKey);
  }

  /** One `[key, count]` pair of `Object.entries(counts)`. */
  datatype Entry = Entry(word: string, count: nat)

  function EntriesOf(keys: seq<string>, counts: map<string, nat>): (es: seq<Entry>)
    requires forall k :: k in keys ==> k in counts
    ensures |es| == |keys|
    ensures forall i :: 0 <= i < |keys| ==> es[i] == Entry(keys[i], counts[keys[i]])
  {
    if keys == [] then [] else [Entry(keys[0], counts[keys[0]])] + EntriesOf(keys[1..], counts)
  }

  /** `Object.entries(counts)` after counting the draft's candidates. */
  function Entries(text: string): seq<Entry> {
    var ws := Candidates(text);
    EnumeratedAreCounted(ws);
    EntriesOf(EnumerationOrder(FirstSeen(ws)), Tally(ws))
  }

  lemma EnumeratedAreCounted(ws: seq<string>)
    ensures forall k :: k in EnumerationOrder(FirstSeen(ws)) ==> k in Tally(ws)
  {
    var keys := FirstSeen(ws);
    var ord := EnumerationOrder(keys);
    forall k | k in ord ensures k in Tally(ws) {
      assert k in multiset(ord);
      assert k in multiset(keys);
    }
  }

  /** The comparator `(a, b) => b[1] - a[1]` read as "may stay in front":
      higher counts first. */
  function CountFirst(a: Entry, b: Entry): bool {
    a.count >= b.count
  }

  function WithCount(c: nat): Entry -> bool {
    (e: Entry) => e.count == c
  }

  /** The entries after the stable sort by descending count. */
  function Ranked(text: string): seq<Entry> {
    Sort(Entries(text), CountFirst)
  }

  /** The first `n` ranked entries: `.slice(0, n)`. */
  function Selected(text: string, n: nat): (sel: seq<Entry>)
    ensures sel <= Ranked(text)
    ensures |sel| == if |Ranked(text)| <= n then |Ranked(text)| else n
  {
    var r := Ranked(text);
    if |r| <= n then r else r[..n]
  }

  function Hashtags(es: seq<Entry>): (tags: seq<string>)
    ensures |tags| == |es|
    ensures forall i :: 0 <= i < |es| ==> tags[i] == "#" + es[i].word
  {
    if es == [] then [] else ["#" + es[0].word] + Hashtags(es[1..])
  }

  /** `keywordTags(text, n)`. */
  function KeywordTags(text: string, n: nat): seq<string> {
    Hashtags(Selected(text, n))
  }

  /** Every counted token is a tag word. */
  lemma CandidatesAreTagWords(text: string)
    ensures forall w :: w in Candidates(text) ==> TagWord(w)
  {
    var fields := SplitWs(Clean(Lower(text)));
    FieldsOfWordChars(Clean(Lower(text)));
    FilterMembers(fields, Counted);
  }

  lemma {:induction false} FieldsOfWordChars(s: string)
    requires forall k :: 0 <= k < |s| ==> KeptChar(s[k])
    ensures forall w :: w in SplitWs(s) ==> forall k :: 0 <= k < |w| ==> IsWordChar(w[k])
    decreases |s|
  {
    var i := SpanNonSpace(s);
    if i < |s| {
      var rest := s[i..];
      var j := SpanSpace(rest);
      var t := rest[j..];
      forall k | 0 <= k < |t| ensures KeptChar(t[k]) {
        assert t[k] == s[i + j + k];
      }
      FieldsOfWordChars(t);
      var first := s[..i];
      assert SplitWs(s) == [first] + SplitWs(t);
      forall k | 0 <= k < |first| ensures IsWordChar(first[k]) {
        assert first[k] == s[k];
        assert !IsSpace(first[k]);
      }
    } else {
      assert SplitWs(s) == [s];
      forall k | 0 <= k < |s| ensures IsWordChar(s[k]) {
        assert s[..i][k] == s[k];
      }
    }
  }

  /** No word has two entries. */
  lemma {:induction false} EntriesDistinct(text: string)
    ensures Distinct(Entries(text))
  {
    var ws := Candidates(text);
    var ord := EnumerationOrder(FirstSeen(ws));
    EnumerationDistinct(FirstSeen(ws));
    var es := Entries(text);
    forall i, j | 0 <= i < j < |es| ensures es[i] != es[j] {
      assert es[i].word == ord[i] && es[j].word == ord[j];
    }
  }

  /** Every entry pairs a word met in the draft with its number of
      occurrences, and every word met has its entry. */
  lemma {:induction false} EntriesCount(text: string)
    ensures forall e :: e in Entries(text) ==>
              e.word in Candidates(text) && e.count == Occurrences(text, e.word)
    ensures forall w :: w in Candidates(text) ==> Entry(w, Occurrences(text, w)) in Entries(text)
  {
    var ws := Candidates(text);
    var keys := FirstSeen(ws);
    var ord := EnumerationOrder(keys);
    var counts := Tally(ws);
    var es := Entries(text);
    TallyCounts(ws);
    forall e | e in es ensures e.word in ws && e.count == Occurrences(text, e.word) {
      var i :| 0 <= i < |es| && es[i] == e;
      assert ord[i] in multiset(keys);
    }
    forall w | w in ws ensures Entry(w, Occurrences(text, w)) in es {
      assert w in multiset(ord);
      var i :| 0 <= i < |ord| && ord[i] == w;
      assert es[i] == Entry(w, Occurrences(text, w));
    }
  }

  /** The ranked entries are the entries rearranged, highest count first. */
  lemma {:induction false} RankedSorted(text: string)
    ensures multiset(Ranked(text)) == multiset(Entries(text))
    ensures Distinct(Ranked(text))
    ensures forall i, j :: 0 <= i < j < |Ranked(text)| ==> Ranked(text)[i].count >= Ranked(text)[j].count
  {
    EntriesDistinct(text);
    PermutationDistinct(Entries(text), Ranked(text));
    SortSorted(Entries(text), CountFirst);
  }

  /** Entries of equal count keep their enumeration order. */
  lemma {:induction false} RankedStable(text: string, c: nat)
    ensures Filter(Ranked(text), WithCount(c)) == Filter(Entries(text), WithCount(c))
  {
    SortStable(Entries(text), CountFirst, WithCount(c));
  }

  /** What a ranked entry holds: a counted word and its number of
      occurrences. */
  lemma {:induction false} RankedCount(text: string)
    ensures forall e :: e in Ranked(text) ==>
              e.word in Candidates(text) && e.count == Occurrences(text, e.word)
    ensures forall w :: w in Candidates(text) ==> Entry(w, Occurrences(text, w)) in Ranked(text)
  {
    EntriesCount(text);
    var r := Ranked(text);
    forall e | e in r ensures e in Entries(text) {
      assert e in multiset(r);
    }
    forall w | w in Candidates(text) ensures Entry(w, Occurrences(text, w)) in r {
      assert Entry(w, Occurrences(text, w)) in multiset(Entries(text));
    }
  }

  /** The `i`th tag is `#` followed by the word of the `i`th ranked entry. */
  lemma {:induction false} TagWordAt(text: string, n: nat, i: nat)
    requires i < |KeywordTags(text, n)|
    ensures i < |Ranked(text)|
    ensures KeywordTags(text, n)[i] == "#" + Ranked(text)[i].word
    ensures KeywordTags(text, n)[i][1..] == Ranked(text)[i].word
  {
    var sel := Selected(text, n);
    assert sel[i] == Ranked(text)[i];
  }

  /** `keywordTags` returns at most `n` distinct hashtags, each `#` followed by
      a tag word that occurs in the draft. */
  lemma {:induction false} KeywordTagsShape(text: string, n: nat)
    ensures var tags := KeywordTags(text, n);
      && |tags| <= n
      && Distinct(tags)
      && (forall i :: 0 <= i < |tags| ==>
            && |tags[i]| >= 1 && tags[i][0] == '#'
            && tags[i][1..] in Candidates(text) && TagWord(tags[i][1..]))
  {
    var tags := KeywordTags(text, n);
    var r := Ranked(text);
    RankedSorted(text);
    RankedCount(text);
    CandidatesAreTagWords(text);
    forall i | 0 <= i < |tags|
      ensures |tags[i]| >= 1 && tags[i][0] == '#' && tags[i][1..] in Candidates(text)
    {
      TagWordAt(text, n, i);
      assert r[i] in r;
    }
    forall i, j | 0 <= i < j < |tags| ensures tags[i] != tags[j] {
      TagWordAt(text, n, i);
      TagWordAt(text, n, j);
      assert r[i] in r && r[j] in r;
    }
  }

  /** Where a counted word sits in the ranking. */
  lemma {:induction false} RankOf(text: string, w: string) returns (p: nat)
    requires w in Candidates(text)
    ensures p < |Ranked(text)| && Ranked(text)[p] == Entry(w, Occurrences(text, w))
  {
    RankedCount(text);
    var r := Ranked(text);
    assert Entry(w, Occurrences(text, w)) in r;
    p :| 0 <= p < |r| && r[p] == Entry(w, Occurrences(text, w));
  }

  /** A counted word without a tag is ranked after every tag. */
  lemma {:induction false} UntaggedRankedLater(text: string, n: nat, w: string) returns (p: nat)
    requires w in Candidates(text) && "#" + w !in KeywordTags(text, n)
    ensures p < |Ranked(text)| && Ranked(text)[p] == Entry(w, Occurrences(text, w))
    ensures p >= |KeywordTags(text, n)|
  {
    p := RankOf(text, w);
    var tags := KeywordTags(text, n);
    forall k | 0 <= k < |tags| ensures tags[k] == "#" + Ranked(text)[k].word {
      TagWordAt(text, n, k);
    }
  }

  /** Fewer than `n` tags come back only when every counted word has one. */
  lemma {:induction false} KeywordTagsComplete(text: string, n: nat)
    ensures var tags := KeywordTags(text, n);
      |tags| < n ==> forall w :: w in Candidates(text) ==> "#" + w in tags
  {
    var tags := KeywordTags(text, n);
    if |tags| < n {
      forall w | w in Candidates(text) ensures "#" + w in tags {
        var p := RankOf(text, w);
        assert |tags| == |Ranked(text)|;
        TagWordAt(text, n, p);
        assert tags[p] in tags;
      }
    }
  }

  /** The tags come in order of non-increasing frequency. */
  lemma {:induction false} KeywordTagsOrder(text: string, n: nat)
    ensures var tags := KeywordTags(text, n);
      forall i, j :: 0 <= i < j < |tags| ==>
        Occurrences(text, tags[i][1..]) >= Occurrences(text, tags[j][1..])
  {
    var tags := KeywordTags(text, n);
    var r := Ranked(text);
    RankedSorted(text);
    RankedCount(text);
    forall i, j | 0 <= i < j < |tags|
      ensures Occurrences(text, tags[i][1..]) >= Occurrences(text, tags[j][1..])
    {
      TagWordAt(text, n, i);
      TagWordAt(text, n, j);
      assert r[i] in r && r[j] in r;
    }
  }

  lemma {:induction false} TopNAt(text: string, n: nat, w: string, i: nat)
    requires w in Candidates(text) && "#" + w !in KeywordTags(text, n)
    requires i < |KeywordTags(text, n)|
    ensures Occurrences(text, KeywordTags(text, n)[i][1..]) >= Occurrences(text, w)
  {
    var r := Ranked(text);
    var p := UntaggedRankedLater(text, n, w);
    TagWordAt(text, n, i);
    RankedSorted(text);
    assert r[i].count >= r[p].count;
    RankedCount(text);
    assert r[i] in r;
  }

  /** Every counted word left out occurs no more often than any tag that made
      the cut. */
  lemma {:induction false} KeywordTagsTopN(text: string, n: nat)
    ensures var tags := KeywordTags(text, n);
      forall w, i :: w in Candidates(text) && "#" + w !in tags && 0 <= i < |tags| ==>
        Occurrences(text, tags[i][1..]) >= Occurrences(text, w)
  {
    var tags := KeywordTags(text, n);
    forall w, i | w in Candidates(text) && "#" + w !in tags && 0 <= i < |tags|
      ensures Occurrences(text, tags[i][1..]) >= Occurrences(text, w)
    {
      TopNAt(text, n, w, i);
    }
  }

  /** Ties are broken by enumeration order: among the entries behind the
      tags, those of any one count are the first entries of that count in
      `Object.entries` order, listed in that order. */
  lemma {:induction false} KeywordTagsTies(text: string, n: nat, c: nat)
    ensures Filter(Selected(text, n), WithCount(c)) <= Filter(Entries(text), WithCount(c))
  {
    RankedStable(text, c);
    FilterPrefix(Selected(text, n), Ranked(text), WithCount(c));
  }
}
