/** `splitThread`: greedy, word-boundary chunking of a draft into posts of at
    most `limit` characters. */
module Chunker {
  import opened Text

  /** The limit `splitThread` uses when the caller gives none. */
  const DefaultLimit: int := 270

  /** The joined form of the pending buffer followed by the words still to
      come: what the remaining parts must spell out. */
  function Pending(cur: string, words: seq<string>): seq<string> {
    (if cur != [] then [cur] else []) + words
  }

  /** The loop of `splitThread` from the point where `cur` is the buffer and
      `words` the tokens not yet consumed. A token that would push the buffer
      past `limit` closes the buffer (if it holds anything) and starts a new
      one on its own, even when it is itself longer than `limit`. */
  function Pack(words: seq<string>, cur: string, limit: int): (parts: seq<string>)
    ensures forall k :: 0 <= k < |parts| ==> parts[k] != []
    ensures cur != [] ==> parts != []
  {
    if words == [] then (if cur != [] then [cur] else [])
    else
      var w := words[0];
      var next := if cur != [] then cur + " " + w else w;
      if |next| > limit then (if cur != [] then [cur] else []) + Pack(words[1..], w, limit)
      else Pack(words[1..], next, limit)
  }

  /** `splitThread(text, limit)`. */
  function SplitThread(text: string, limit: int): seq<string> {
    Pack(Words(text), "", limit)
  }

  /** Packing neither drops, duplicates nor reorders a word: the parts, joined
      with single spaces, spell the pending buffer and words joined the same
      way. */
  lemma {:induction false} PackJoin(words: seq<string>, cur: string, limit: int)
    requires forall k :: 0 <= k < |words| ==> words[k] != []
    ensures Join(Pack(words, cur, limit), " ") == Join(Pending(cur, words), " ")
  {
    if words != [] {
      var w := words[0];
      var rest := words[1..];
      assert words == [w] + rest;
      var next := if cur != [] then cur + " " + w else w;
      if |next| > limit {
        PackJoin(rest, w, limit);
        if cur != [] {
          JoinCons(cur, Pack(rest, w, limit), " ");
          JoinCons(cur, [w] + rest, " ");
          assert Pending(w, rest) == [w] + rest;
        } else {
          assert Pack(words, cur, limit) == Pack(rest, w, limit);
          assert Pending(cur, words) == words;
          assert Pending(w, rest) == [w] + rest;
        }
      } else {
        PackJoin(rest, next, limit);
        if cur != [] {
          assert Pending(next, rest) == [next] + rest;
          assert Pending(cur, words) == [cur] + ([w] + rest);
          JoinCons(cur, [w] + rest, " ");
          if rest != [] {
            JoinCons(next, rest, " ");
            JoinCons(w, rest, " ");
          }
        } else {
          assert Pending(cur, words) == Pending(next, rest);
        }
      }
    }
  }

  /** A part is either within the limit or one of the original words. */
  lemma {:induction false} PackBound(words: seq<string>, cur: string, limit: int, all: seq<string>)
    requires forall k :: 0 <= k < |words| ==> words[k] in all
    requires cur == [] || |cur| <= limit || cur in all
    ensures forall p :: p in Pack(words, cur, limit) ==> |p| <= limit || p in all
  {
    if words != [] {
      var w := words[0];
      var next := if cur != [] then cur + " " + w else w;
      if |next| > limit {
        PackBound(words[1..], w, limit, all);
      } else {
        PackBound(words[1..], next, limit, all);
      }
    }
  }

  /** The single empty word of a blank draft produces no part. */
  lemma PackEmptyWord(words: seq<string>, limit: int)
    requires words == [""]
    ensures Pack(words, "", limit) == []
  {
  }

  /** Packing a non-empty list of non-empty words yields at least one part. */
  lemma PackNonEmpty(words: seq<string>, limit: int)
    requires words != [] && words[0] != []
    ensures Pack(words, "", limit) != []
  {
  }

  /** Joined with single spaces, the parts of a draft are exactly the
      whitespace-separated words of the trimmed draft joined the same way: no
      word is dropped, duplicated or reordered. That is the trimmed draft
      with each whitespace run squeezed to one space. */
  lemma {:induction false} SplitThreadJoin(text: string, limit: int)
    ensures Join(SplitThread(text, limit), " ") == Join(Words(text), " ")
    ensures Join(SplitThread(text, limit), " ") == Squeeze(Trim(text))
  {
    var ws := Words(text);
    SplitWsJoin(Trim(text));
    if IsBlank(text) {
      WordsOfBlank(text);
      PackEmptyWord(ws, limit);
    } else {
      WordsOfNonBlank(text);
      PackJoin(ws, "", limit);
      assert Pending("", ws) == ws;
    }
  }

  /** Every part is within the limit, except a part that is a single word
      longer than the limit on its own. */
  lemma {:induction false} SplitThreadBound(text: string, limit: int)
    ensures forall p :: p in SplitThread(text, limit) ==>
              |p| <= limit || (p in Words(text) && NoSpace(p))
  {
    var ws := Words(text);
    WordsNoSpace(text);
    PackBound(ws, "", limit, ws);
    forall p | p in SplitThread(text, limit) ensures |p| <= limit || (p in ws && NoSpace(p)) {
      if |p| > limit {
        assert p in ws;
      }
    }
  }

  /** No part is empty, and there are no parts exactly when the draft is
      blank. */
  lemma {:induction false} SplitThreadEmpty(text: string, limit: int)
    ensures forall k :: 0 <= k < |SplitThread(text, limit)| ==> SplitThread(text, limit)[k] != []
    ensures SplitThread(text, limit) == [] <==> IsBlank(text)
  {
    var ws := Words(text);
    if IsBlank(text) {
      WordsOfBlank(text);
      PackEmptyWord(ws, limit);
    } else {
      WordsOfNonBlank(text);
      PackNonEmpty(ws, limit);
    }
  }

  /** The first part of a non-empty buffer holds at least the buffer. */
  lemma {:induction false} PackFirst(words: seq<string>, cur: string, limit: int)
    requires cur != []
    ensures Pack(words, cur, limit) != [] && |Pack(words, cur, limit)[0]| >= |cur|
  {
    if words != [] {
      var w := words[0];
      var next := cur + " " + w;
      if |next| <= limit {
        PackFirst(words[1..], next, limit);
      }
    }
  }

  /** No two neighbouring parts would fit in one part together, joined by a
      space. */
  predicate Greedy(parts: seq<string>, limit: int) {
    forall i :: 0 <= i < |parts| - 1 ==> |parts[i]| + 1 + |parts[i + 1]| > limit
  }

  /** Packing is greedy: a part is closed only when the next word does not
      fit after it. */
  lemma {:induction false} PackGreedy(words: seq<string>, cur: string, limit: int)
    requires forall k :: 0 <= k < |words| ==> words[k] != []
    ensures Greedy(Pack(words, cur, limit), limit)
  {
    if words != [] {
      var w := words[0];
      var rest := words[1..];
      var next := if cur != [] then cur + " " + w else w;
      if |next| > limit {
        PackGreedy(rest, w, limit);
        PackFirst(rest, w, limit);
        var q := Pack(rest, w, limit);
        if cur != [] {
          var p := Pack(words, cur, limit);
          assert p == [cur] + q;
          forall i | 0 <= i < |p| - 1 ensures |p[i]| + 1 + |p[i + 1]| > limit {
            if i > 0 {
              assert p[i] == q[i - 1] && p[i + 1] == q[i];
            }
          }
        }
      } else {
        PackGreedy(rest, next, limit);
      }
    }
  }

  /** `splitThread` is greedy: any two neighbouring parts, joined by a
      space, would exceed the limit. */
  lemma {:induction false} SplitThreadGreedy(text: string, limit: int)
    ensures Greedy(SplitThread(text, limit), limit)
  {
    if IsBlank(text) {
      WordsOfBlank(text);
      PackEmptyWord(Words(text), limit);
    } else {
      WordsOfNonBlank(text);
      PackGreedy(Words(text), "", limit);
    }
  }
}
