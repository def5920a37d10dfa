/** `ctHook`: the attention-grabbing lead post built from the start of the
    draft. */
module Hook {
  import opened Text

  /** HIGH VOLTAGE SIGN, VARIATION SELECTOR-16, space. */
  const HookPrefix: string := "\U{26A1}\U{FE0F} "
  /** Space, EM DASH, " read this ", DOWNWARDS ARROW. */
  const HookSuffix: string := " \U{2014} read this \U{2193}"
  /** The excerpt is a hard cut at this many characters, not at a word. */
  const ExcerptLength: nat := 120

  /** `ctHook(text)`: the first `ExcerptLength` characters of the trimmed draft,
      wrapped in the fixed prefix and suffix. */
  function CtHook(text: string): string {
    HookPrefix + Take(Trim(text), ExcerptLength) + HookSuffix
  }

  /** The text between the fixed prefix and suffix of a hook. */
  function Excerpt(hook: string): string
    requires |hook| >= |HookPrefix| + |HookSuffix|
  {
    hook[|HookPrefix|..|hook| - |HookSuffix|]
  }

  /** A hook starts with the prefix and ends with the suffix; what lies between
      is the start of the trimmed draft, cut at `ExcerptLength` characters,
      and is the whole trimmed draft when that is short enough. */
  lemma HookShape(text: string)
    ensures var h := CtHook(text);
      && |h| >= |HookPrefix| + |HookSuffix|
      && HookPrefix <= h
      && h[|h| - |HookSuffix|..] == HookSuffix
      && Excerpt(h) <= Trim(text)
      && |Excerpt(h)| == (if |Trim(text)| <= ExcerptLength then |Trim(text)| else ExcerptLength)
  {
    var h := CtHook(text);
    var e := Take(Trim(text), ExcerptLength);
    assert h == HookPrefix + e + HookSuffix;
    assert h[..|HookPrefix|] == HookPrefix;
    assert h[|h| - |HookSuffix|..] == HookSuffix;
    assert Excerpt(h) == e;
  }

  /** Hooks of drafts that agree on their first `ExcerptLength` trimmed
      characters coincide, and hooks with equal excerpts come from such
      drafts: the hook depends on that excerpt and nothing else. */
  lemma HookDeterminedByExcerpt(a: string, b: string)
    ensures CtHook(a) == CtHook(b) <==> Take(Trim(a), ExcerptLength) == Take(Trim(b), ExcerptLength)
  {
    if CtHook(a) == CtHook(b) {
      assert Excerpt(CtHook(a)) == Take(Trim(a), ExcerptLength);
      assert Excerpt(CtHook(b)) == Take(Trim(b), ExcerptLength);
    }
  }
}
