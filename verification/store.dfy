/** What the planner and the ideas board have in common: a list of records
    told apart by a string id, to which `add` appends a record under a new
    id and from which `del` removes by id with `prev.filter(x => x.id !== id)`. */
module Store {
  import opened Sorting

  /** No two records share an id. */
  predicate IdsUnique<T>(s: seq<T>, id: T -> string) {
    forall i, j :: 0 <= i < j < |s| ==> id(s[i]) != id(s[j])
  }

  /** No record uses the id `x`: what `crypto.randomUUID()` is relied on to
      deliver. */
  predicate IsFresh<T>(s: seq<T>, id: T -> string, x: string) {
    forall k :: 0 <= k < |s| ==> id(s[k]) != x
  }

  /** The filter predicate `x => x.id !== target`. */
  function Other<T>(id: T -> string, target: string): T -> bool {
    r => id(r) != target
  }

  /** `s.filter(x => x.id !== target)`. */
  function Remove<T>(s: seq<T>, id: T -> string, target: string): seq<T> {
    Filter(s, Other(id, target))
  }

  /** A record stays exactly when it was there and does not carry the id. */
  lemma RemoveMembers<T>(s: seq<T>, id: T -> string, target: string, r: T)
    ensures r in Remove(s, id, target) <==> r in s && id(r) != target
  {
    FilterMembers(s, Other(id, target));
    if r in s && id(r) != target {
      FilterKeeps(s, Other(id, target), r);
    }
  }

  /** Removing an id nobody uses changes nothing. */
  lemma RemoveAbsent<T>(s: seq<T>, id: T -> string, target: string)
    requires IsFresh(s, id, target)
    ensures Remove(s, id, target) == s
  {
    AllKept(s, Other(id, target));
  }

  /** Removing the one record with a given id leaves the records before it
      and the records after it, in their order. */
  lemma RemoveOne<T>(before: seq<T>, r: T, after: seq<T>, id: T -> string)
    requires IsFresh(before, id, id(r)) && IsFresh(after, id, id(r))
    ensures Remove(before + [r] + after, id, id(r)) == before + after
  {
    var p := Other(id, id(r));
    FilterAppend(before + [r], after, p);
    FilterAppend(before, [r], p);
    AllKept(before, p);
    AllKept(after, p);
    assert Filter([r], p) == [];
  }

  /** Appending a record under a fresh id keeps the ids unique. */
  lemma AppendFresh<T>(s: seq<T>, r: T, id: T -> string)
    requires IdsUnique(s, id) && IsFresh(s, id, id(r))
    ensures IdsUnique(s + [r], id)
  {
  }

  /** Removing records keeps the ids unique. */
  lemma {:induction false} RemoveKeepsUnique<T>(s: seq<T>, id: T -> string, target: string)
    requires IdsUnique(s, id)
    ensures IdsUnique(Remove(s, id, target), id)
  {
    if s != [] {
      var p := Other(id, target);
      RemoveKeepsUnique(s[1..], id, target);
      var tail := Filter(s[1..], p);
      FilterMembers(s[1..], p);
      forall k | 0 <= k < |tail| ensures id(tail[k]) != id(s[0]) {
        assert tail[k] in s[1..];
      }
    }
  }
}
