/** The ideas board (`IdeasBoard`): a backlog of ideas with a done flag. */
module Ideas {
  import opened Text
  import opened Store

  datatype Idea = Idea(id: string, text: string, done: bool)

  function IdeaId(i: Idea): string {
    i.id
  }

  /** `add`: nothing happens when the text is blank; otherwise a new, not yet
      done idea with the trimmed text goes at the end. */
  function Add(list: seq<Idea>, text: string, freshId: string): (r: seq<Idea>)
    ensures list <= r && |r| <= |list| + 1
  {
    if IsBlank(text) then list else list + [Idea(freshId, Trim(text), false)]
  }

  /** The checkbox's `onChange`: `prev.map(x => x.id === id ? {...x, done: checked} : x)`. */
  function SetDone(list: seq<Idea>, id: string, checked: bool): (r: seq<Idea>)
    ensures |r| == |list|
    ensures forall k :: 0 <= k < |list| && list[k].id != id ==> r[k] == list[k]
    ensures forall k :: 0 <= k < |list| && list[k].id == id ==>
              r[k].id == id && r[k].text == list[k].text && r[k].done == checked
  {
    if list == [] then []
    else
      var x := list[0];
      [if x.id == id then x.(done := checked) else x] + SetDone(list[1..], id, checked)
  }

  /** A click on the checkbox of the idea at position `k`: the box shows
      `done`, so the click reports the opposite value. */
  function Toggle(list: seq<Idea>, k: nat): seq<Idea>
    requires k < |list|
  {
    SetDone(list, list[k].id, !list[k].done)
  }

  /** The delete button: `prev.filter(x => x.id !== id)`. */
  function Delete(list: seq<Idea>, id: string): seq<Idea> {
    Remove(list, IdeaId, id)
  }

  /** An add is accepted exactly when the text is not blank, and then
      appends one idea with the new id, the trimmed text, and `done` false. */
  lemma AddOutcome(list: seq<Idea>, text: string, freshId: string)
    ensures var r := Add(list, text, freshId);
      && (r == list <==> IsBlank(text))
      && (r != list ==>
            && |r| == |list| + 1
            && r[|list|].id == freshId && r[|list|].text == Trim(text) && !r[|list|].done
            && r[|list|].text != [])
  {
  }

  lemma AddKeepsUnique(list: seq<Idea>, text: string, freshId: string)
    requires IdsUnique(list, IdeaId) && IsFresh(list, IdeaId, freshId)
    ensures IdsUnique(Add(list, text, freshId), IdeaId)
  {
    if !IsBlank(text) {
      AppendFresh(list, Idea(freshId, Trim(text), false), IdeaId);
    }
  }

  /** Deleting the id an add just used undoes the add. */
  lemma DeleteUndoesAdd(list: seq<Idea>, text: string, freshId: string)
    requires IsFresh(list, IdeaId, freshId)
    ensures Delete(Add(list, text, freshId), freshId) == list
  {
    if IsBlank(text) {
      RemoveAbsent(list, IdeaId, freshId);
    } else {
      var i := Idea(freshId, Trim(text), false);
      RemoveOne(list, i, [], IdeaId);
      assert list + [i] + [] == list + [i];
    }
  }

  /** After a delete, an idea is on the board exactly when it was there
      before and carries another id; a delete keeps the ids unique. */
  lemma DeleteOutcome(list: seq<Idea>, id: string, x: Idea)
    ensures x in Delete(list, id) <==> x in list && x.id != id
    ensures IdsUnique(list, IdeaId) ==> IdsUnique(Delete(list, id), IdeaId)
  {
    RemoveMembers(list, IdeaId, id, x);
    if IdsUnique(list, IdeaId) {
      RemoveKeepsUnique(list, IdeaId, id);
    }
  }

  /** Deleting the one idea with an id keeps the others in their order. */
  lemma DeleteOne(before: seq<Idea>, x: Idea, after: seq<Idea>)
    requires IsFresh(before, IdeaId, x.id) && IsFresh(after, IdeaId, x.id)
    ensures Delete(before + [x] + after, x.id) == before + after
  {
    RemoveOne(before, x, after, IdeaId);
  }

  /** Setting the flag of an id nobody uses changes nothing. */
  lemma SetDoneAbsent(list: seq<Idea>, id: string, checked: bool)
    requires IsFresh(list, IdeaId, id)
    ensures SetDone(list, id, checked) == list
  {
  }

  /** Setting the flag keeps the ids, so it keeps them unique; and setting
      it to the value it already has changes nothing more. */
  lemma SetDoneIds(list: seq<Idea>, id: string, checked: bool)
    ensures IdsUnique(list, IdeaId) ==> IdsUnique(SetDone(list, id, checked), IdeaId)
    ensures SetDone(SetDone(list, id, checked), id, checked) == SetDone(list, id, checked)
  {
  }

  /** A click flips the flag of the clicked idea and of nothing else, and,
      with unique ids, a second click on the same idea restores the board. */
  lemma ToggleTwice(list: seq<Idea>, k: nat)
    requires k < |list|
    requires IdsUnique(list, IdeaId)
    ensures Toggle(list, k)[k].done == !list[k].done
    ensures forall j :: 0 <= j < |list| && j != k ==> Toggle(list, k)[j] == list[j]
    ensures Toggle(Toggle(list, k), k) == list
  {
    var once := Toggle(list, k);
    var twice := Toggle(once, k);
    assert forall j :: 0 <= j < |list| && j != k ==> list[j].id != list[k].id;
    forall j | 0 <= j < |list| ensures twice[j] == list[j] {
      if j == k {
        assert twice[k] == list[k].(done := list[k].done);
      }
    }
  }
}
