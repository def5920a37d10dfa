/** The content planner (`Planner`): a list of scheduled slots with add,
    delete and clear, listed in date+time order and exported as CSV. */
module Planner {
  import opened Text
  import opened Sorting
  import opened Csv
  import opened Store

  /** One scheduled post. `date` comes from a date picker (`YYYY-MM-DD`, or
      empty when nothing is picked) and `time` from a picker of `HH:MM`
      times. */
  datatype Slot = Slot(id: string, date: string, time: string, text: string)

  function SlotId(s: Slot): string {
    s.id
  }

  /** `add`: nothing happens unless a date and a time are picked and the text
      is not blank; otherwise one slot with the trimmed text goes at the end. */
  function Add(items: seq<Slot>, date: string, time: string, text: string, freshId: string): (r: seq<Slot>)
    ensures items <= r && |r| <= |items| + 1
  {
    if date == [] || time == [] || IsBlank(text) then items
    else items + [Slot(freshId, date, time, Trim(text))]
  }

  /** `del(id)`. */
  function Delete(items: seq<Slot>, id: string): seq<Slot> {
    Remove(items, SlotId, id)
  }

  /** The Clear button: everything goes when the confirmation is accepted,
      nothing otherwise. */
  function Clear(items: seq<Slot>, confirmed: bool): (r: seq<Slot>)
    ensures confirmed ==> r == []
    ensures !confirmed ==> r == items
  {
    if confirmed then [] else items
  }

  /** A confirmed clear leaves a list whose export is the header record
      alone, and under which every id is new; a declined clear changes
      neither the list nor its export. */
  lemma ClearExport(items: seq<Slot>, id: string)
    ensures ExportCsv(Clear(items, true)) == "\"date\",\"time\",\"text\""
    ensures IsFresh(Clear(items, true), SlotId, id)
    ensures ExportCsv(Clear(items, false)) == ExportCsv(items)
  {
    assert ExportRows([]) == [Header];
    assert RowTexts([Header]) == [RowText(Header)];
    HeaderText();
  }

  /** The header record as written. */
  lemma HeaderText()
    ensures RowText(Header) == "\"date\",\"time\",\"text\""
  {
    HeaderCells();
    QuoteHeaderCells();
    HeaderLiteral();
  }

  lemma QuoteHeaderCells()
    ensures QuoteCell("date") == "\"date\""
    ensures QuoteCell("time") == "\"time\""
    ensures QuoteCell("text") == "\"text\""
  {
    QuotePlain("date");
    QuotePlain("time");
    QuotePlain("text");
  }

  lemma HeaderLiteral()
    ensures "\"date\"" + "," + "\"time\"" + "," + "\"text\"" == "\"date\",\"time\",\"text\""
  {
  }

  lemma HeaderCells()
    ensures RowText(Header) == QuoteCell("date") + "," + QuoteCell("time") + "," + QuoteCell("text")
  {
    QuoteAllThree("date", "time", "text");
    JoinThree(QuoteCell("date"), QuoteCell("time"), QuoteCell("text"), ",");
  }

  lemma QuotePlain(cell: string)
    requires forall k :: 0 <= k < |cell| ==> cell[k] != '"'
    ensures QuoteCell(cell) == "\"" + cell + "\""
  {
    EscapeNoQuote(cell);
  }

  lemma QuoteAllThree(a: string, b: string, c: string)
    ensures QuoteAll([a, b, c]) == [QuoteCell(a), QuoteCell(b), QuoteCell(c)]
  {
    assert [c][1..] == [];
    assert QuoteAll([c]) == [QuoteCell(c)];
    assert [b, c][1..] == [c];
    assert QuoteAll([b, c]) == [QuoteCell(b)] + QuoteAll([c]);
    assert [a, b, c][1..] == [b, c];
    assert QuoteAll([a, b, c]) == [QuoteCell(a)] + QuoteAll([b, c]);
  }

  lemma JoinThree(x: string, y: string, z: string, sep: string)
    ensures Join([x, y, z], sep) == x + sep + y + sep + z
  {
    assert [x] + [y, z] == [x, y, z];
    assert [y] + [z] == [y, z];
    JoinCons(x, [y, z], sep);
    JoinCons(y, [z], sep);
  }

  /** An add is accepted exactly when a date and a time are picked and the
      text is not blank; an accepted add appends one slot carrying the new id,
      the date, the time and the text without its surrounding whitespace,
      which is then non-empty and neither starts nor ends with whitespace. */
  lemma AddOutcome(items: seq<Slot>, date: string, time: string, text: string, freshId: string)
    ensures var r := Add(items, date, time, text, freshId);
      && (r == items <==> date == [] || time == [] || IsBlank(text))
      && (r != items ==>
            && |r| == |items| + 1
            && r[|items|].id == freshId && r[|items|].date == date && r[|items|].time == time
            && r[|items|].text == Trim(text)
            && r[|items|].text != []
            && !IsSpace(r[|items|].text[0]) && !IsSpace(r[|items|].text[|r[|items|].text| - 1]))
  {
    TrimIsSlice(text);
  }

  /** Adding under a fresh id keeps the ids unique. */
  lemma AddKeepsUnique(items: seq<Slot>, date: string, time: string, text: string, freshId: string)
    requires IdsUnique(items, SlotId) && IsFresh(items, SlotId, freshId)
    ensures IdsUnique(Add(items, date, time, text, freshId), SlotId)
  {
    if Add(items, date, time, text, freshId) != items {
      AppendFresh(items, Slot(freshId, date, time, Trim(text)), SlotId);
    }
  }

  /** Deleting the id an add just used undoes the add. */
  lemma DeleteUndoesAdd(items: seq<Slot>, date: string, time: string, text: string, freshId: string)
    requires IsFresh(items, SlotId, freshId)
    ensures Delete(Add(items, date, time, text, freshId), freshId) == items
  {
    if Add(items, date, time, text, freshId) == items {
      RemoveAbsent(items, SlotId, freshId);
    } else {
      var s := Slot(freshId, date, time, Trim(text));
      RemoveOne(items, s, [], SlotId);
      assert items + [s] + [] == items + [s];
    }
  }

  /** After a delete, a slot is in the list exactly when it was there before
      and carries another id; a delete keeps the ids unique. */
  lemma DeleteOutcome(items: seq<Slot>, id: string, s: Slot)
    ensures s in Delete(items, id) <==> s in items && s.id != id
    ensures IdsUnique(items, SlotId) ==> IdsUnique(Delete(items, id), SlotId)
  {
    RemoveMembers(items, SlotId, id, s);
    if IdsUnique(items, SlotId) {
      RemoveKeepsUnique(items, SlotId, id);
    }
  }

  /** Deleting the one slot with an id keeps the others in their order. */
  lemma DeleteOne(before: seq<Slot>, s: Slot, after: seq<Slot>)
    requires IsFresh(before, SlotId, s.id) && IsFresh(after, SlotId, s.id)
    ensures Delete(before + [s] + after, s.id) == before + after
  {
    RemoveOne(before, s, after, SlotId);
  }

  /** `a.localeCompare(b) <= 0`, taken as code-point order: `a` is a prefix
      of `b` or is smaller at the first difference. */
  predicate LexLe(a: string, b: string) {
    a == [] || (b != [] && (a[0] < b[0] || (a[0] == b[0] && LexLe(a[1..], b[1..]))))
  }

  lemma {:induction false} LexLeTotal(a: string, b: string)
    ensures LexLe(a, b) || LexLe(b, a)
  {
    if a != [] && b != [] && a[0] == b[0] {
      LexLeTotal(a[1..], b[1..]);
    }
  }

  lemma {:induction false} LexLeTrans(a: string, b: string, c: string)
    requires LexLe(a, b) && LexLe(b, c)
    ensures LexLe(a, c)
  {
    if a != [] && b != [] && c != [] && a[0] == b[0] && b[0] == c[0] {
      LexLeTrans(a[1..], b[1..], c[1..]);
    }
  }

  lemma {:induction false} LexLeAntisymmetric(a: string, b: string)
    requires LexLe(a, b) && LexLe(b, a)
    ensures a == b
  {
    if a != [] {
      LexLeAntisymmetric(a[1..], b[1..]);
      assert a == [a[0]] + a[1..];
      assert b == [b[0]] + b[1..];
    }
  }

  /** On keys whose first parts have equal length, the order compares the
      first parts and, only when they are equal, the second parts. */
  lemma {:induction false} LexLeAppend(x1: string, x2: string, y1: string, y2: string)
    requires |x1| == |y1|
    ensures LexLe(x1 + x2, y1 + y2)
        <==> (x1 != y1 && LexLe(x1, y1)) || (x1 == y1 && LexLe(x2, y2))
  {
    if x1 == [] {
      assert x1 + x2 == x2 && y1 + y2 == y2;
    } else {
      assert (x1 + x2)[0] == x1[0] && (x1 + x2)[1..] == x1[1..] + x2;
      assert (y1 + y2)[0] == y1[0] && (y1 + y2)[1..] == y1[1..] + y2;
      LexLeAppend(x1[1..], x2, y1[1..], y2);
      if x1[0] == y1[0] {
        assert x1 == y1 <==> x1[1..] == y1[1..] by {
          assert x1 == [x1[0]] + x1[1..];
          assert y1 == [y1[0]] + y1[1..];
        }
      } else {
        assert x1 != y1 by {
          assert x1[0] != y1[0];
        }
      }
    }
  }

  /** The sort key `a.date + a.time`. */
  function SortKey(s: Slot): string {
    s.date + s.time
  }

  /** The comparator of the listing and the export, as "may stay in front of". */
  predicate SlotLe(a: Slot, b: Slot) {
    LexLe(SortKey(a), SortKey(b))
  }

  /** Ordering slots by the concatenated key is ordering them by date and,
      on the same date, by time, as long as the dates have the same length
      (which all `YYYY-MM-DD` dates do). */
  lemma KeyOrder(a: Slot, b: Slot)
    requires |a.date| == |b.date|
    ensures SlotLe(a, b)
        <==> (a.date != b.date && LexLe(a.date, b.date)) || (a.date == b.date && LexLe(a.time, b.time))
  {
    LexLeAppend(a.date, a.time, b.date, b.time);
  }

  lemma SlotOrder()
    ensures TotalPreorder(SlotLe)
  {
    forall a: Slot, b: Slot ensures SlotLe(a, b) || SlotLe(b, a) {
      LexLeTotal(SortKey(a), SortKey(b));
    }
    forall a: Slot, b: Slot, c: Slot | SlotLe(a, b) && SlotLe(b, c) ensures SlotLe(a, c) {
      LexLeTrans(SortKey(a), SortKey(b), SortKey(c));
    }
  }

  /** `items.sort((a, b) => (a.date + a.time).localeCompare(b.date + b.time))`,
      as used by the listing and the export: the same slots, rearranged. */
  function Listing(items: seq<Slot>): (r: seq<Slot>)
    ensures multiset(r) == multiset(items)
    ensures |r| == |items|
  {
    var r := Sort(items, SlotLe);
    assert |multiset(r)| == |multiset(items)|;
    r
  }

  /** The listing is ordered by key: a slot with a strictly smaller key is
      listed before a slot with a larger one. */
  lemma ListingOrdered(items: seq<Slot>)
    ensures SortedBy(Listing(items), SlotLe)
    ensures forall i, j :: (0 <= i < |Listing(items)| && 0 <= j < |Listing(items)|
                            && !SlotLe(Listing(items)[j], Listing(items)[i])) ==> i < j
  {
    SlotOrder();
    SortSorted(items, SlotLe);
  }

  /** The slots that share one key. */
  function WithKey(key: string): Slot -> bool {
    s => SortKey(s) == key
  }

  /** Slots with the same date and time are listed in the order they were
      added. */
  lemma ListingStable(items: seq<Slot>, key: string)
    ensures Filter(Listing(items), WithKey(key)) == Filter(items, WithKey(key))
  {
    LexLeTotal(key, key);
    SortStable(items, SlotLe, WithKey(key));
  }

  /** `['date', 'time', 'text']`. */
  const Header: seq<string> := ["date", "time", "text"]

  /** `[i.date, i.time, i.text]`. */
  function Row(s: Slot): seq<string> {
    [s.date, s.time, s.text]
  }

  function Rows(slots: seq<Slot>): (r: seq<seq<string>>)
    ensures |r| == |slots|
    ensures forall k :: 0 <= k < |slots| ==> r[k] == Row(slots[k])
  {
    if slots == [] then [] else [Row(slots[0])] + Rows(slots[1..])
  }

  /** The rows `exportCSV` hands to `toCSV`. */
  function ExportRows(items: seq<Slot>): seq<seq<string>> {
    [Header] + Rows(Listing(items))
  }

  /** The text of `planner.csv`. */
  function ExportCsv(items: seq<Slot>): string {
    ToCsv(ExportRows(items))
  }

  /** Reading `planner.csv` back gives the header and then one
      `date, time, text` record per slot, in listing order. */
  lemma ExportReadBack(items: seq<Slot>)
    ensures var doc := ParseCsv(ExportCsv(items));
      && doc.Some?
      && |doc.value| == |items| + 1
      && doc.value[0] == Header
      && (forall k :: 0 <= k < |items| ==> doc.value[k + 1] == Row(Listing(items)[k]))
  {
    var rows := ExportRows(items);
    assert forall k :: 0 <= k < |rows| ==> rows[k] != [];
    CsvRoundTrip(rows);
  }
}
