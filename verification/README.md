# CryptoSnack content tools, modelled in Dafny

This project models the logic of `app/page.tsx`, a single-page tool for
writing social-media threads. Its parts are:

- **Thread composer.** It cuts a draft into posts at word boundaries
  (`splitThread`). A post holds at most 270 characters, unless it is a
  single word that is longer than that on its own. It can put a "hook" post in front
  (`ctHook`) and number the posts `i/N`. It extracts up to five hashtags by
  word frequency (`keywordTags`, with its `STOPWORDS`). "Copy Thread" joins
  everything into one clipboard text.
- **Content planner.** A list of scheduled slots (date, time, text) with
  add, delete and clear. It is listed in date+time order and exported as
  `planner.csv` through `toCSV`.
- **Ideas board.** A list of ideas with add, a done checkbox and delete.

Every operation is a pure function over sequences. React state updates
become functions from the old list to the new one. Browser services become
parameters: the fresh id from `crypto.randomUUID()` and the answer of the
`confirm` dialog.

Modules, one per file:

| file | module | what it holds |
|---|---|---|
| text.dfy | `Text` | ECMAScript whitespace, `trim`, `split(/\s+/)`, join, `slice`, decimal numerals |
| sorting.dfy | `Sorting` | `filter` and the stable sort behind `Array.prototype.sort` |
| chunker.dfy | `Chunker` | `splitThread` |
| hook.dfy | `Hook` | `ctHook` |
| tags.dfy | `Tags` | `STOPWORDS` and `keywordTags`, including the `Object.entries` key order |
| csv.dfy | `Csv` | `toCSV`, and a reader for exactly that dialect |
| thread.dfy | `Thread` | the `final` post sequence and the "Copy Thread" text |
| store.dfy | `Store` | what both lists share: unique string ids and removal by id |
| planner.dfy | `Planner` | the planner list, its ordering and its export |
| ideas.dfy | `Ideas` | the ideas list |

Four behaviours of the code differ from what a reader of the page would
expect. The model follows the code in each:

- **Copy text.** One would expect the copied text to carry the tag line
  once, after the last post. The code appends it to every post that is
  equal, as a string, to the last post (`Thread.CopyText`). With numbering
  on, all posts differ, so it appears once (`Thread.ThreadTextNumbered`).
  With numbering off, two equal posts can both carry it
  (`Thread.RepeatedChunkTagLineTwice`).
- **Tag ties.** One would expect equal counts to keep the order in which
  their words first appear (`Tags.FirstSeenOrder`). The code sorts
  `Object.entries(counts)`, and that lists keys which are array indices
  first, in numeric order (a word such as `2025`). Only then do the other
  keys follow, in insertion order (`Tags.EnumerationOrder`).
- **Ideas toggle.** The checkbox does not flip `done`: the code sets `done`
  to the checkbox's `checked` value. A click reports the opposite of the
  displayed value, so a click flips it (`Ideas.ToggleTwice`). Setting the
  same value twice changes nothing more (`Ideas.SetDoneIds`).
- **Planner add.** One would expect every blank field to be rejected. The
  code rejects a text that is blank after trimming, but a date or a time
  only when it is the empty string (`Planner.AddOutcome`).

## Model

| member | source | states |
|---|---|---|
| Text.TrimIsSlice | app/page.tsx:15 | `trim` returns a slice of the input that neither starts nor ends with whitespace, and what it drops on either side is all whitespace |
| Text.BlankIffAllSpace | app/page.tsx:132 | a text is blank (`!text.trim()`) exactly when every character is whitespace |
| Text.SplitWs | app/page.tsx:15 | `split(/\s+/)` returns at least one field and no field contains whitespace |
| Text.SplitWsJoin | app/page.tsx:15 | splitting on whitespace runs and joining with single spaces replaces each whitespace run by one space and changes nothing else |
| Text.WordsOfBlank | app/page.tsx:15 | a blank draft splits into the single empty token |
| Text.WordsOfNonBlank | app/page.tsx:15 | a non-blank trimmed draft splits into non-empty tokens only |
| Text.DecimalRoundTrip | app/page.tsx:68 | the decimal numeral written in a label reads back as the same number |
| Chunker.Pack | app/page.tsx:18-23 | the greedy loop never emits an empty part, and emits at least one part when the buffer holds text |
| Chunker.PackJoin | app/page.tsx:18-23 | the parts, joined with single spaces, spell the buffer and the remaining words joined the same way |
| Chunker.SplitThreadJoin | app/page.tsx:13-24 | joining the parts with single spaces gives the whitespace-separated tokens of the trimmed draft joined with single spaces, which is the trimmed draft with each whitespace run squeezed to one space: nothing is dropped, duplicated or reordered |
| Chunker.SplitThreadBound | app/page.tsx:13-24 | every part is within the limit, except a part that is a single whitespace-free word of the draft longer than the limit on its own |
| Chunker.PackGreedy | app/page.tsx:18-21 | the loop closes a part only when the next word does not fit after it, so no two neighbouring parts would fit in one part together |
| Chunker.SplitThreadGreedy | app/page.tsx:13-24 | chunking is greedy: any two neighbouring parts, joined by a space, exceed the limit |
| Chunker.SplitThreadEmpty | app/page.tsx:13-24 | no part is empty, and there are no parts exactly when the draft is blank |
| Hook.HookShape | app/page.tsx:26-29 | the hook is the fixed prefix, the first 120 characters of the trimmed draft (all of it when shorter), and the fixed suffix |
| Hook.HookDeterminedByExcerpt | app/page.tsx:26-29 | two drafts give the same hook exactly when their trimmed drafts agree on the first 120 characters |
| Tags.Lower | app/page.tsx:33 | lowercasing keeps the length and maps every character on its own |
| Tags.Clean | app/page.tsx:33 | after the `replace`, only `[a-z0-9_]` and whitespace remain, and the text is no longer than before |
| Tags.CleanAppend | app/page.tsx:33 | the `replace` works character by character: cleaning a concatenation cleans each part, in order |
| Tags.CleanKeepsAll | app/page.tsx:33 | a text of `[a-z0-9_]` and whitespace comes through unchanged, and any other single character is dropped |
| Tags.CandidatesAreTagWords | app/page.tsx:9-11 | every counted token is at least three word characters long and not a stop word |
| Tags.TallyCounts | app/page.tsx:32-36 | the counter holds, for every counted word, the number of times it occurs |
| Tags.FirstSeen | app/page.tsx:32-36 | the counter's insertion order lists every counted word once |
| Tags.FirstSeenOrder | app/page.tsx:32-36 | the counter's keys come in the order their words are first met: a key listed before another occurs before every occurrence of the other |
| Tags.EnumerationIndexFirst | app/page.tsx:37 | `Object.entries` lists array-index keys first, in ascending numeric order |
| Tags.EnumerationNamedOrder | app/page.tsx:37 | the other keys follow in insertion order |
| Tags.EnumerationDistinct | app/page.tsx:37 | the enumeration lists every key exactly once |
| Tags.EntriesCount | app/page.tsx:32-37 | the entries pair each counted word with its number of occurrences, and every counted word has its entry |
| Tags.RankedSorted | app/page.tsx:37 | the sort by `b[1] - a[1]` rearranges the entries, keeps them distinct and puts higher counts first |
| Tags.RankedStable | app/page.tsx:37 | entries with equal counts keep their enumeration order |
| Tags.KeywordTagsShape | app/page.tsx:31-37 | at most `n` tags, all distinct, each `#` followed by a counted word of the draft |
| Tags.KeywordTagsComplete | app/page.tsx:37 | fewer than `n` tags come back only when every counted word has one |
| Tags.KeywordTagsOrder | app/page.tsx:37 | the words of the tags occur in non-increasing number |
| Tags.KeywordTagsTopN | app/page.tsx:37 | a counted word left out occurs no more often than any word that got a tag |
| Tags.KeywordTagsTies | app/page.tsx:37 | among the chosen entries, those of one count are the first entries of that count in enumeration order, in that order |
| Sorting.SortSorted | app/page.tsx:37 | the sort's output is ordered by its comparator when the comparator is a total preorder |
| Sorting.SortStable | app/page.tsx:37 | the sort keeps every class of tied elements in input order |
| Csv.CellRoundTrip | app/page.tsx:41 | a quoted cell starts and ends with `"`, and collapsing the doubled quotes between them gives the cell back |
| Csv.CsvRoundTrip | app/page.tsx:40-42 | reading back what `toCSV` wrote gives the rows it was given, provided no row is empty |
| Thread.LabelRoundTrip | app/page.tsx:68 | the label `i/N ` reads back off a post as the position, the total and the body |
| Thread.AssembleLength | app/page.tsx:63-69 | the thread has one post per chunk, plus one for the hook when it is on and the draft is not blank |
| Thread.AssembleHookFirst | app/page.tsx:65-69 | with the hook on and a non-blank draft, the first post is the hook, labelled `1/N` when numbering is on, and the chunks follow |
| Thread.AssembleNumbering | app/page.tsx:65-69 | with numbering on, post `i` reads back as position `i+1` of `N` (the final count) with the unnumbered post as body; without it, the posts are the unnumbered ones |
| Thread.AssembleNumberedDistinct | app/page.tsx:68 | with numbering on, no two posts are equal |
| Thread.DecorateEach | app/page.tsx:72 | each post is copied with the tag line appended exactly when there are tags and it equals the last post |
| Thread.CopyTextNoTags | app/page.tsx:72 | without tags, the copied text is the posts separated by blank lines |
| Thread.CopyTextTagsAtEnd | app/page.tsx:72 | when no earlier post repeats the last one, the tag line appears once, after the last post |
| Thread.CopyTextDistinct | app/page.tsx:72 | when all posts differ, the copied text is the posts separated by blank lines, plus one tag line at the end if there are posts and tags |
| Thread.ThreadTextNumbered | app/page.tsx:62-72 | with numbering on, "Copy Thread" copies the posts separated by blank lines and, when there are posts and tags, one tag line at the end |
| Thread.RepeatedChunkTagLineTwice | app/page.tsx:72 | with hook and numbering off, a draft of one 136-to-270-character word written twice gives two equal posts, and the copied text carries the tag line twice |
| Planner.Add | app/page.tsx:131-135 | an add keeps every existing slot in place and appends at most one |
| Planner.AddOutcome | app/page.tsx:131-135 | an add is accepted exactly when date and time are non-empty and the text is not blank; then it appends one slot with the new id, the date, the time and the trimmed text, which is non-empty and has no whitespace at either end |
| Planner.AddKeepsUnique | app/page.tsx:133 | adding under a fresh id keeps the ids unique |
| Planner.DeleteUndoesAdd | app/page.tsx:131-136 | deleting the id an add just used gives back the list before the add |
| Planner.DeleteOutcome | app/page.tsx:136 | after `del(id)`, a slot is in the list exactly when it was there and carries another id; a delete keeps the ids unique |
| Planner.DeleteOne | app/page.tsx:136 | deleting the only slot with an id leaves the slots before and after it, in order |
| Planner.ClearExport | app/page.tsx:138-151 | after a confirmed clear the export is the header record `"date","time","text"` alone and no id is in use; a declined clear changes neither the list nor its export |
| Planner.LexLeTotal | app/page.tsx:167 | any two keys are comparable |
| Planner.LexLeTrans | app/page.tsx:167 | the key order is transitive |
| Planner.LexLeAntisymmetric | app/page.tsx:167 | keys that compare both ways are equal |
| Planner.KeyOrder | app/page.tsx:167 | ordering by `date + time` is ordering by date and then time, for dates of equal length |
| Planner.SlotOrder | app/page.tsx:167 | the slot comparator is a total preorder |
| Planner.Listing | app/page.tsx:167 | the listing holds the same slots, rearranged |
| Planner.ListingOrdered | app/page.tsx:167 | the listing is in non-decreasing `date + time` order, and a slot with a strictly smaller key is listed before one with a larger key |
| Planner.ListingStable | app/page.tsx:167 | slots with the same date and time are listed in the order they were added |
| Planner.ExportReadBack | app/page.tsx:138-141 | `planner.csv` reads back as the header `date,time,text` followed by one `date, time, text` record per slot, in listing order |
| Ideas.Add | app/page.tsx:186 | an add keeps every existing idea in place and appends at most one |
| Ideas.AddOutcome | app/page.tsx:186 | an add is accepted exactly when the text is not blank; then it appends one idea with the new id, the trimmed non-empty text, and `done` false |
| Ideas.AddKeepsUnique | app/page.tsx:186 | adding under a fresh id keeps the ids unique |
| Ideas.DeleteUndoesAdd | app/page.tsx:186-198 | deleting the id an add just used gives back the list before the add |
| Ideas.DeleteOutcome | app/page.tsx:198 | after a delete, an idea is on the board exactly when it was there and carries another id; a delete keeps the ids unique |
| Ideas.DeleteOne | app/page.tsx:198 | deleting the only idea with an id leaves the ideas before and after it, in order |
| Ideas.SetDone | app/page.tsx:196 | the checkbox changes nothing but the `done` field of the ideas with the id, which becomes `checked`; the length is unchanged |
| Ideas.SetDoneAbsent | app/page.tsx:196 | setting the flag of an id nobody uses changes nothing |
| Ideas.SetDoneIds | app/page.tsx:196 | setting the flag keeps the ids unique, and setting the same value again changes nothing more |
| Ideas.ToggleTwice | app/page.tsx:196 | a click flips the flag of the clicked idea and of no other, and with unique ids a second click restores the board |

## Left out

- The React components, their markup and `app/layout.tsx` are presentation only. The 280-character counter and the tag line shown under the last card are display only.
- The `localStorage` load and save and the JSON (de)serialisation are browser I/O. The lists are plain values here.
- The clipboard write and the `alert` after "Copy Thread" are left out. The model stops at the copied text.
- The `Blob`, object-URL and link-click download is left out. The model stops at the text of `planner.csv`.
- The `confirm` dialog is the boolean parameter `confirmed` of `Planner.Clear`.
- `crypto.randomUUID()` is the caller-supplied `freshId`. Lemmas that need the id to be new take `IsFresh` as a hypothesis.
- Planner.LexLe: `localeCompare` uses locale collation; the model compares code points. The two agree on the `YYYY-MM-DD` dates and `HH:MM` times the pickers produce.
- Tags.LowerChar: `toLowerCase` lowercases all of Unicode; the model lowercases ASCII letters only. The two differ only on characters that lowercase into `[a-z]` from outside ASCII (such as the Kelvin sign).
- Lengths count Unicode characters, where JavaScript counts UTF-16 code units. A character outside the Basic Multilingual Plane counts once here and twice there toward the 270-character limit and the 120-character excerpt.
- The counter in `keywordTags` is a plain object, so words such as `constructor` or `__proto__` hit inherited properties. The model counts them in a proper map.
- `items.sort` sorts the React state in place. The model sorts a copy; the in-place reordering of the stored list is left out.
- The planner's time picker, which offers only the times of `defaultTimes`, is presentation only. The add operation does not depend on which times are offered.
