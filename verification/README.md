# CUI ATD timetable maker, modelled in Dafny

The timetable maker is a React page. A student searches the university's
class catalog by subject or by teacher. They tick sessions in the results
and press Apply. Apply moves the ticked sessions into a weekly grid of five
days by eight slots and rejects any session whose cell is already taken.
Two components, `Timetable` and `SearchSection`, keep their own list of
ticked classes. One groups that list by day and time. The other counts the
catalog's classes per subject, teacher and class.

This project models that logic:

- `Text`: ASCII lower-casing, substring search (`includes`) and the
  `':'`-to-`'-'` replacement.
- `Records`: a record of the timetable data (`Row`), a catalog session
  object (`Entry`) and a selected course (`Course`). A selected course has a
  single cell, its lower-cased day and its time. No two selected courses may
  share a cell.
- `Search`: the search filter and the de-duplication of its results.
- `Selection`: the three checkbox handlers.
- `ClashResolution`: Apply, as a fold over the pending sessions, with
  lemmas about the fold.
- `Grid`: the text of one grid cell.
- `App`: the page's state as a class whose methods are the handlers.
  The loops of Apply (`CommitPending`) and of the grid (`RenderTimetable`,
  `RenderRow`, `AppendLabels`) are proved against the functions above.
- `TimetableView`: `updateTimetable` of the `Timetable` component, a loop
  over nested maps.
- `ClassCount`: `countClasses` of the `SearchSection` component, a loop
  over a dictionary.
- `Seqs` and `Counting`: generic lemmas about sub-sequences, removal,
  occurrence counts and dictionary insertion order.

Modelling choices:

- Each catalog session carries an `id`. It stands for the object's
  identity, because `includes`, `!==` and `filter(course !== entry)` compare
  objects by reference. `SameSession` compares the five data fields, as the
  de-duplication does.
- Every search fetches and parses the data file again (src/App.js:25-28),
  so its sessions are new objects. `Records.Load` gives them the identities
  `nextId`, `nextId + 1`, and so on. `App.AppState` keeps `nextId` above
  every identity it holds (`App.ApplyKeepsIdsBelow` for Apply). A session of a new search is therefore never
  equal to a pending session, even when all five fields agree
  (`Records.ReloadIsFresh`). A checkbox is drawn only for a session of the
  search results (src/App.js:249-256), so
  `App.AppState.HandleCheckboxChange` requires its session to be one.
- The timetable data is written by script/parse_timetable.py:95-103, which
  always writes `class`, `day`, `time_slot`, `subject` and `teacher` as
  strings. The model's `Row` therefore holds five strings. A field may be
  the empty string, which `!entry.day` treats as missing.
- Apply's last step is at src/App.js:108-128. When nothing clashes, the
  pending list is emptied. When something clashes, every pending session
  that did not clash stays pending, the accepted ones included. The model
  does the same (`App.AppState.HandleApply`).
- Apply's `slotMap` key is the string `lower(day) + "-" + time_slot`. The
  model builds it the same way. `ClashResolution.SlotKeyMatchesCell` shows
  the key is exact when no day contains a dash. The catalog's days are
  weekday names, so this always holds.
  `ClashResolution.DashInDayConfusesCells` shows the false clash that would
  otherwise occur.
- The key in `countClasses` is likewise `subject-teacher-className`.
  `ClassCount.ClassKeyExact` shows the key is exact when no subject or
  teacher contains a dash. `ClassCount.DashInFieldMergesClasses` shows two
  classes that the key merges otherwise.

## Model

| member | source | states |
|---|---|---|
| Text.ToLower | src/App.js:31 | the result has the input's length, has no upper-case ASCII letter, and keeps every other character |
| Text.ToLowerIdempotent | src/App.js:140 | lower-casing twice is lower-casing once, so comparing lower-cased days is stable |
| Text.ContainsIffOccurs | src/App.js:31-32 | `includes` holds exactly when the term occurs at some position of the field |
| Text.EmptyIsContained | src/App.js:31 | every field includes the empty search term |
| Text.ReplaceColons | src/components/Timetable.js:22 | the result has the input's length, has no ':', turns each ':' into '-' and keeps every other character |
| Text.DashJoinInjective | src/App.js:76 | joining two strings with a dash is one-to-one when the left part holds no dash |
| Seqs.RemoveAll | src/App.js:55 | the result has every element except the removed one, in order, and is strictly shorter when that element was present |
| Seqs.RemoveAllMultiset | src/App.js:55 | removal drops every copy of the element and keeps every other element as many times as it occurred |
| Seqs.RemoveAppended | src/App.js:55-57 | removing an element that was just appended to a list without it gives the list back |
| Seqs.RemoveAllConcat | src/App.js:55 | removing from two lists joined is removing from each and joining the results |
| Seqs.RemoveOnce | src/App.js:55 | removing an element that occurs once leaves the elements before it followed by the elements after it |
| Seqs.Without | src/App.js:117-119 | the result keeps, in order, exactly the elements that are not among the removed ones |
| Seqs.WithoutMultiset | src/App.js:117-119 | every element not among the removed ones is kept as many times as it occurred; the removed ones are gone |
| Records.Load | src/App.js:26-28 | parsing yields one session per record, in file order, with that record's five fields and a distinct new identity |
| Records.ReloadIsFresh | src/App.js:26-28 | parsing the file again yields sessions equal on all five fields to the earlier ones, none of which is an earlier session |
| Search.FilterEntries | src/App.js:29-33 | the results are, in catalog order, exactly the sessions whose chosen field includes the term, case-insensitively |
| Search.FilterEntriesMultiset | src/App.js:29-33 | each matching session is kept as many times as it occurs in the catalog; the others are dropped |
| Search.FindIndex | src/App.js:39-46 | the result is the first index holding a session with the same five fields, or -1 when there is none |
| Search.Dedup | src/App.js:36-47 | the result keeps, in order, the first session of each group of equal sessions, and no two kept sessions are equal |
| Search.FilterKeepsFirst | src/App.js:29-46 | the first filtered session equal to a matching session is the first such session of the catalog |
| Search.DedupKeepsFirst | src/App.js:29-47 | each session the search keeps is the first session of the catalog with its five fields |
| Search.DedupCoversMatches | src/App.js:29-47 | every matching catalog session has an equal session among those the search keeps |
| Search.SearchResults | src/App.js:29-49 | every result matches the term and comes from the catalog in catalog order; every matching session has an equal result; no two results are equal; each result is the first catalog session with its five fields |
| Search.EmptyTermShowsAll | src/App.js:29-47 | with an empty term every catalog session has an equal session among the results |
| Selection.Toggle | src/App.js:53-59 | the session is pending afterwards exactly when it was not pending before; every other pending session stays; a new session goes at the end |
| Selection.ToggleMultiset | src/App.js:53-59 | ticking adds one copy of a session that was not pending; unticking drops every copy; other sessions keep their number of copies |
| Selection.ToggleTwiceRestores | src/App.js:53-59 | ticking a session that was not pending and unticking it gives the old pending list back |
| Selection.ToggleTwiceMovesToEnd | src/App.js:53-59 | unticking a session that was pending once and ticking it again moves it to the end of the list |
| Selection.ChangeSelection | src/components/Timetable.js:7-16 | ticking appends the class; unticking removes every class equal on all five fields and keeps the others in order |
| Selection.ChangeSelectionMultiset | src/components/Timetable.js:7-16 | ticking adds one copy of the class; unticking drops every copy; other classes keep their number of copies |
| Selection.CheckThenUncheckRestores | src/components/SearchSection.js:6-19 | ticking a class that was not selected and unticking it gives the selection back |
| ClashResolution.Related | src/App.js:96-102 | the related sessions are, in result order, exactly the search results with the same subject, teacher and class but another day or time slot |
| ClashResolution.RelatedMultiset | src/App.js:96-102 | each related search result is kept as many times as it occurs; the others are dropped |
| ClashResolution.RelatedAllMembers | src/App.js:96-104 | the concatenated related sessions are exactly the results related to one of the given sessions |
| ClashResolution.VerdictsSnoc | src/App.js:69-106 | the verdict on each pending session depends only on the sessions before it |
| ClashResolution.VerdictSkippedIffMissing | src/App.js:71-74 | a pending session is skipped exactly when it lacks a day or a time slot |
| ClashResolution.ApplyPartition | src/App.js:69-106 | the new course list is the old one followed by the accepted sessions as courses, in pending order; the clashes are the rejected sessions, in pending order |
| ClashResolution.ApplyAdditionalPicked | src/App.js:96-104 | the collected related sessions are those of the accepted sessions, in pending order |
| ClashResolution.ApplyAdditionalEntries | src/App.js:95-104 | every collected related session is a search result related to an accepted session; every such result is collected; nothing is collected when nothing is accepted |
| ClashResolution.ApplyConsistent | src/App.js:76-85 | after each step the old courses stay a prefix of the course list, and every `slotMap` key is the key of some course in the list |
| ClashResolution.ApplyKeepsSelected | src/App.js:62 | Apply only appends to the course list |
| ClashResolution.ApplyNoDoubleOccupancy | src/App.js:76-85 | if no two old courses share a cell, no two courses share a cell after Apply |
| ClashResolution.ClashesMeetTakenCells | src/App.js:76-82 | a rejected session has a day and a time slot, and its key is taken by a course accepted before it or selected earlier |
| ClashResolution.AcceptedCellsAreFree | src/App.js:79-85 | an accepted session has a day and a time slot, and no course before it sits in its cell |
| ClashResolution.SlotKeyMatchesCell | src/App.js:76-79 | when no day holds a dash, two sessions share a `slotMap` key exactly when they share a cell |
| ClashResolution.DashInDayConfusesCells | src/App.js:76-80 | days "a-b" with slot "c" and "a" with slot "b-c" are different cells under one key, so the second session is rejected |
| Grid.FindCourse | src/App.js:138-142 | the result is the first selected course in the cell, days compared lower-cased, and there is none exactly when no course sits there |
| Grid.EntriesAt | src/App.js:153-157 | the result is, in order, exactly the related sessions in the cell, days compared lower-cased |
| Grid.EntriesAtMultiset | src/App.js:153-157 | each related session in the cell is kept as many times as it occurs; the others are dropped |
| Grid.FindCourseDayCase | src/App.js:138-142 | the course found for a day is the same whether or not the day is lower-cased first |
| Grid.EntriesAtDayCase | src/App.js:153-157 | the related sessions found for a day are the same whether or not the day is lower-cased first |
| Grid.CellDayCase | src/App.js:134-163 | a cell shows the same text for a weekday name and for its lower-cased key |
| Grid.AppendedEmptyIff | src/App.js:159-161 | the appended part of a cell is empty exactly when there is nothing to append |
| Grid.CellEmptyIff | src/App.js:144-161 | a cell is empty exactly when no selected course and no related session sits in it |
| Grid.CellShowsOccupant | src/App.js:138-150 | when no two courses share a cell, a cell begins with the label of the course that sits in it |
| App.AppState.constructor | src/App.js:7-10 | the page starts with every list empty |
| App.AppState.FetchTimetableData | src/App.js:25-51 | a finished search parses the file into new sessions and replaces the results with `SearchResults` of them; no new result is pending or related already; nothing else changes |
| App.AppState.HandleCheckboxChange | src/App.js:53-59 | a click on a result's checkbox toggles that session in the pending list and changes nothing else |
| App.ApplyKeepsIdsBelow | src/App.js:95-128 | Apply creates no session: the related sessions come from the results and what stays pending comes from the pending list |
| App.CommitPending | src/App.js:62-106 | the loop over the pending sessions computes exactly the clashes, new courses and related sessions of the fold `Run` |
| App.AppState.HandleApply | src/App.js:61-129 | Apply computes the fold `Run`: clashes, new courses and related sessions as `ApplyPartition` describes; pending becomes empty without clashes and loses the clashes otherwise; no two courses ever share a cell |
| App.AppState.RenderCell | src/App.js:138-163 | the loop builds exactly the text `Cell` of that day and slot |
| App.AppendLabels | src/App.js:159-161 | the loop appends `; ` and the label of each session, in order, which is `Appended` |
| App.AppState.RenderRow | src/App.js:136-165 | a day's row has a cell for each of the eight slots and nothing else, and each cell is `Cell` of the day as written and the slot |
| App.AppState.RenderTimetable | src/App.js:131-168 | the grid has a row for each lower-cased weekday and a cell for each of the eight slots, and each cell is `Cell` of its weekday and slot |
| Counting.Occurrences | src/components/SearchSection.js:24-31 | a count is at most the list's length and is zero exactly when no element has the key |
| Counting.IndexOfKey | src/components/SearchSection.js:26-27 | the result is the first position with the key, or -1 when the key does not occur |
| Counting.FirstKeys | src/components/SearchSection.js:26-27 | every listed key occurs in the list |
| Counting.FirstKeysComplete | src/components/SearchSection.js:24-31 | every key that occurs is listed |
| Counting.FirstKeysOrdered | src/components/SearchSection.js:33 | keys are listed in the order of their first occurrence, which is a dictionary's insertion order |
| Counting.FirstKeysDistinct | src/components/SearchSection.js:26-27 | no key is listed twice |
| Counting.SumCountsAppend | src/components/SearchSection.js:29 | appending an element adds one to the total count exactly when its key is listed |
| Counting.CountsSumToLength | src/components/SearchSection.js:24-31 | the counts of the distinct keys add up to the length of the list |
| TimetableView.Bucket | src/components/Timetable.js:20-28 | a bucket holds one string per class with its day and time, and is empty exactly when there is no such class |
| TimetableView.BucketSnoc | src/components/Timetable.js:27 | one more class adds its string to the end of its own bucket only |
| TimetableView.BucketsHoldEveryClass | src/components/Timetable.js:20-28 | the buckets together hold exactly one string per selected class |
| TimetableView.Push | src/components/Timetable.js:24-27 | creating a missing day and time and pushing appends the string to that bucket and leaves every other bucket as it was |
| TimetableView.PushKeepsGroups | src/components/Timetable.js:20-28 | pushing the next class keeps the map equal to the grouping of the classes seen so far |
| TimetableView.GroupsKeysOccur | src/components/Timetable.js:21-25 | a grouping has a bucket only for a day and time some class has, and no bucket's time contains ':' |
| TimetableView.UpdateTimetable | src/components/Timetable.js:18-31 | the result maps each lower-cased day and formatted time of a class to the strings of those classes, in selection order; it has no other keys and no empty day |
| ClassCount.Tally | src/components/SearchSection.js:26-30 | the record of a key is stored under that key and has a count of at least one |
| ClassCount.SnocTally | src/components/SearchSection.js:26-30 | one more class starts a new key's record at 1, adds one to its own key's count and leaves the other records alone |
| ClassCount.CountNew | src/components/SearchSection.js:26-27 | a first sighting of a key adds a record with count 1 and appends the key to the insertion order |
| ClassCount.CountAgain | src/components/SearchSection.js:28-29 | a later sighting of a key adds one to its count and keeps the insertion order |
| ClassCount.TotalCountIsSumCounts | src/components/SearchSection.js:24-33 | the counts of the records add up to the number of classes under their keys |
| ClassCount.CountedValues | src/components/SearchSection.js:33 | the dictionary's values in insertion order give one record per distinct key, each key once, and counts that add up to the number of classes |
| ClassCount.CountClasses | src/components/SearchSection.js:21-34 | one record per distinct key in first-appearance order, with the first class's fields and the number of classes under the key; every class is counted under one record; the counts add up to the number of classes |
| ClassCount.ClassKeyExact | src/components/SearchSection.js:25 | when no subject or teacher contains a dash, two classes share a key exactly when they agree on subject, teacher and class name |
| ClassCount.DashInFieldMergesClasses | src/components/SearchSection.js:25 | subject "a-b" with teacher "c" and subject "a" with teacher "b-c" share one key |

## Left out

- Fetching `timetable.json` is left out. `App.AppState.FetchTimetableData` receives the file's records as a parameter. Two searches racing to finish are not modelled either.
- The search form's state setters and the JSX that draws the page, the grid and the two tables are not modelled. The search field and term are parameters.
- The alert for each clash and the console warning for a session without a day or time slot are not modelled. `HandleApply` returns the clashes that would be alerted.
- Text.ToLower: lower-cases ASCII letters only. JavaScript's `toLowerCase` also maps other Unicode letters.
- A hand-edited data file that leaves out a field is not modelled. The page would then fail with a TypeError: in the search on an absent `subject` or `teacher` (src/App.js:31-32), and in the grid on a related session without `day` (src/App.js:155). The de-duplication and the related-session filter (src/App.js:41-45, 98-101) would also tell an absent field apart from an empty one.
- The catalog's day and time-slot fields are not checked against the eight fixed slots, just as the code does not check them.
- The `SearchSection` checkbox carries no day or time data attributes, so its classes have no day and no time. The model leaves those fields to the caller.
- The records `countClasses` receives are assumed to have a `className` field, which the destructuring reads. What the parent passes is not part of this model.
- React state is updated after a handler returns, so the handlers see the state of the last render. Each model method reads its fields once at the start, which gives the same result for a single event.
- script/parse_timetable.py, which builds the catalog from a spreadsheet, is not part of this model.
