/** The state of the timetable maker in `src/App.js` and the handlers that
    change it: a search replaces the search results, a checkbox toggles a
    session in the pending list, Apply commits the pending sessions, and the
    grid is drawn from the selected courses and the related sessions. */
module App {
  import opened Text
  import opened Records
  import opened Seqs
  import opened Search
  import opened Selection
  import opened ClashResolution
  import opened Grid

  /** Every session of `xs` was created before identity `n` was handed out. */
  ghost predicate IdsBelow(xs: seq<Entry>, n: nat)
  {
    forall e :: e in xs ==> e.id < n
  }

  /** Apply hands out no new session: the related sessions come from the results and what
      stays pending comes from the pending list. */
  lemma ApplyKeepsIdsBelow(pending: seq<Entry>, selected: seq<Course>, results: seq<Entry>,
                           clashes: seq<Entry>, n: nat)
    requires IdsBelow(results, n) && IdsBelow(pending, n)
    ensures IdsBelow(Run(pending, selected, results).additional, n)
    ensures IdsBelow(Without(pending, clashes), n)
  {
    ApplyAdditionalEntries(pending, selected, results);
  }

  /** `additionalCourses.forEach(...)`: appends `; ` and the label of each session to `head`. */
  method AppendLabels(head: string, entries: seq<Entry>) returns (text: string)
    ensures text == head + Appended(entries)
  {
    text := head;
    for k := 0 to |entries|
      invariant text == head + Appended(entries[..k])
    {
      ghost var done := entries[..k];
      assert entries[..k + 1] == done + [entries[k]];
      assert (done + [entries[k]])[..k] == done;
      text := text + "; " + EntryLabel(entries[k]);
    }
    assert entries[..|entries|] == entries;
  }

  /** The loop of `handleApply` over the pending sessions: it computes the fold `Run`. */
  method CommitPending(pendingCourses: seq<Entry>, selectedCourses: seq<Course>, searchResults: seq<Entry>)
    returns (newSelectedCourses: seq<Course>, newAdditionalEntries: seq<Entry>, clashes: seq<Entry>)
    ensures var b := Run(pendingCourses, selectedCourses, searchResults);
      newSelectedCourses == b.selected && newAdditionalEntries == b.additional && clashes == b.clashes
  {
    newSelectedCourses := selectedCourses;
    newAdditionalEntries := [];
    clashes := [];
    var slotMap: map<string, Entry> := map[];
    for i := 0 to |pendingCourses|
      invariant Batch(newSelectedCourses, newAdditionalEntries, clashes, slotMap) ==
                Run(pendingCourses[..i], selectedCourses, searchResults)
    {
      var entry := pendingCourses[i];
      assert pendingCourses[..i + 1][..i] == pendingCourses[..i];
      if entry.day == "" || entry.timeSlot == "" {
        // the warning for a session without day or time slot is not modelled
      } else {
        var slot := ToLower(entry.day) + "-" + entry.timeSlot;
        if slot in slotMap || exists course :: course in newSelectedCourses &&
                                ToLower(course.day) == ToLower(entry.day) && course.time == entry.timeSlot {
          clashes := clashes + [entry];
        } else {
          slotMap := slotMap[slot := entry];
          var newCourse := Course(entry.subject, entry.teacher, entry.className, entry.day, entry.timeSlot);
          var relatedEntries := Related(searchResults, entry);
          newAdditionalEntries := newAdditionalEntries + relatedEntries;
          newSelectedCourses := newSelectedCourses + [newCourse];
        }
      }
    }
    assert pendingCourses[..|pendingCourses|] == pendingCourses;
  }

  class AppState {
    var searchResults: seq<Entry>
    var selectedCourses: seq<Course>
    var pendingCourses: seq<Entry>
    var additionalEntries: seq<Entry>
    /** The first session identity no parse has handed out yet. */
    var nextId: nat

    /** No two selected courses ever share a cell, and every session held anywhere was
        created by an earlier parse. */
    ghost predicate Valid()
      reads this
    {
      && NoDoubleOccupancy(selectedCourses)
      && IdsBelow(searchResults, nextId)
      && IdsBelow(pendingCourses, nextId)
      && IdsBelow(additionalEntries, nextId)
    }

    /** The initial state: every list is empty. */
    constructor ()
      ensures Valid()
      ensures searchResults == [] && selectedCourses == [] && pendingCourses == [] && additionalEntries == []
    {
      searchResults, selectedCourses, pendingCourses, additionalEntries := [], [], [], [];
      nextId := 0;
    }

    /** The completion of a search: `rows` is the content of the timetable data, parsed
        afresh, and `searchBy` and `searchTerm` are the form's values when the search was
        started. No session of the new results is pending or related already. */
    method FetchTimetableData(rows: seq<Row>, searchBy: string, searchTerm: string)
      requires Valid()
      modifies this`searchResults, this`nextId
      ensures Valid()
      ensures searchResults == SearchResults(Load(rows, old(nextId)), searchBy, searchTerm)
      ensures nextId == old(nextId) + |rows|
      ensures forall e :: e in searchResults ==> e !in pendingCourses && e !in additionalEntries
    {
      var data := Load(rows, nextId);
      var uniqueResults := SearchResults(data, searchBy, searchTerm);
      searchResults := uniqueResults;
      nextId := nextId + |rows|;
    }

    /** A checkbox of the search results was clicked; the checkboxes are drawn only for
        the sessions of the search results. */
    method HandleCheckboxChange(entry: Entry)
      requires Valid() && entry in searchResults
      modifies this`pendingCourses
      ensures Valid()
      ensures pendingCourses == Toggle(old(pendingCourses), entry)
    {
      pendingCourses := Toggle(pendingCourses, entry);
    }

    /** Apply: commit the pending sessions; the returned clashes are the ones the user is
        alerted about. */
    method HandleApply() returns (clashes: seq<Entry>)
      requires Valid()
      modifies this`selectedCourses, this`pendingCourses, this`additionalEntries
      ensures Valid()
      ensures var b := Run(old(pendingCourses), old(selectedCourses), searchResults);
        && clashes == b.clashes
        && selectedCourses == b.selected
        && additionalEntries == b.additional
        && pendingCourses == (if clashes == [] then [] else Without(old(pendingCourses), clashes))
    {
      var newSelectedCourses, newAdditionalEntries;
      newSelectedCourses, newAdditionalEntries, clashes := CommitPending(pendingCourses, selectedCourses, searchResults);
      ApplyNoDoubleOccupancy(pendingCourses, selectedCourses, searchResults);
      ApplyKeepsIdsBelow(pendingCourses, selectedCourses, searchResults, clashes, nextId);
      if |clashes| > 0 {
        var nonConflictingCourses := Without(pendingCourses, clashes);
        selectedCourses := newSelectedCourses;
        pendingCourses := nonConflictingCourses;
        additionalEntries := newAdditionalEntries;
      } else {
        selectedCourses := newSelectedCourses;
        pendingCourses := [];
        additionalEntries := newAdditionalEntries;
      }
    }

    /** The text of one cell, built the way `renderTimetable` builds it. */
    method RenderCell(day: string, slot: string) returns (timetableEntry: string)
      ensures timetableEntry == Cell(selectedCourses, additionalEntries, day, slot)
    {
      var selectedCourse := FindCourse(selectedCourses, day, slot);
      timetableEntry := "";
      if selectedCourse.Some? {
        timetableEntry := timetableEntry + CourseLabel(selectedCourse.value);
      }
      var additionalCourses := EntriesAt(additionalEntries, day, slot);
      timetableEntry := AppendLabels(timetableEntry, additionalCourses);
    }

    /** One day of the grid: a cell per slot, looked up under the day as written. */
    method RenderRow(day: string) returns (row: map<string, string>)
      ensures forall s :: s in row <==> s in TimetableSlots
      ensures forall s :: s in row ==> row[s] == Cell(selectedCourses, additionalEntries, day, s)
    {
      row := map[];
      for j := 0 to |TimetableSlots|
        invariant forall s :: s in row <==> s in TimetableSlots[..j]
        invariant forall s :: s in row ==> row[s] == Cell(selectedCourses, additionalEntries, day, s)
      {
        var slot := TimetableSlots[j];
        var timetableEntry := RenderCell(day, slot);
        row := row[slot := timetableEntry];
      }
      assert TimetableSlots[..|TimetableSlots|] == TimetableSlots;
    }

    /** The whole grid: a row per lower-cased day of the week, a cell per slot. */
    method RenderTimetable() returns (timetable: map<string, map<string, string>>)
      ensures forall d :: d in timetable <==> exists i :: 0 <= i < |DaysOfWeek| && ToLower(DaysOfWeek[i]) == d
      ensures forall d :: d in timetable ==> forall s :: s in timetable[d] <==> s in TimetableSlots
      ensures forall d, s :: d in timetable && s in timetable[d] ==>
                timetable[d][s] == Cell(selectedCourses, additionalEntries, d, s)
    {
      timetable := map[];
      for i := 0 to |DaysOfWeek|
        invariant forall d :: d in timetable <==> exists k :: 0 <= k < i && ToLower(DaysOfWeek[k]) == d
        invariant forall d :: d in timetable ==> forall s :: s in timetable[d] <==> s in TimetableSlots
        invariant forall d, s :: d in timetable && s in timetable[d] ==>
                    timetable[d][s] == Cell(selectedCourses, additionalEntries, d, s)
      {
        var row := RenderRow(DaysOfWeek[i]);
        var day := ToLower(DaysOfWeek[i]);
        forall s | s in row ensures row[s] == Cell(selectedCourses, additionalEntries, day, s) {
          CellDayCase(selectedCourses, additionalEntries, DaysOfWeek[i], s);
        }
        timetable := timetable[day := row];
      }
    }
  }
}
