/** What one cell of the timetable drawn by `renderTimetable` in
    `src/App.js` shows: the first selected course in the cell, then every
    related session in the cell, each after "; ". The method
    `App.AppState.RenderTimetable` fills the whole day by slot grid and is
    proved to agree with `Cell`. */
module Grid {
  import opened Text
  import opened Records
  import opened Seqs

  datatype Option<T> = None | Some(value: T)

  /** The columns of the grid, `timetableSlots`. */
  const TimetableSlots: seq<string> := [
    "09:00 to 10:30", "10:40 to 12:10", "12:20 to 14:20", "14:30 to 16:00",
    "16:10 to 17:40", "17:40 to 19:10", "19:10 to 20:40", "20:40 to 22:10"]

  /** The rows of the grid, `daysOfWeek`. */
  const DaysOfWeek: seq<string> := ["Monday", "Tuesday", "Wednesday", "Thursday", "Friday"]

  /** `${subject} (${teacher}) - ${class}` for a selected course. */
  function CourseLabel(c: Course): string
  {
    c.subject + " (" + c.teacher + ") - " + c.className
  }

  /** `${subject} (${teacher}) - ${class}` for a related session. */
  function EntryLabel(e: Entry): string
  {
    e.subject + " (" + e.teacher + ") - " + e.className
  }

  /** A course sits in the cell of `day` and `slot`; days compare lower-cased. */
  predicate CourseAt(c: Course, day: string, slot: string)
  {
    ToLower(c.day) == ToLower(day) && c.time == slot
  }

  /** A related session sits in the cell of `day` and `slot`; days compare lower-cased. */
  predicate EntryAt(e: Entry, day: string, slot: string)
  {
    ToLower(e.day) == ToLower(day) && e.timeSlot == slot
  }

  /** `selectedCourses.find(...)`: the first course in the cell, if any. */
  function FindCourse(courses: seq<Course>, day: string, slot: string): (r: Option<Course>)
    ensures r.None? <==> forall c :: c in courses ==> !CourseAt(c, day, slot)
    ensures r.Some? ==> exists i :: 0 <= i < |courses| && courses[i] == r.value && CourseAt(r.value, day, slot) &&
                          forall j :: 0 <= j < i ==> !CourseAt(courses[j], day, slot)
  {
    if courses == [] then None
    else if CourseAt(courses[0], day, slot) then Some(courses[0])
    else
      var r := FindCourse(courses[1..], day, slot);
      assert forall j :: 1 <= j < |courses| ==> courses[j] == courses[1..][j - 1];
      r
  }

  /** `additionalEntries.filter(...)`: the related sessions in the cell, in list order. */
  function EntriesAt(entries: seq<Entry>, day: string, slot: string): (r: seq<Entry>)
    ensures forall e :: e in r ==> e in entries && EntryAt(e, day, slot)
    ensures forall e :: e in entries && EntryAt(e, day, slot) ==> e in r
    ensures SubseqOf(r, entries)
  {
    if entries == [] then []
    else if EntryAt(entries[0], day, slot) then [entries[0]] + EntriesAt(entries[1..], day, slot)
    else EntriesAt(entries[1..], day, slot)
  }

  /** The sessions of the cell are kept as many times as they occur; the others are dropped. */
  lemma {:induction false} EntriesAtMultiset(entries: seq<Entry>, day: string, slot: string)
    ensures forall e :: multiset(EntriesAt(entries, day, slot))[e] ==
              if EntryAt(e, day, slot) then multiset(entries)[e] else 0
  {
    if entries != [] {
      assert entries == [entries[0]] + entries[1..];
      EntriesAtMultiset(entries[1..], day, slot);
    }
  }

  /** `; ${subject} (${teacher}) - ${class}` for each session, one after the other. */
  function Appended(es: seq<Entry>): string
  {
    if es == [] then "" else Appended(es[..|es| - 1]) + "; " + EntryLabel(es[|es| - 1])
  }

  /** The text of the cell of `day` and `slot`. */
  function Cell(selected: seq<Course>, additional: seq<Entry>, day: string, slot: string): string
  {
    var head := match FindCourse(selected, day, slot)
                case Some(c) => CourseLabel(c)
                case None => "";
    head + Appended(EntriesAt(additional, day, slot))
  }

  /** The first course in a cell does not depend on the case of the day. */
  lemma {:induction false} FindCourseDayCase(courses: seq<Course>, day: string, slot: string)
    ensures FindCourse(courses, day, slot) == FindCourse(courses, ToLower(day), slot)
  {
    ToLowerIdempotent(day);
    if courses != [] {
      FindCourseDayCase(courses[1..], day, slot);
    }
  }

  /** The related sessions in a cell do not depend on the case of the day. */
  lemma {:induction false} EntriesAtDayCase(entries: seq<Entry>, day: string, slot: string)
    ensures EntriesAt(entries, day, slot) == EntriesAt(entries, ToLower(day), slot)
  {
    ToLowerIdempotent(day);
    if entries != [] {
      EntriesAtDayCase(entries[1..], day, slot);
    }
  }

  /** A cell shows the same text whether its day is written lower-cased or not. */
  lemma CellDayCase(selected: seq<Course>, additional: seq<Entry>, day: string, slot: string)
    ensures Cell(selected, additional, day, slot) == Cell(selected, additional, ToLower(day), slot)
  {
    FindCourseDayCase(selected, day, slot);
    EntriesAtDayCase(additional, day, slot);
  }

  /** The appended part is empty exactly when there is nothing to append. */
  lemma AppendedEmptyIff(es: seq<Entry>)
    ensures Appended(es) == "" <==> es == []
  {
    if es != [] {
      assert |Appended(es)| >= 2;
    }
  }

  /** A cell is the empty string exactly when no selected course and no related session sits in it. */
  lemma CellEmptyIff(selected: seq<Course>, additional: seq<Entry>, day: string, slot: string)
    ensures Cell(selected, additional, day, slot) == "" <==>
              (forall c :: c in selected ==> !CourseAt(c, day, slot)) &&
              (forall e :: e in additional ==> !EntryAt(e, day, slot))
  {
    var matching := EntriesAt(additional, day, slot);
    AppendedEmptyIff(matching);
    match FindCourse(selected, day, slot)
    case Some(c) => {
      assert |CourseLabel(c)| >= 2;
    }
    case None => {
      if matching != [] {
        assert matching[0] in matching;
      }
    }
  }

  /** When no two selected courses share a cell, a cell begins with the label of the one
      selected course that sits in it. */
  lemma CellShowsOccupant(selected: seq<Course>, additional: seq<Entry>, day: string, slot: string, k: nat)
    requires NoDoubleOccupancy(selected)
    requires k < |selected| && CourseAt(selected[k], day, slot)
    ensures CourseLabel(selected[k]) <= Cell(selected, additional, day, slot)
  {
    assert selected[k] in selected;
    var r := FindCourse(selected, day, slot);
    var i :| 0 <= i < |selected| && selected[i] == r.value && CourseAt(r.value, day, slot) &&
             forall j :: 0 <= j < i ==> !CourseAt(selected[j], day, slot);
    assert CourseCell(selected[i]) == CourseCell(selected[k]);
    assert i == k;
  }
}
