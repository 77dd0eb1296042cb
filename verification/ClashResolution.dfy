/** What `handleApply` of `src/App.js` computes, as a function of the pending
    list, the selected courses and the current search results: one
    first-come-first-served pass that drops sessions without a day or a time
    slot, rejects sessions whose cell is taken, turns the others into courses
    appended after the old ones and gathers the other sessions of their
    courses from the search results. The method `App.AppState.HandleApply`
    runs the same pass as a loop and is proved equal to `Run`. */
module ClashResolution {
  import opened Text
  import opened Records
  import opened Seqs

  /** What the pass does with one pending session. */
  datatype Verdict = Skipped | Clashed | Accepted

  /** The loop's variables: `newSelectedCourses`, `newAdditionalEntries`, `clashes` and `slotMap`. */
  datatype Batch = Batch(selected: seq<Course>, additional: seq<Entry>, clashes: seq<Entry>,
                         slotMap: map<string, Entry>)

  /** `!entry.day || !entry.time_slot`. */
  predicate Missing(e: Entry)
  {
    e.day == "" || e.timeSlot == ""
  }

  /** The `slotMap` key of a session: `${day.toLowerCase()}-${time_slot}`. */
  function SlotKey(e: Entry): string
  {
    ToLower(e.day) + "-" + e.timeSlot
  }

  /** The same key written for a course. */
  function CourseSlotKey(c: Course): string
  {
    ToLower(c.day) + "-" + c.time
  }

  /** `newSelectedCourses.some(...)`: some course already sits in the session's cell. */
  predicate Taken(courses: seq<Course>, e: Entry)
  {
    exists c :: c in courses && CourseCell(c) == EntryCell(e)
  }

  /** `searchResults.filter(...)`: the other sessions of the same course, in search order. */
  function Related(results: seq<Entry>, e: Entry): (r: seq<Entry>)
    ensures forall x :: x in r ==> x in results && SameCourse(x, e) && (x.day != e.day || x.timeSlot != e.timeSlot)
    ensures forall x :: x in results && SameCourse(x, e) && (x.day != e.day || x.timeSlot != e.timeSlot) ==> x in r
    ensures SubseqOf(r, results)
  {
    if results == [] then []
    else
      var x := results[0];
      if SameCourse(x, e) && (x.day != e.day || x.timeSlot != e.timeSlot) then [x] + Related(results[1..], e)
      else Related(results[1..], e)
  }

  /** The related sessions are kept as many times as they occur in the results; others are dropped. */
  lemma {:induction false} RelatedMultiset(results: seq<Entry>, e: Entry)
    ensures forall x :: multiset(Related(results, e))[x] ==
              if SameCourse(x, e) && (x.day != e.day || x.timeSlot != e.timeSlot) then multiset(results)[x] else 0
  {
    if results != [] {
      assert results == [results[0]] + results[1..];
      RelatedMultiset(results[1..], e);
    }
  }

  /** The decision the loop body takes for `e`, given the variables so far. */
  function Decide(b: Batch, e: Entry): Verdict
  {
    if Missing(e) then Skipped
    else if SlotKey(e) in b.slotMap || Taken(b.selected, e) then Clashed
    else Accepted
  }

  /** One iteration of the loop body. */
  function Step(b: Batch, e: Entry, results: seq<Entry>): Batch
  {
    match Decide(b, e)
    case Skipped => b
    case Clashed => b.(clashes := b.clashes + [e])
    case Accepted =>
      Batch(b.selected + [ToCourse(e)], b.additional + Related(results, e), b.clashes,
            b.slotMap[SlotKey(e) := e])
  }

  /** The loop run over `pending`, starting from the selected courses and empty lists. */
  function Run(pending: seq<Entry>, selected: seq<Course>, results: seq<Entry>): Batch
    decreases |pending|
  {
    if pending == [] then Batch(selected, [], [], map[])
    else Step(Run(pending[..|pending| - 1], selected, results), pending[|pending| - 1], results)
  }

  /** The verdict on each pending position, as the pass reaches it. */
  function Verdicts(pending: seq<Entry>, selected: seq<Course>, results: seq<Entry>): seq<Verdict>
  {
    seq(|pending|, k requires 0 <= k < |pending| => Decide(Run(pending[..k], selected, results), pending[k]))
  }

  /** The sessions whose verdict is `v`, in pending order. */
  function Pick(xs: seq<Entry>, vs: seq<Verdict>, v: Verdict): seq<Entry>
    requires |xs| == |vs|
  {
    if xs == [] then []
    else Pick(xs[..|xs| - 1], vs[..|vs| - 1], v) + (if vs[|vs| - 1] == v then [xs[|xs| - 1]] else [])
  }

  /** The courses a list of sessions becomes. */
  function Courses(es: seq<Entry>): seq<Course>
  {
    seq(|es|, i requires 0 <= i < |es| => ToCourse(es[i]))
  }

  /** The related sessions of every session of `es`, one batch after the other. */
  function RelatedAll(results: seq<Entry>, es: seq<Entry>): seq<Entry>
  {
    if es == [] then []
    else RelatedAll(results, es[..|es| - 1]) + Related(results, es[|es| - 1])
  }

  /** The related sessions of `es` are the search results that share subject, teacher and
      class with a session of `es` but sit in another cell; all of them are there. */
  lemma {:induction false} RelatedAllMembers(results: seq<Entry>, es: seq<Entry>)
    ensures forall x :: x in RelatedAll(results, es) ==>
              x in results && exists a :: a in es && SameCourse(x, a) && (x.day != a.day || x.timeSlot != a.timeSlot)
    ensures forall a, x :: a in es && x in results && SameCourse(x, a) && (x.day != a.day || x.timeSlot != a.timeSlot)
              ==> x in RelatedAll(results, es)
  {
    if es != [] {
      var init := es[..|es| - 1];
      var last := es[|es| - 1];
      RelatedAllMembers(results, init);
      assert es == init + [last];
      forall x | x in RelatedAll(results, es)
        ensures x in results && exists a :: a in es && SameCourse(x, a) && (x.day != a.day || x.timeSlot != a.timeSlot)
      {
        if x in Related(results, last) {
          assert last in es;
        } else {
          assert x in RelatedAll(results, init);
          var a :| a in init && SameCourse(x, a) && (x.day != a.day || x.timeSlot != a.timeSlot);
          assert a in es;
        }
      }
      forall a, x | a in es && x in results && SameCourse(x, a) && (x.day != a.day || x.timeSlot != a.timeSlot)
        ensures x in RelatedAll(results, es)
      {
        if a == last {
          assert x in Related(results, last);
        } else {
          assert a in init;
        }
      }
    }
  }

  /** The verdicts of a longer pending list extend those of its prefix. */
  lemma VerdictsSnoc(pending: seq<Entry>, selected: seq<Course>, results: seq<Entry>)
    requires pending != []
    ensures var n := |pending| - 1;
      Verdicts(pending, selected, results) ==
      Verdicts(pending[..n], selected, results) + [Decide(Run(pending[..n], selected, results), pending[n])]
  {
    var n := |pending| - 1;
    var init := pending[..n];
    forall k | 0 <= k < n ensures init[..k] == pending[..k] && init[k] == pending[k] {
    }
    assert pending[..n] == init;
  }

  /** A position is skipped exactly when its session lacks a day or a time slot. */
  lemma VerdictSkippedIffMissing(pending: seq<Entry>, selected: seq<Course>, results: seq<Entry>)
    ensures |Verdicts(pending, selected, results)| == |pending|
    ensures forall k :: 0 <= k < |pending| ==>
              (Verdicts(pending, selected, results)[k] == Skipped <==> Missing(pending[k]))
  {
  }

  /** Apply partitions the pending list: the new course list is the old one followed by the
      courses of the accepted sessions, in pending order, and the clashes are the rejected
      sessions, in pending order; skipped sessions appear in neither. */
  lemma {:induction false} ApplyPartition(pending: seq<Entry>, selected: seq<Course>, results: seq<Entry>)
    ensures var vs := Verdicts(pending, selected, results);
      && Run(pending, selected, results).selected == selected + Courses(Pick(pending, vs, Accepted))
      && Run(pending, selected, results).clashes == Pick(pending, vs, Clashed)
    decreases |pending|
  {
    if pending != [] {
      var n := |pending| - 1;
      var init := pending[..n];
      var x := pending[n];
      ApplyPartition(init, selected, results);
      VerdictsSnoc(pending, selected, results);
      var vs := Verdicts(pending, selected, results);
      var vi := Verdicts(init, selected, results);
      assert vs[..n] == vi;
      var acc := Pick(init, vi, Accepted);
      var b := Run(init, selected, results);
      assert Run(pending, selected, results) == Step(b, x, results);
      if vs[n] == Accepted {
        assert Pick(pending, vs, Accepted) == acc + [x];
        assert Courses(acc + [x]) == Courses(acc) + [ToCourse(x)];
      } else {
        assert Pick(pending, vs, Accepted) == acc;
      }
    }
  }

  /** The related sessions collected are those of the accepted sessions, in pending order. */
  lemma {:induction false} ApplyAdditionalPicked(pending: seq<Entry>, selected: seq<Course>, results: seq<Entry>)
    ensures Run(pending, selected, results).additional ==
            RelatedAll(results, Pick(pending, Verdicts(pending, selected, results), Accepted))
    decreases |pending|
  {
    if pending != [] {
      var n := |pending| - 1;
      var init := pending[..n];
      var x := pending[n];
      ApplyAdditionalPicked(init, selected, results);
      VerdictsSnoc(pending, selected, results);
      var vs := Verdicts(pending, selected, results);
      var vi := Verdicts(init, selected, results);
      assert vs[..n] == vi;
      var acc := Pick(init, vi, Accepted);
      var b := Run(init, selected, results);
      assert Run(pending, selected, results) == Step(b, x, results);
      if vs[n] == Accepted {
        assert Pick(pending, vs, Accepted) == acc + [x];
        assert (acc + [x])[..|acc|] == acc;
      } else {
        assert Pick(pending, vs, Accepted) == acc;
      }
    }
  }

  /** The invariant of the pass: the old courses stay in front and every key of `slotMap`
      is the key of a course in the list. */
  ghost predicate Consistent(b: Batch, selected: seq<Course>)
  {
    && |selected| <= |b.selected|
    && b.selected[..|selected|] == selected
    && forall key :: key in b.slotMap ==> exists c :: c in b.selected && CourseSlotKey(c) == key
  }

  /** Every stage of the pass keeps the invariant. */
  lemma {:induction false} ApplyConsistent(pending: seq<Entry>, selected: seq<Course>, results: seq<Entry>)
    ensures Consistent(Run(pending, selected, results), selected)
    decreases |pending|
  {
    if pending != [] {
      var n := |pending| - 1;
      var b := Run(pending[..n], selected, results);
      var e := pending[n];
      ApplyConsistent(pending[..n], selected, results);
      if Decide(b, e) == Accepted {
        var b' := Run(pending, selected, results);
        assert b'.selected == b.selected + [ToCourse(e)];
        assert b'.selected[..|selected|] == b.selected[..|selected|];
        assert CourseSlotKey(ToCourse(e)) == SlotKey(e);
        forall key | key in b'.slotMap ensures exists c :: c in b'.selected && CourseSlotKey(c) == key {
          if key != SlotKey(e) {
            var c :| c in b.selected && CourseSlotKey(c) == key;
            assert c in b'.selected;
          } else {
            assert ToCourse(e) in b'.selected;
          }
        }
      }
    }
  }

  /** The old courses come first, unchanged, in the new selection. */
  lemma ApplyKeepsSelected(pending: seq<Entry>, selected: seq<Course>, results: seq<Entry>)
    ensures |selected| <= |Run(pending, selected, results).selected|
    ensures Run(pending, selected, results).selected[..|selected|] == selected
  {
    ApplyConsistent(pending, selected, results);
  }

  /** No double occupancy is preserved: if the old courses sit in distinct cells, so do the new. */
  lemma {:induction false} ApplyNoDoubleOccupancy(pending: seq<Entry>, selected: seq<Course>, results: seq<Entry>)
    requires NoDoubleOccupancy(selected)
    ensures NoDoubleOccupancy(Run(pending, selected, results).selected)
    decreases |pending|
  {
    if pending != [] {
      var n := |pending| - 1;
      var b := Run(pending[..n], selected, results);
      var e := pending[n];
      ApplyNoDoubleOccupancy(pending[..n], selected, results);
      if Decide(b, e) == Accepted {
        var s := b.selected + [ToCourse(e)];
        forall i, j | 0 <= i < j < |s| ensures CourseCell(s[i]) != CourseCell(s[j]) {
          if j == |s| - 1 {
            assert s[i] in b.selected;
          }
        }
      }
    }
  }

  /** A rejected session meets a course already in its `slotMap` cell when the pass reaches it:
      an old course or one accepted earlier in the same call. A rejected session always
      has a day and a time slot. */
  lemma ClashesMeetTakenCells(pending: seq<Entry>, selected: seq<Course>, results: seq<Entry>, k: nat)
    requires k < |pending|
    requires Verdicts(pending, selected, results)[k] == Clashed
    ensures !Missing(pending[k])
    ensures exists c :: c in Run(pending[..k], selected, results).selected && CourseSlotKey(c) == SlotKey(pending[k])
  {
    var b := Run(pending[..k], selected, results);
    var e := pending[k];
    ApplyConsistent(pending[..k], selected, results);
    if SlotKey(e) !in b.slotMap {
      var c :| c in b.selected && CourseCell(c) == EntryCell(e);
      assert CourseSlotKey(c) == SlotKey(e);
    }
  }

  /** An accepted session finds its cell free of every course selected before it. */
  lemma AcceptedCellsAreFree(pending: seq<Entry>, selected: seq<Course>, results: seq<Entry>, k: nat)
    requires k < |pending|
    requires Verdicts(pending, selected, results)[k] == Accepted
    ensures !Missing(pending[k])
    ensures forall c :: c in Run(pending[..k], selected, results).selected ==> CourseCell(c) != EntryCell(pending[k])
  {
  }

  /** The `slotMap` key decides the same thing as the cell whenever the lower-cased days have no
      dash; with a dash in a day, two different cells can share a key. */
  lemma {:induction false} SlotKeyMatchesCell(e: Entry, c: Course)
    requires '-' !in ToLower(e.day) && '-' !in ToLower(c.day)
    ensures SlotKey(e) == CourseSlotKey(c) <==> EntryCell(e) == CourseCell(c)
  {
    DashJoinInjective(ToLower(e.day), e.timeSlot, ToLower(c.day), c.time);
  }

  /** Two sessions in different cells that the `slotMap` key confuses: the second is rejected
      although its cell is free. */
  lemma DashInDayConfusesCells()
    ensures var a := Entry(0, "S", "T", "C", "a-b", "c");
            var b := Entry(1, "U", "V", "W", "a", "b-c");
            EntryCell(a) != EntryCell(b) &&
            Verdicts([a, b], [], []) == [Accepted, Clashed]
  {
    var a := Entry(0, "S", "T", "C", "a-b", "c");
    var b := Entry(1, "U", "V", "W", "a", "b-c");
    assert ToLower("a-b") == "a-b";
    assert ToLower("a") == "a";
    assert [a, b][..0] == [] && [a, b][..1] == [a];
    assert SlotKey(a) == SlotKey(b);
  }

  /** The related sessions come from the search results, belong to a course accepted in this
      call and sit in another cell (compared case-sensitively); every such session is there,
      and there are none when nothing was accepted. */
  lemma ApplyAdditionalEntries(pending: seq<Entry>, selected: seq<Course>, results: seq<Entry>)
    ensures var acc := Pick(pending, Verdicts(pending, selected, results), Accepted);
      var add := Run(pending, selected, results).additional;
      && (forall x :: x in add ==>
            (x in results && exists a :: a in acc && SameCourse(x, a) && (x.day != a.day || x.timeSlot != a.timeSlot)))
      && (forall a, x :: a in acc && x in results && SameCourse(x, a) && (x.day != a.day || x.timeSlot != a.timeSlot)
            ==> x in add)
      && (acc == [] ==> add == [])
  {
    ApplyAdditionalPicked(pending, selected, results);
    RelatedAllMembers(results, Pick(pending, Verdicts(pending, selected, results), Accepted));
  }
}
