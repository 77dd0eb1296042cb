/** The checkbox handlers: `handleCheckboxChange` of `src/App.js`, which
    toggles a catalog session in the pending list by identity, and the one
    shared by `src/components/Timetable.js` and
    `src/components/SearchSection.js`, which appends or removes a class by
    its five fields according to the checkbox state. */
module Selection {
  import opened Records
  import opened Seqs

  /** App: a pending session is removed (every occurrence), any other one is appended. */
  function Toggle(pending: seq<Entry>, entry: Entry): (r: seq<Entry>)
    ensures entry in r <==> entry !in pending
    ensures forall e :: e in r && e != entry ==> e in pending
    ensures forall e :: e in pending && e != entry ==> e in r
    ensures entry !in pending ==> r == pending + [entry]
    ensures entry in pending ==> SubseqOf(r, pending) && |r| < |pending|
  {
    if entry in pending then RemoveAll(pending, entry) else pending + [entry]
  }

  /** Toggling adds one copy of an absent session, or drops every copy of a pending one, and
      keeps every other session as many times as it was pending. */
  lemma ToggleMultiset(pending: seq<Entry>, entry: Entry)
    ensures entry !in pending ==> multiset(Toggle(pending, entry)) == multiset(pending)[entry := 1]
    ensures entry in pending ==> multiset(Toggle(pending, entry)) == multiset(pending)[entry := 0]
  {
    RemoveAllMultiset(pending, entry);
  }

  /** Toggling a session that is not pending twice gives the pending list back. */
  lemma ToggleTwiceRestores(pending: seq<Entry>, entry: Entry)
    requires entry !in pending
    ensures Toggle(Toggle(pending, entry), entry) == pending
  {
    RemoveAppended(pending, entry);
  }

  /** Toggling a pending session that occurs once and toggling it back moves it to the end. */
  lemma ToggleTwiceMovesToEnd(pending: seq<Entry>, entry: Entry, k: nat)
    requires k < |pending| && pending[k] == entry
    requires forall j :: 0 <= j < |pending| && j != k ==> pending[j] != entry
    ensures Toggle(Toggle(pending, entry), entry) == pending[..k] + pending[k + 1..] + [entry]
  {
    RemoveOnce(pending, entry, k);
  }

  /** Components: checking appends the class, unchecking removes every class equal on all five fields. */
  function ChangeSelection(selected: seq<Course>, checked: bool, item: Course): (r: seq<Course>)
    ensures checked ==> r == selected + [item]
    ensures !checked ==> item !in r && SubseqOf(r, selected)
    ensures !checked ==> forall c :: c in selected && c != item ==> c in r
    ensures !checked && item !in selected ==> r == selected
  {
    if checked then selected + [item] else RemoveAll(selected, item)
  }

  /** Checking adds one copy of the class; unchecking drops every copy of it and keeps every
      other class as many times as it was selected. */
  lemma ChangeSelectionMultiset(selected: seq<Course>, checked: bool, item: Course)
    ensures checked ==> multiset(ChangeSelection(selected, checked, item)) == multiset(selected) + multiset{item}
    ensures !checked ==> multiset(ChangeSelection(selected, checked, item)) == multiset(selected)[item := 0]
  {
    RemoveAllMultiset(selected, item);
  }

  /** Checking a class that was not selected and unchecking it again restores the selection. */
  lemma CheckThenUncheckRestores(selected: seq<Course>, item: Course)
    requires item !in selected
    ensures ChangeSelection(ChangeSelection(selected, true, item), false, item) == selected
  {
    RemoveAppended(selected, item);
  }
}
