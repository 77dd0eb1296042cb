/** The search of `src/App.js`: a case-insensitive substring filter on the
    chosen field of every catalog session, then removal of later duplicates
    (sessions equal on all five fields). The data arrive as a parameter;
    fetching them is not part of this model. */
module Search {
  import opened Text
  import opened Records
  import opened Seqs

  /** The field a search looks at: `subject` when searching by subject, `teacher` otherwise. */
  function SearchedField(e: Entry, searchBy: string): string
  {
    if searchBy == "subject" then e.subject else e.teacher
  }

  /** The searched field contains the search term, both lower-cased. */
  predicate Matches(e: Entry, searchBy: string, searchTerm: string)
  {
    Contains(ToLower(SearchedField(e, searchBy)), ToLower(searchTerm))
  }

  /** `data.filter(entry => ...includes(searchTerm.toLowerCase()))`. */
  function FilterEntries(data: seq<Entry>, searchBy: string, searchTerm: string): (r: seq<Entry>)
    ensures forall e :: e in r ==> e in data && Matches(e, searchBy, searchTerm)
    ensures forall e :: e in data && Matches(e, searchBy, searchTerm) ==> e in r
    ensures SubseqOf(r, data)
  {
    if data == [] then []
    else if Matches(data[0], searchBy, searchTerm) then
      [data[0]] + FilterEntries(data[1..], searchBy, searchTerm)
    else FilterEntries(data[1..], searchBy, searchTerm)
  }

  /** The filter keeps each matching session as many times as it occurs and drops the others. */
  lemma {:induction false} FilterEntriesMultiset(data: seq<Entry>, searchBy: string, searchTerm: string)
    ensures forall e :: multiset(FilterEntries(data, searchBy, searchTerm))[e] ==
              if Matches(e, searchBy, searchTerm) then multiset(data)[e] else 0
  {
    if data != [] {
      assert data == [data[0]] + data[1..];
      FilterEntriesMultiset(data[1..], searchBy, searchTerm);
    }
  }

  /** `xs.findIndex(x => five fields equal to e)`: the first position holding the same session, or -1. */
  function FindIndex(xs: seq<Entry>, e: Entry): (r: int)
    ensures -1 <= r < |xs|
    ensures 0 <= r ==> SameSession(xs[r], e) && forall j :: 0 <= j < r ==> !SameSession(xs[j], e)
    ensures r == -1 ==> forall j :: 0 <= j < |xs| ==> !SameSession(xs[j], e)
  {
    if xs == [] then -1
    else if SameSession(xs[0], e) then 0
    else
      var k := FindIndex(xs[1..], e);
      if k == -1 then -1 else k + 1
  }

  /** The positions from `i` on that `filter((entry, index, self) => index === self.findIndex(...))` keeps. */
  function KeepFirst(xs: seq<Entry>, i: nat): (r: seq<Entry>)
    requires i <= |xs|
    ensures SubseqOf(r, xs[i..])
    decreases |xs| - i
  {
    if i == |xs| then []
    else
      assert xs[i..][1..] == xs[i + 1..];
      if FindIndex(xs, xs[i]) == i then [xs[i]] + KeepFirst(xs, i + 1)
      else KeepFirst(xs, i + 1)
  }

  /** The kept sessions are exactly those at a position that is the first of their group. */
  lemma {:induction false} KeepFirstMembers(xs: seq<Entry>, i: nat)
    requires i <= |xs|
    ensures forall e :: e in KeepFirst(xs, i) ==> exists j :: i <= j < |xs| && e == xs[j] && FindIndex(xs, xs[j]) == j
    ensures forall j :: i <= j < |xs| && FindIndex(xs, xs[j]) == j ==> xs[j] in KeepFirst(xs, i)
    decreases |xs| - i
  {
    if i < |xs| {
      KeepFirstMembers(xs, i + 1);
      var rest := KeepFirst(xs, i + 1);
      var r := KeepFirst(xs, i);
      assert r == (if FindIndex(xs, xs[i]) == i then [xs[i]] + rest else rest);
      forall e | e in r ensures exists j :: i <= j < |xs| && e == xs[j] && FindIndex(xs, xs[j]) == j {
        if e !in rest {
          assert e == xs[i] && FindIndex(xs, xs[i]) == i;
        }
      }
      forall j | i <= j < |xs| && FindIndex(xs, xs[j]) == j ensures xs[j] in r {
        if j > i {
          assert xs[j] in rest;
        }
      }
    }
  }

  /** No two sessions of `r` agree on the five fields. */
  predicate NoTwoSame(r: seq<Entry>)
  {
    forall a, b :: 0 <= a < b < |r| ==> !SameSession(r[a], r[b])
  }

  /** A session that differs from every session of a list without two equal ones can go in front. */
  lemma ConsNoTwoSame(x: Entry, rest: seq<Entry>)
    requires NoTwoSame(rest) && forall e :: e in rest ==> !SameSession(x, e)
    ensures NoTwoSame([x] + rest)
  {
    var r := [x] + rest;
    forall a, b | 0 <= a < b < |r| ensures !SameSession(r[a], r[b]) {
      if a == 0 {
        assert r[b] in rest;
      } else {
        assert r[a] == rest[a - 1] && r[b] == rest[b - 1];
      }
    }
  }

  /** A session at the first position of its group differs from every session kept after it. */
  lemma KeptAfterDiffer(xs: seq<Entry>, i: nat)
    requires i < |xs| && FindIndex(xs, xs[i]) == i
    ensures forall e :: e in KeepFirst(xs, i + 1) ==> !SameSession(xs[i], e)
  {
    KeepFirstMembers(xs, i + 1);
    forall e | e in KeepFirst(xs, i + 1) ensures !SameSession(xs[i], e) {
      var j :| i + 1 <= j < |xs| && e == xs[j] && FindIndex(xs, xs[j]) == j;
    }
  }

  /** No two kept sessions agree on the five fields. */
  lemma {:induction false} KeepFirstDistinct(xs: seq<Entry>, i: nat)
    requires i <= |xs|
    ensures NoTwoSame(KeepFirst(xs, i))
    decreases |xs| - i
  {
    if i < |xs| {
      KeepFirstDistinct(xs, i + 1);
      if FindIndex(xs, xs[i]) == i {
        KeptAfterDiffer(xs, i);
        ConsNoTwoSame(xs[i], KeepFirst(xs, i + 1));
      }
    }
  }

  /** First-occurrence de-duplication on the five fields. */
  function Dedup(xs: seq<Entry>): (r: seq<Entry>)
    ensures SubseqOf(r, xs)
    ensures forall a, b :: 0 <= a < b < |r| ==> !SameSession(r[a], r[b])
    ensures forall j :: 0 <= j < |xs| ==> xs[FindIndex(xs, xs[j])] in r
    ensures forall e :: e in r ==> e in xs && xs[FindIndex(xs, e)] == e
  {
    assert xs[0..] == xs;
    KeepFirstMembers(xs, 0);
    KeepFirstDistinct(xs, 0);
    KeepFirst(xs, 0)
  }

  /** `e` is the first session of `xs` equal to it on the five fields. */
  predicate FirstOf(xs: seq<Entry>, e: Entry)
  {
    0 <= FindIndex(xs, e) && xs[FindIndex(xs, e)] == e
  }

  /** Filtering keeps the first copy of a matching session first: the first session of the
      filtered list equal to `e` on the five fields is its first such session in the data. */
  lemma {:induction false} FilterKeepsFirst(data: seq<Entry>, searchBy: string, searchTerm: string, e: Entry)
    requires Matches(e, searchBy, searchTerm) && 0 <= FindIndex(data, e)
    ensures var filtered := FilterEntries(data, searchBy, searchTerm);
      0 <= FindIndex(filtered, e) && filtered[FindIndex(filtered, e)] == data[FindIndex(data, e)]
  {
    var rest := data[1..];
    if !SameSession(data[0], e) {
      FilterKeepsFirst(rest, searchBy, searchTerm, e);
    }
  }

  /** Each session the de-duplicated filter keeps is the first copy of itself in the data. */
  lemma DedupKeepsFirst(data: seq<Entry>, searchBy: string, searchTerm: string)
    ensures forall e :: e in Dedup(FilterEntries(data, searchBy, searchTerm)) ==> FirstOf(data, e)
  {
    var filtered := FilterEntries(data, searchBy, searchTerm);
    var r := Dedup(filtered);
    forall e | e in r ensures FirstOf(data, e) {
      SubseqMembers(r, filtered);
      var j :| 0 <= j < |data| && data[j] == e;
      assert SameSession(data[j], e);
      FilterKeepsFirst(data, searchBy, searchTerm, e);
    }
  }

  /** Every matching session of the data has a copy among the de-duplicated filter's sessions. */
  lemma DedupCoversMatches(data: seq<Entry>, searchBy: string, searchTerm: string)
    ensures forall e :: e in data && Matches(e, searchBy, searchTerm) ==>
              exists f :: f in Dedup(FilterEntries(data, searchBy, searchTerm)) && SameSession(f, e)
  {
    var filtered := FilterEntries(data, searchBy, searchTerm);
    var r := Dedup(filtered);
    forall e | e in data && Matches(e, searchBy, searchTerm)
      ensures exists f :: f in r && SameSession(f, e)
    {
      var j :| 0 <= j < |filtered| && filtered[j] == e;
      var f := filtered[FindIndex(filtered, filtered[j])];
      assert f in r && SameSession(f, e);
    }
  }

  /** What a search shows: the matching sessions of `data`, without duplicates, in data order. */
  function SearchResults(data: seq<Entry>, searchBy: string, searchTerm: string): (r: seq<Entry>)
    ensures forall e :: e in r ==> e in data && Matches(e, searchBy, searchTerm)
    ensures forall e :: e in data && Matches(e, searchBy, searchTerm) ==>
              exists f :: f in r && SameSession(f, e)
    ensures forall a, b :: 0 <= a < b < |r| ==> !SameSession(r[a], r[b])
    ensures SubseqOf(r, data)
    ensures forall e :: e in r ==> FirstOf(data, e)
  {
    var filtered := FilterEntries(data, searchBy, searchTerm);
    var r := Dedup(filtered);
    DedupKeepsFirst(data, searchBy, searchTerm);
    DedupCoversMatches(data, searchBy, searchTerm);
    SubseqTrans(r, filtered, data);
    SubseqMembers(r, filtered);
    r
  }

  /** An empty search term shows every session of the data, up to duplicates. */
  lemma EmptyTermShowsAll(data: seq<Entry>, searchBy: string)
    ensures forall e :: e in data ==> exists f :: f in SearchResults(data, searchBy, "") && SameSession(f, e)
  {
    var r := SearchResults(data, searchBy, "");
    forall e | e in data ensures exists f :: f in r && SameSession(f, e) {
      EmptyIsContained(ToLower(SearchedField(e, searchBy)));
      assert ToLower("") == "";
      assert Matches(e, searchBy, "");
    }
  }
}
