/** `updateTimetable` of `src/components/Timetable.js`: the checked classes
    grouped into a map from lower-cased day to a map from formatted time to
    the list of `subject (teacher)` strings, in selection order. */
module TimetableView {
  import opened Text
  import opened Records
  import opened Counting

  /** The bucket of a class: its lower-cased day and its time with every ':' made '-'. */
  function SlotOf(c: Course): (string, string)
  {
    (ToLower(c.day), ReplaceColons(c.time))
  }

  /** `${subject} (${teacher})`. */
  function ClassLabel(c: Course): string
  {
    c.subject + " (" + c.teacher + ")"
  }

  /** The strings of the classes in bucket `key`, in selection order; one per such class. */
  ghost function Bucket(selected: seq<Course>, key: (string, string)): (r: seq<string>)
    ensures |r| == Occurrences(selected, SlotOf, key)
    ensures r == [] <==> forall j :: 0 <= j < |selected| ==> SlotOf(selected[j]) != key
  {
    if selected == [] then []
    else
      var init := selected[..|selected| - 1];
      var last := selected[|selected| - 1];
      assert forall j :: 0 <= j < |init| ==> init[j] == selected[j];
      Bucket(init, key) + (if SlotOf(last) == key then [ClassLabel(last)] else [])
  }

  /** Total number of strings in the buckets `keys`. */
  ghost function SumBucketSizes(selected: seq<Course>, keys: seq<(string, string)>): nat
  {
    if keys == [] then 0
    else SumBucketSizes(selected, keys[..|keys| - 1]) + |Bucket(selected, keys[|keys| - 1])|
  }

  /** Every checked class is in exactly one bucket: the buckets together hold as many
      strings as there are checked classes. */
  lemma BucketsHoldEveryClass(selected: seq<Course>)
    ensures SumBucketSizes(selected, FirstKeys(selected, SlotOf)) == |selected|
  {
    SumBucketSizesIsSumCounts(selected, FirstKeys(selected, SlotOf));
    CountsSumToLength(selected, SlotOf);
  }

  /** The size of a bucket is the number of classes with its key. */
  lemma {:induction false} SumBucketSizesIsSumCounts(selected: seq<Course>, keys: seq<(string, string)>)
    ensures SumBucketSizes(selected, keys) == SumCounts(selected, SlotOf, keys)
  {
    if keys != [] {
      SumBucketSizesIsSumCounts(selected, keys[..|keys| - 1]);
    }
  }

  /** Adding a class to the end adds its string to the end of its own bucket only. */
  lemma BucketSnoc(selected: seq<Course>, c: Course, key: (string, string))
    ensures Bucket(selected + [c], key) == Bucket(selected, key) + (if SlotOf(c) == key then [ClassLabel(c)] else [])
  {
    assert (selected + [c])[..|selected|] == selected;
  }

  /** Every bucket of `t` holds the strings of its key's classes among `selected`, and is not empty. */
  ghost predicate BucketsMatch(t: map<string, map<string, seq<string>>>, selected: seq<Course>)
  {
    forall day, time :: day in t && time in t[day] ==>
      t[day][time] == Bucket(selected, (day, time)) && t[day][time] != []
  }

  /** `t` has a bucket for the key of `c`. */
  predicate HasBucket(t: map<string, map<string, seq<string>>>, c: Course)
  {
    SlotOf(c).0 in t && SlotOf(c).1 in t[SlotOf(c).0]
  }

  /** `t` has a bucket for each class of `selected`. */
  ghost predicate KeysPresent(t: map<string, map<string, seq<string>>>, selected: seq<Course>)
  {
    forall j :: 0 <= j < |selected| ==> HasBucket(t, selected[j])
  }

  /** No day of `t` maps to an empty map. */
  ghost predicate NoEmptyDay(t: map<string, map<string, seq<string>>>)
  {
    forall day :: day in t ==> exists time :: time in t[day]
  }

  /** `t` maps exactly the keys of the classes `selected` to their buckets. */
  ghost predicate Groups(t: map<string, map<string, seq<string>>>, selected: seq<Course>)
  {
    BucketsMatch(t, selected) && KeysPresent(t, selected) && NoEmptyDay(t)
  }

  /** One `push` into the bucket of `day` and `time`, creating the day and the bucket when absent. */
  function Push(t: map<string, map<string, seq<string>>>, day: string, time: string, s: string)
    : (r: map<string, map<string, seq<string>>>)
    ensures day in r && time in r[day]
    ensures r[day][time] == (if day in t && time in t[day] then t[day][time] else []) + [s]
    ensures forall d :: d in r ==> d in t || d == day
    ensures forall d, tm :: d in r && tm in r[d] && (d, tm) != (day, time) ==>
              d in t && tm in t[d] && r[d][tm] == t[d][tm]
    ensures forall d, tm :: d in t && tm in t[d] ==> d in r && tm in r[d]
  {
    var row := if day in t then t[day] else map[];
    var bucket := if time in row then row[time] else [];
    t[day := row[time := bucket + [s]]]
  }

  /** The push of class `i` into its bucket. */
  function PushClass(t: map<string, map<string, seq<string>>>, c: Course): map<string, map<string, seq<string>>>
  {
    Push(t, ToLower(c.day), ReplaceColons(c.time), ClassLabel(c))
  }

  /** Pushing a class keeps the buckets right. */
  lemma PushKeepsBuckets(t: map<string, map<string, seq<string>>>, selected: seq<Course>, c: Course)
    requires BucketsMatch(t, selected) && KeysPresent(t, selected)
    ensures BucketsMatch(PushClass(t, c), selected + [c])
  {
    var key := SlotOf(c);
    var r := PushClass(t, c);
    forall day, time | day in r && time in r[day]
      ensures r[day][time] == Bucket(selected + [c], (day, time)) && r[day][time] != []
    {
      BucketSnoc(selected, c, (day, time));
      if (day, time) == key && !(key.0 in t && key.1 in t[key.0]) {
        assert Bucket(selected, key) == [] by {
          forall j | 0 <= j < |selected| ensures SlotOf(selected[j]) != key {
            assert HasBucket(t, selected[j]);
          }
        }
      }
    }
  }

  /** Pushing a class keeps a bucket for every class. */
  lemma PushKeepsKeys(t: map<string, map<string, seq<string>>>, selected: seq<Course>, c: Course)
    requires KeysPresent(t, selected)
    ensures KeysPresent(PushClass(t, c), selected + [c])
  {
    var next := selected + [c];
    var r := PushClass(t, c);
    forall j | 0 <= j < |next| ensures HasBucket(r, next[j]) {
      if j < |selected| {
        assert HasBucket(t, selected[j]);
      }
    }
  }

  /** Pushing a class leaves no day empty. */
  lemma PushKeepsDays(t: map<string, map<string, seq<string>>>, c: Course)
    requires NoEmptyDay(t)
    ensures NoEmptyDay(PushClass(t, c))
  {
    var r := PushClass(t, c);
    forall day | day in r ensures exists time :: time in r[day] {
      if day == ToLower(c.day) {
        assert ReplaceColons(c.time) in r[day];
      } else {
        var time :| time in t[day];
        assert time in r[day];
      }
    }
  }

  /** The loop step of `updateTimetable`: pushing the next class extends the grouping by it. */
  lemma PushKeepsGroups(t: map<string, map<string, seq<string>>>, selected: seq<Course>, c: Course)
    requires Groups(t, selected)
    ensures Groups(PushClass(t, c), selected + [c])
  {
    PushKeepsBuckets(t, selected, c);
    PushKeepsKeys(t, selected, c);
    PushKeepsDays(t, c);
  }

  /** A grouping has a bucket only for keys that occur, and no bucket's time holds a ':'. */
  lemma GroupsKeysOccur(t: map<string, map<string, seq<string>>>, selected: seq<Course>)
    requires Groups(t, selected)
    ensures forall day, time :: day in t && time in t[day] ==>
              (day, time) in FirstKeys(selected, SlotOf) && ':' !in time
  {
    forall day, time | day in t && time in t[day]
      ensures (day, time) in FirstKeys(selected, SlotOf) && ':' !in time
    {
      FirstKeysComplete(selected, SlotOf);
      assert Bucket(selected, (day, time)) != [];
      var j :| 0 <= j < |selected| && SlotOf(selected[j]) == (day, time);
    }
  }

  /** The grouping `updateTimetable` builds from the checked classes: a map from lower-cased
      day to a map from formatted time to the strings of the classes there, in order. */
  method UpdateTimetable(selectedClasses: seq<Course>) returns (newTimetable: map<string, map<string, seq<string>>>)
    ensures Groups(newTimetable, selectedClasses)
    ensures forall day, time :: day in newTimetable && time in newTimetable[day] ==>
              (day, time) in FirstKeys(selectedClasses, SlotOf) && ':' !in time
  {
    newTimetable := map[];
    ghost var done: seq<Course> := [];
    for i := 0 to |selectedClasses|
      invariant done == selectedClasses[..i]
      invariant Groups(newTimetable, done)
    {
      var c := selectedClasses[i];
      assert selectedClasses[..i + 1] == done + [c];
      var formattedDay := ToLower(c.day);
      var formattedTime := ReplaceColons(c.time);
      PushKeepsGroups(newTimetable, done, c);
      var row := if formattedDay in newTimetable then newTimetable[formattedDay] else map[];
      var bucket := if formattedTime in row then row[formattedTime] else [];
      newTimetable := newTimetable[formattedDay := row[formattedTime := bucket + [ClassLabel(c)]]];
      done := done + [c];
    }
    assert selectedClasses[..|selectedClasses|] == selectedClasses;
    GroupsKeysOccur(newTimetable, selectedClasses);
  }
}
