/** `countClasses` of `src/components/SearchSection.js`: the classes of the
    timetable data, one record per distinct `subject-teacher-className` key in
    the order the keys first appear, each with the number of classes under
    that key. The dictionary is a plain object whose keys all hold a dash, so
    none is an array index and `Object.values` lists them in insertion order. */
module ClassCount {
  import opened Text
  import opened Records
  import opened Counting

  /** `{ subject, teacher, className, count }`. */
  datatype ClassRecord = ClassRecord(subject: string, teacher: string, className: string, count: nat)

  /** `${subject}-${teacher}-${className}`. */
  function ClassKey(c: Course): string
  {
    c.subject + "-" + c.teacher + "-" + c.className
  }

  /** The key a record is stored under. */
  function RecordKey(r: ClassRecord): string
  {
    r.subject + "-" + r.teacher + "-" + r.className
  }

  /** The record of key `k`: the fields of the first class with that key, and how many
      classes have it. */
  ghost function Tally(data: seq<Course>, k: string): (r: ClassRecord)
    requires k in FirstKeys(data, ClassKey)
    ensures RecordKey(r) == k
    ensures 1 <= r.count <= |data|
  {
    var c := data[IndexOfKey(data, ClassKey, k)];
    ClassRecord(c.subject, c.teacher, c.className, Occurrences(data, ClassKey, k))
  }

  /** The dictionary `classCount` after the classes `done`, with its keys in insertion order. */
  ghost predicate Counted(classCount: map<string, ClassRecord>, order: seq<string>, done: seq<Course>)
  {
    && order == FirstKeys(done, ClassKey)
    && (forall k :: k in classCount <==> k in order)
    && Tallied(classCount, done)
  }

  /** Every record of `classCount` is the tally of its key over `done`. */
  ghost predicate Tallied(classCount: map<string, ClassRecord>, done: seq<Course>)
  {
    forall k :: k in classCount ==> k in FirstKeys(done, ClassKey) && classCount[k] == Tally(done, k)
  }

  /** Appending a class adds its key to the first keys when the key is new. */
  lemma SnocKeys(done: seq<Course>, c: Course)
    ensures FirstKeys(done + [c], ClassKey) ==
              FirstKeys(done, ClassKey) + (if ClassKey(c) in FirstKeys(done, ClassKey) then [] else [ClassKey(c)])
  {
    assert (done + [c])[..|done|] == done;
  }

  /** Appending a class starts the tally of a new key at 1, raises the tally of its own key
      by one, and leaves the other tallies alone. */
  lemma SnocTally(done: seq<Course>, c: Course, k: string)
    requires k in FirstKeys(done + [c], ClassKey)
    ensures k !in FirstKeys(done, ClassKey) ==> Tally(done + [c], k) == ClassRecord(c.subject, c.teacher, c.className, 1)
    ensures k in FirstKeys(done, ClassKey) ==>
              Tally(done + [c], k) ==
                Tally(done, k).(count := Tally(done, k).count + (if ClassKey(c) == k then 1 else 0))
  {
    var next := done + [c];
    assert next[..|done|] == done;
    SnocKeys(done, c);
    if k !in FirstKeys(done, ClassKey) {
      FirstKeysComplete(done, ClassKey);
      assert k == ClassKey(c);
      assert Occurrences(done, ClassKey, k) == 0;
      assert IndexOfKey(next, ClassKey, k) == |done|;
    } else {
      var i := IndexOfKey(done, ClassKey, k);
      assert IndexOfKey(next, ClassKey, k) == i;
      assert next[i] == done[i];
    }
  }

  /** A key seen for the first time gets a record with count 1. */
  lemma CountNew(classCount: map<string, ClassRecord>, order: seq<string>, done: seq<Course>, c: Course)
    requires Counted(classCount, order, done) && ClassKey(c) !in classCount
    ensures var updated := classCount[ClassKey(c) := ClassRecord(c.subject, c.teacher, c.className, 1)];
      && order + [ClassKey(c)] == FirstKeys(done + [c], ClassKey)
      && (forall k :: k in updated <==> k in order + [ClassKey(c)])
      && Tallied(updated, done + [c])
  {
    var key := ClassKey(c);
    var next := done + [c];
    var updated := classCount[key := ClassRecord(c.subject, c.teacher, c.className, 1)];
    assert order + [key] == FirstKeys(next, ClassKey) by {
      SnocKeys(done, c);
    }
    assert Tallied(updated, next) by {
      forall k | k in updated ensures k in FirstKeys(next, ClassKey) && updated[k] == Tally(next, k) {
        SnocKeys(done, c);
        SnocTally(done, c, k);
      }
    }
  }

  /** A key seen before has its count raised by one. */
  lemma CountAgain(classCount: map<string, ClassRecord>, order: seq<string>, done: seq<Course>, c: Course)
    requires Counted(classCount, order, done) && ClassKey(c) in classCount
    ensures var updated := classCount[ClassKey(c) := classCount[ClassKey(c)].(count := classCount[ClassKey(c)].count + 1)];
      && order == FirstKeys(done + [c], ClassKey)
      && (forall k :: k in updated <==> k in order)
      && Tallied(updated, done + [c])
  {
    var key := ClassKey(c);
    var next := done + [c];
    var updated := classCount[key := classCount[key].(count := classCount[key].count + 1)];
    assert order == FirstKeys(next, ClassKey) by {
      SnocKeys(done, c);
    }
    assert Tallied(updated, next) by {
      forall k | k in updated ensures k in FirstKeys(next, ClassKey) && updated[k] == Tally(next, k) {
        SnocKeys(done, c);
        SnocTally(done, c, k);
      }
    }
  }

  /** Sum of the counts of the records. */
  function TotalCount(records: seq<ClassRecord>): nat
  {
    if records == [] then 0 else TotalCount(records[..|records| - 1]) + records[|records| - 1].count
  }

  /** The counts of the records of `keys` add up to the number of classes under those keys. */
  lemma {:induction false} TotalCountIsSumCounts(data: seq<Course>, records: seq<ClassRecord>, keys: seq<string>)
    requires |records| == |keys|
    requires forall k :: k in keys ==> k in FirstKeys(data, ClassKey)
    requires forall i :: 0 <= i < |records| ==> records[i] == Tally(data, keys[i])
    ensures TotalCount(records) == SumCounts(data, ClassKey, keys)
  {
    if keys != [] {
      var n := |keys| - 1;
      assert forall k :: k in keys[..n] ==> k in keys;
      TotalCountIsSumCounts(data, records[..n], keys[..n]);
    }
  }

  /** The values of the dictionary after every class, listed in key insertion order: one
      record per distinct key, in first-appearance order, each key once, every class under
      one of them, and the counts adding up to the number of classes. */
  lemma CountedValues(data: seq<Course>, classCount: map<string, ClassRecord>, order: seq<string>,
                      records: seq<ClassRecord>)
    requires Counted(classCount, order, data)
    requires |records| == |order| && forall i :: 0 <= i < |order| ==> records[i] == classCount[order[i]]
    ensures |records| == |FirstKeys(data, ClassKey)|
    ensures forall i :: 0 <= i < |records| ==> records[i] == Tally(data, FirstKeys(data, ClassKey)[i])
    ensures forall i, j :: 0 <= i < j < |records| ==> RecordKey(records[i]) != RecordKey(records[j])
    ensures forall j :: 0 <= j < |data| ==>
              exists i :: 0 <= i < |records| && RecordKey(records[i]) == ClassKey(data[j])
    ensures TotalCount(records) == |data|
  {
    assert forall i :: 0 <= i < |records| ==> records[i] == Tally(data, order[i]) && RecordKey(records[i]) == order[i] by {
      forall i | 0 <= i < |records| ensures records[i] == Tally(data, order[i]) && RecordKey(records[i]) == order[i] {
        assert order[i] in classCount;
      }
    }
    assert forall i, j :: 0 <= i < j < |records| ==> RecordKey(records[i]) != RecordKey(records[j]) by {
      FirstKeysDistinct(data, ClassKey);
    }
    assert forall j :: 0 <= j < |data| ==>
             exists i :: 0 <= i < |records| && RecordKey(records[i]) == ClassKey(data[j]) by {
      FirstKeysComplete(data, ClassKey);
      forall j | 0 <= j < |data|
        ensures exists i :: 0 <= i < |records| && RecordKey(records[i]) == ClassKey(data[j])
      {
        var i :| 0 <= i < |order| && order[i] == ClassKey(data[j]);
        assert RecordKey(records[i]) == order[i];
      }
    }
    assert TotalCount(records) == |data| by {
      TotalCountIsSumCounts(data, records, order);
      CountsSumToLength(data, ClassKey);
    }
  }

  /** `countClasses`: one record per distinct key, in first-appearance order. */
  method CountClasses(timetableData: seq<Course>) returns (records: seq<ClassRecord>)
    ensures |records| == |FirstKeys(timetableData, ClassKey)|
    ensures forall i :: 0 <= i < |records| ==> records[i] == Tally(timetableData, FirstKeys(timetableData, ClassKey)[i])
    ensures forall i, j :: 0 <= i < j < |records| ==> RecordKey(records[i]) != RecordKey(records[j])
    ensures forall j :: 0 <= j < |timetableData| ==>
              exists i :: 0 <= i < |records| && RecordKey(records[i]) == ClassKey(timetableData[j])
    ensures TotalCount(records) == |timetableData|
  {
    var classCount: map<string, ClassRecord> := map[];
    var order: seq<string> := [];
    ghost var done: seq<Course> := [];
    for i := 0 to |timetableData|
      invariant done == timetableData[..i]
      invariant Counted(classCount, order, done)
    {
      var c := timetableData[i];
      assert timetableData[..i + 1] == done + [c];
      var key := ClassKey(c);
      if key !in classCount {
        CountNew(classCount, order, done, c);
        classCount := classCount[key := ClassRecord(c.subject, c.teacher, c.className, 1)];
        order := order + [key];
      } else {
        CountAgain(classCount, order, done, c);
        classCount := classCount[key := classCount[key].(count := classCount[key].count + 1)];
      }
      done := done + [c];
    }
    assert done == timetableData;
    records := seq(|order|, j requires 0 <= j < |order| && order[j] in classCount => classCount[order[j]]);
    CountedValues(timetableData, classCount, order, records);
  }

  /** When subjects and teachers hold no dash, two classes share a record exactly when they
      agree on subject, teacher and class name. */
  lemma ClassKeyExact(a: Course, b: Course)
    requires '-' !in a.subject && '-' !in a.teacher && '-' !in b.subject && '-' !in b.teacher
    ensures ClassKey(a) == ClassKey(b) <==>
              a.subject == b.subject && a.teacher == b.teacher && a.className == b.className
  {
    assert ClassKey(a) == a.subject + "-" + (a.teacher + "-" + a.className);
    assert ClassKey(b) == b.subject + "-" + (b.teacher + "-" + b.className);
    DashJoinInjective(a.subject, a.teacher + "-" + a.className, b.subject, b.teacher + "-" + b.className);
    DashJoinInjective(a.teacher, a.className, b.teacher, b.className);
  }

  /** Two different classes that the dash-joined key merges into one record. */
  lemma DashInFieldMergesClasses()
    ensures var a := Course("a-b", "c", "d", "Monday", "09:00");
            var b := Course("a", "b-c", "d", "Monday", "09:00");
            a.subject != b.subject && ClassKey(a) == ClassKey(b)
  {
  }
}
