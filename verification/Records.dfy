/** The two record shapes of the timetable: a catalog session as it comes from
    the timetable data, and a course as it is stored once selected. */
module Records {
  import opened Text

  /** One record of the timetable data file, `{subject, teacher, class, day, time_slot}`;
      the generator writes all five as strings. */
  datatype Row = Row(subject: string, teacher: string, className: string, day: string, timeSlot: string)

  /** A session object of the catalog, as parsing the data file yields it. `id` stands
      for the identity of the object, so two field-identical sessions are still
      distinct values; `==` on entries is the reference equality that `includes` and
      `!==` use. */
  datatype Entry = Entry(id: nat, subject: string, teacher: string, className: string,
                         day: string, timeSlot: string)

  /** The five fields of a session, identity aside. */
  function RowOf(e: Entry): Row
  {
    Row(e.subject, e.teacher, e.className, e.day, e.timeSlot)
  }

  /** `response.json()`: the parse creates one new object per record, in file order;
      `base` is the first identity not yet handed out. */
  function Load(rows: seq<Row>, base: nat): (r: seq<Entry>)
    ensures |r| == |rows|
    ensures forall j :: 0 <= j < |r| ==> RowOf(r[j]) == rows[j]
    ensures forall e :: e in r ==> base <= e.id < base + |rows|
    ensures forall i, j :: 0 <= i < j < |r| ==> r[i] != r[j]
  {
    seq(|rows|, j requires 0 <= j < |rows| =>
      Entry(base + j, rows[j].subject, rows[j].teacher, rows[j].className, rows[j].day, rows[j].timeSlot))
  }

  /** Parsing the same file twice yields objects of which none is one of the first parse. */
  lemma ReloadIsFresh(rows: seq<Row>, base: nat, later: nat)
    requires base + |rows| <= later
    ensures forall e :: e in Load(rows, later) ==> e !in Load(rows, base)
    ensures forall j :: 0 <= j < |rows| ==>
              Load(rows, later)[j] != Load(rows, base)[j] && SameSession(Load(rows, later)[j], Load(rows, base)[j])
  {
  }

  /** A selected course `{subject, teacher, class, day, time}`; the components use
      the same five fields for a checked class. */
  datatype Course = Course(subject: string, teacher: string, className: string,
                           day: string, time: string)

  /** Two sessions agree on all five fields (identity aside). */
  predicate SameSession(a: Entry, b: Entry)
  {
    a.subject == b.subject && a.teacher == b.teacher && a.className == b.className &&
    a.day == b.day && a.timeSlot == b.timeSlot
  }

  /** Two sessions belong to the same course: same subject, teacher and class. */
  predicate SameCourse(a: Entry, b: Entry)
  {
    a.subject == b.subject && a.teacher == b.teacher && a.className == b.className
  }

  /** The course a session becomes when it is selected; `time` takes `time_slot`. */
  function ToCourse(e: Entry): Course
  {
    Course(e.subject, e.teacher, e.className, e.day, e.timeSlot)
  }

  /** The grid cell of a course: its lower-cased day and its time. */
  function CourseCell(c: Course): (string, string)
  {
    (ToLower(c.day), c.time)
  }

  /** The grid cell a session asks for: its lower-cased day and its time slot. */
  function EntryCell(e: Entry): (string, string)
  {
    (ToLower(e.day), e.timeSlot)
  }

  /** No two courses of the list sit in the same cell. */
  ghost predicate NoDoubleOccupancy(courses: seq<Course>)
  {
    forall i, j :: 0 <= i < j < |courses| ==> CourseCell(courses[i]) != CourseCell(courses[j])
  }
}
