/** TimetableEntryView.tsx: the weekly grid for one day and one class. Each of
    the five periods shows the slot stored under (day, class, period); editing
    one field of a period builds a new entry and hands it to `updateTimetable`. */
module TimetableView {
  import opened Wrappers
  import opened Lists
  import opened Types
  import Store

  function IsActive(): Teacher -> bool { (t: Teacher) => t.isActive }

  /** `activeTeachers`: the teachers still working, in store order. */
  function ActiveTeachers(teachers: seq<Teacher>): (r: seq<Teacher>)
    ensures forall t :: t in r <==> t in teachers && t.isActive
    ensures |r| <= |teachers|
    ensures Subsequence(r, teachers)
    ensures forall t {:trigger multiset(r)[t]} :: multiset(r)[t] == if t.isActive then multiset(teachers)[t] else 0
  {
    Filter(teachers, IsActive())
  }

  function TeacherIds(ts: seq<Teacher>): (r: seq<string>)
    ensures |r| == |ts|
    ensures forall i :: 0 <= i < |ts| ==> r[i] == ts[i].id
  {
    if ts == [] then [] else [ts[0].id] + TeacherIds(ts[1..])
  }

  /** An id is listed exactly when one of the teachers carries it. */
  lemma TeacherIdsMembers(ts: seq<Teacher>)
    ensures forall o :: o in TeacherIds(ts) <==> exists t :: t in ts && t.id == o
  {
    var ids := TeacherIds(ts);
    forall o | o in ids ensures exists t :: t in ts && t.id == o {
      var i :| 0 <= i < |ids| && ids[i] == o;
      assert ts[i] in ts;
    }
    forall o | exists t :: t in ts && t.id == o ensures o in ids {
      var t :| t in ts && t.id == o;
      var i :| 0 <= i < |ts| && ts[i] == t;
      assert ids[i] == o;
    }
  }

  /** The values of the "Lead Educator" select: "" for Vacant, then the ids
      of the active teachers. A resigned teacher cannot be chosen. */
  function LeadOptions(teachers: seq<Teacher>): (r: seq<string>)
    ensures |r| > 0 && r[0] == ""
    ensures forall o :: o in r <==> o == "" || exists t :: t in teachers && t.isActive && t.id == o
  {
    var active := ActiveTeachers(teachers);
    TeacherIdsMembers(active);
    [""] + TeacherIds(active)
  }

  /** The test of `getEntry`: this day, this class, this period. */
  function SlotMatch(day: DayOfWeek, classId: SchoolClass, period: int): TimetableEntry -> bool {
    (e: TimetableEntry) => e.day == day && e.classId == classId && e.periodNumber == period
  }

  /** `getEntry`: the slot shown for `period`. It is exactly the slot the
      store's upsert addresses by the natural key. */
  function GetEntry(tt: seq<TimetableEntry>, day: DayOfWeek, classId: SchoolClass, period: int): (r: Option<TimetableEntry>)
    ensures r == Store.SlotAt(tt, SlotKey(day, classId, period))
    ensures r.None? <==> forall e :: e in tt ==> !(e.day == day && e.classId == classId && e.periodNumber == period)
    ensures r.Some? ==> r.value in tt && r.value.day == day && r.value.classId == classId && r.value.periodNumber == period
  {
    FirstIndexPointwise(tt, SlotMatch(day, classId, period),
                        (e: TimetableEntry) => KeyOf(e) == SlotKey(day, classId, period));
    Find(tt, SlotMatch(day, classId, period))
  }

  /** The four editable columns of a period. */
  datatype Field = SubjectField | LeadField | StartField | EndField

  function FieldValue(e: TimetableEntry, f: Field): string {
    match f
    case SubjectField => e.subject
    case LeadField => e.teacherId
    case StartField => e.startTime
    case EndField => e.endTime
  }

  /** What a new slot holds in the columns not being edited. */
  function Default(f: Field): string {
    match f
    case SubjectField => ""
    case LeadField => ""
    case StartField => "08:00"
    case EndField => "09:00"
  }

  /** `{ ...existing, [field]: value }`. */
  function SetField(e: TimetableEntry, f: Field, v: string): (r: TimetableEntry)
    ensures FieldValue(r, f) == v
    ensures forall g :: g != f ==> FieldValue(r, g) == FieldValue(e, g)
    ensures r.id == e.id && KeyOf(r) == KeyOf(e)
  {
    match f
    case SubjectField => e.(subject := v)
    case LeadField => e.(teacherId := v)
    case StartField => e.(startTime := v)
    case EndField => e.(endTime := v)
  }

  /** `handleSave`: the entry sent to `updateTimetable` when column `f` of
      `period` is set to `v`. An existing slot keeps its id, key and other
      columns; an empty one gets `freshId`, the selected key and the defaults. */
  function HandleSave(tt: seq<TimetableEntry>, day: DayOfWeek, classId: SchoolClass, period: int,
                      f: Field, v: string, freshId: string): (r: TimetableEntry)
    ensures KeyOf(r) == SlotKey(day, classId, period)
    ensures FieldValue(r, f) == v
    ensures var existing := GetEntry(tt, day, classId, period);
      existing.Some? ==> r.id == existing.value.id && forall g :: g != f ==> FieldValue(r, g) == FieldValue(existing.value, g)
    ensures GetEntry(tt, day, classId, period).None? ==>
      r.id == freshId && forall g :: g != f ==> FieldValue(r, g) == Default(g)
  {
    var existing := GetEntry(tt, day, classId, period);
    if existing.Some? then SetField(existing.value, f, v)
    else TimetableEntry(freshId, classId, day, period,
                        if f == SubjectField then v else Default(SubjectField),
                        if f == LeadField then v else Default(LeadField),
                        if f == StartField then v else Default(StartField),
                        if f == EndField then v else Default(EndField))
  }

  /** What an input of the grid shows: the stored value, or the column's
      default when there is no slot or the value is empty (`entry?.x || d`). */
  function Shown(entry: Option<TimetableEntry>, f: Field): (r: string)
    ensures entry.None? ==> r == Default(f)
    ensures entry.Some? && FieldValue(entry.value, f) != "" ==> r == FieldValue(entry.value, f)
    ensures r == "" ==> Default(f) == ""
  {
    if entry.Some? && FieldValue(entry.value, f) != "" then FieldValue(entry.value, f) else Default(f)
  }

  /** After an edit is saved, the period holds the saved entry and the edited
      input shows the new value, or its default when the value is empty. */
  lemma SaveThenShown(tt: seq<TimetableEntry>, day: DayOfWeek, classId: SchoolClass, period: int,
                      f: Field, v: string, freshId: string)
    ensures var e := HandleSave(tt, day, classId, period, f, v, freshId);
      var shown := GetEntry(Store.Upsert(tt, e), day, classId, period);
      shown == Some(e) && Shown(shown, f) == (if v == "" then Default(f) else v)
  {
    var e := HandleSave(tt, day, classId, period, f, v, freshId);
    Store.UpsertLookup(tt, e, SlotKey(day, classId, period));
  }

  /** Every other input of the edited period shows what it showed before. */
  lemma SaveKeepsOtherColumns(tt: seq<TimetableEntry>, day: DayOfWeek, classId: SchoolClass, period: int,
                              f: Field, v: string, freshId: string, g: Field)
    requires g != f
    ensures var e := HandleSave(tt, day, classId, period, f, v, freshId);
      Shown(GetEntry(Store.Upsert(tt, e), day, classId, period), g) == Shown(GetEntry(tt, day, classId, period), g)
  {
    var e := HandleSave(tt, day, classId, period, f, v, freshId);
    SaveThenShown(tt, day, classId, period, f, v, freshId);
    ShownUnchanged(GetEntry(tt, day, classId, period), e, g);
  }

  /** A column that keeps its stored value, or that a new slot fills with
      its default, shows what it showed before. */
  lemma ShownUnchanged(before: Option<TimetableEntry>, e: TimetableEntry, g: Field)
    requires FieldValue(e, g) == if before.Some? then FieldValue(before.value, g) else Default(g)
    ensures Shown(Some(e), g) == Shown(before, g)
  {
  }

  /** Saving a period never changes what any other day, class or period shows. */
  lemma SaveKeepsOtherSlots(tt: seq<TimetableEntry>, day: DayOfWeek, classId: SchoolClass, period: int,
                            f: Field, v: string, freshId: string,
                            day': DayOfWeek, classId': SchoolClass, period': int)
    requires (day', classId', period') != (day, classId, period)
    ensures var after := Store.Upsert(tt, HandleSave(tt, day, classId, period, f, v, freshId));
      GetEntry(after, day', classId', period') == GetEntry(tt, day', classId', period')
  {
    var e := HandleSave(tt, day, classId, period, f, v, freshId);
    Store.UpsertLookup(tt, e, SlotKey(day', classId', period'));
  }

  /** The "Active" badge: a slot exists and has both a subject and a lead. */
  predicate SlotActive(entry: Option<TimetableEntry>)
    ensures !SlotActive(entry) <==> Shown(entry, SubjectField) == "" || Shown(entry, LeadField) == ""
  {
    entry.Some? && entry.value.subject != "" && entry.value.teacherId != ""
  }

  /** Choosing "Vacant" as lead, or emptying the subject, turns the badge to
      "Pending"; giving a subject and a lead to a period turns it "Active". */
  lemma ActiveBadge(tt: seq<TimetableEntry>, day: DayOfWeek, classId: SchoolClass, period: int,
                    f: Field, v: string, freshId: string)
    ensures var after := Store.Upsert(tt, HandleSave(tt, day, classId, period, f, v, freshId));
      var shown := GetEntry(after, day, classId, period);
      && ((f == LeadField || f == SubjectField) && v == "" ==> !SlotActive(shown))
      && (f == LeadField && v != "" ==> (SlotActive(shown) <==> Shown(GetEntry(tt, day, classId, period), SubjectField) != ""))
  {
    var e := HandleSave(tt, day, classId, period, f, v, freshId);
    Store.UpsertLookup(tt, e, SlotKey(day, classId, period));
  }

  /** The trash button clears the slot by its own id. With one slot per key
      this empties the period. */
  lemma ClearEmptiesSlot(tt: seq<TimetableEntry>, day: DayOfWeek, classId: SchoolClass, period: int)
    requires Store.UniqueKeys(tt)
    requires GetEntry(tt, day, classId, period).Some?
    ensures GetEntry(Store.RemoveSlot(tt, GetEntry(tt, day, classId, period).value.id), day, classId, period).None?
  {
  }

  /** After a teacher is deleted, every period keeps its slot; a slot they
      led now has no lead and shows "Pending". */
  lemma DeletedLeadLeavesPending(s: AppState, id: string, day: DayOfWeek, classId: SchoolClass, period: int)
    requires id != ""
    ensures var before := GetEntry(s.timetable, day, classId, period);
      var after := GetEntry(Store.DeleteTeacher(s, id, true).timetable, day, classId, period);
      && (after.Some? <==> before.Some?)
      && (before.Some? ==> after.value == before.value.(teacherId := if before.value.teacherId == id then "" else before.value.teacherId))
      && (before.Some? && before.value.teacherId == id ==> !SlotActive(after))
  {
    SlotIndexUnassign(s.timetable, id, SlotKey(day, classId, period));
  }

  /** Unassigning a teacher keeps every slot's key, so every key still finds
      the same index. */
  lemma SlotIndexUnassign(tt: seq<TimetableEntry>, id: string, k: SlotKey)
    ensures Store.SlotIndex(Store.Unassign(tt, id), k) == Store.SlotIndex(tt, k)
  {
    var u := Store.Unassign(tt, id);
    assert forall i :: 0 <= i < |tt| ==> KeyOf(u[i]) == KeyOf(tt[i]);
  }
}
