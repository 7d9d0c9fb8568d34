/** The actions of App.tsx as total functions on `AppState`. Each one is the
    body of a `setState(prev => ...)` update: it builds the next state from the
    previous one, and everything it does not mention is carried over. The
    fresh id that `crypto.randomUUID()` would produce and the answer that
    `window.confirm` would give are parameters. */
module Store {
  import opened Wrappers
  import opened Lists
  import opened Types

  /** The state used when nothing has been persisted yet. */
  function Initial(): (s: AppState)
    ensures s.currentUser == None && s.githubToken == None && s.githubGistId == None
    ensures s.teachers == [] && s.timetable == [] && s.lessons == [] && s.homework == []
  {
    AppState(None, [], [], [], [], None, None)
  }

  /** `Partial<AppState>`: `Some(v)` for each field the update object names. */
  datatype Updates = Updates(
    currentUser: Option<Option<string>>,
    teachers: Option<seq<Teacher>>,
    timetable: Option<seq<TimetableEntry>>,
    lessons: Option<seq<Lesson>>,
    homework: Option<seq<Homework>>,
    githubToken: Option<Option<string>>,
    githubGistId: Option<Option<string>>)

  const NoUpdates: Updates := Updates(None, None, None, None, None, None, None)

  /** `updateState`: `{ ...prev, ...updates }`. */
  function UpdateState(s: AppState, u: Updates): (r: AppState)
    ensures u == NoUpdates ==> r == s
    ensures r.currentUser == u.currentUser.GetOr(s.currentUser)
    ensures r.teachers == u.teachers.GetOr(s.teachers)
    ensures r.timetable == u.timetable.GetOr(s.timetable)
    ensures r.lessons == u.lessons.GetOr(s.lessons)
    ensures r.homework == u.homework.GetOr(s.homework)
    ensures r.githubToken == u.githubToken.GetOr(s.githubToken)
    ensures r.githubGistId == u.githubGistId.GetOr(s.githubGistId)
  {
    AppState(
      u.currentUser.GetOr(s.currentUser),
      u.teachers.GetOr(s.teachers),
      u.timetable.GetOr(s.timetable),
      u.lessons.GetOr(s.lessons),
      u.homework.GetOr(s.homework),
      u.githubToken.GetOr(s.githubToken),
      u.githubGistId.GetOr(s.githubGistId))
  }

  /** The app shows the login screen while `!state.currentUser`. */
  predicate SessionOpen(s: AppState)
    ensures SessionOpen(s) <==> s.currentUser.Some? && |s.currentUser.value| > 0
  {
    IsSet(s.currentUser)
  }

  function Login(s: AppState, username: string): (r: AppState)
    ensures SessionOpen(r) <==> username != ""
    ensures r.currentUser == Some(username)
    ensures r.(currentUser := s.currentUser) == s
  {
    s.(currentUser := Some(username))
  }

  function Logout(s: AppState): (r: AppState)
    ensures !SessionOpen(r)
    ensures r.(currentUser := s.currentUser) == s
  {
    s.(currentUser := None)
  }

  // ---------------------------------------------------------------- teachers

  // The `x => x.id !== id` tests of the delete actions, one per collection.
  function OtherTeacher(id: string): Teacher -> bool { (t: Teacher) => t.id != id }
  function OtherSlot(id: string): TimetableEntry -> bool { (e: TimetableEntry) => e.id != id }
  function OtherLesson(id: string): Lesson -> bool { (l: Lesson) => l.id != id }
  function OtherHomework(id: string): Homework -> bool { (h: Homework) => h.id != id }


  function AddTeacher(s: AppState, d: TeacherDraft, freshId: string): (r: AppState)
    ensures r.(teachers := s.teachers) == s
    ensures |r.teachers| == |s.teachers| + 1 && r.teachers[..|s.teachers|] == s.teachers
    ensures var t := r.teachers[|s.teachers|];
      && t.id == freshId && t.isActive
      && t.fullName == d.fullName && t.gender == d.gender && t.phoneNumber == d.phoneNumber
      && t.email == d.email && t.specialization == d.specialization
      && t.yearStarted == d.yearStarted && t.yearEnded == d.yearEnded
  {
    var t := Teacher(freshId, d.fullName, d.gender, d.phoneNumber, d.email,
                     d.specialization, d.yearStarted, d.yearEnded, true);
    s.(teachers := s.teachers + [t])
  }

  function UpdateTeacher(s: AppState, u: Teacher): (r: AppState)
    ensures r.(teachers := s.teachers) == s
    ensures |r.teachers| == |s.teachers|
    ensures forall i :: 0 <= i < |s.teachers| ==>
      r.teachers[i] == if s.teachers[i].id == u.id then u else s.teachers[i]
  {
    s.(teachers := Map(s.teachers, (t: Teacher) => if t.id == u.id then u else t))
  }

  /** An update naming no stored teacher changes nothing. */
  lemma UpdateUnknownTeacher(s: AppState, u: Teacher)
    requires forall t :: t in s.teachers ==> t.id != u.id
    ensures UpdateTeacher(s, u) == s
  {
    var r := UpdateTeacher(s, u);
    assert r.teachers == s.teachers;
  }

  /** The timetable after a teacher is removed: slots taught by them become vacant. */
  function Unassign(tt: seq<TimetableEntry>, teacherId: string): (r: seq<TimetableEntry>)
    ensures |r| == |tt|
    ensures forall i :: 0 <= i < |tt| ==>
      r[i] == tt[i].(teacherId := if tt[i].teacherId == teacherId then "" else tt[i].teacherId)
  {
    Map(tt, (e: TimetableEntry) => if e.teacherId == teacherId then e.(teacherId := "") else e)
  }

  function DeleteTeacher(s: AppState, id: string, confirmed: bool): (r: AppState)
    ensures !confirmed ==> r == s
    ensures confirmed ==> r.(teachers := s.teachers, timetable := s.timetable) == s
    ensures confirmed ==> forall t :: t in r.teachers <==> t in s.teachers && t.id != id
    ensures confirmed ==> Subsequence(r.teachers, s.teachers)
    ensures confirmed ==> forall t {:trigger multiset(r.teachers)[t]} ::
      multiset(r.teachers)[t] == if t.id != id then multiset(s.teachers)[t] else 0
    ensures confirmed ==> r.timetable == Unassign(s.timetable, id)
  {
    if !confirmed then s
    else s.(teachers := Filter(s.teachers, OtherTeacher(id)),
            timetable := Unassign(s.timetable, id))
  }

  /** After a confirmed delete no slot refers to the deleted teacher, every
      slot keeps its id, key, subject and times, and no teacher with that id
      is left. */
  lemma DeleteTeacherCascade(s: AppState, id: string)
    requires id != ""
    ensures var r := DeleteTeacher(s, id, true);
      && (forall t :: t in r.teachers ==> t.id != id)
      && (forall e :: e in r.timetable ==> e.teacherId != id)
      && |r.timetable| == |s.timetable|
      && (forall i :: 0 <= i < |s.timetable| ==>
            var e, e' := s.timetable[i], r.timetable[i];
            e'.id == e.id && KeyOf(e') == KeyOf(e) && e'.subject == e.subject
            && e'.startTime == e.startTime && e'.endTime == e.endTime)
      && r.lessons == s.lessons && r.homework == s.homework
  {
    var r := DeleteTeacher(s, id, true);
    forall e | e in r.timetable ensures e.teacherId != id {
      var i :| 0 <= i < |r.timetable| && r.timetable[i] == e;
    }
  }

  /** The teacher after `toggleTeacherStatus`: the flag flips, leaving service
      records the given year and returning clears it. */
  function Toggled(t: Teacher, year: int): (r: Teacher)
    ensures r.isActive == !t.isActive
    ensures r.yearEnded == if t.isActive then Some(year) else None
    ensures StatusConsistent(r)
    ensures r.(isActive := t.isActive, yearEnded := t.yearEnded) == t
  {
    t.(isActive := !t.isActive, yearEnded := if !t.isActive then None else Some(year))
  }

  function ToggleTeacherStatus(s: AppState, id: string, year: int): (r: AppState)
    ensures r.(teachers := s.teachers) == s
    ensures |r.teachers| == |s.teachers|
    ensures forall i :: 0 <= i < |s.teachers| ==>
      r.teachers[i] == if s.teachers[i].id == id then Toggled(s.teachers[i], year) else s.teachers[i]
  {
    s.(teachers := Map(s.teachers, (t: Teacher) => if t.id == id then Toggled(t, year) else t))
  }

  /** Toggling twice restores every `isActive` flag. A teacher who was active
      is active again with no `yearEnded`, so a consistent active record comes
      back exactly; one who had left is inactive again with the second year. */
  lemma ToggleTwice(s: AppState, id: string, y1: int, y2: int)
    ensures var r := ToggleTeacherStatus(ToggleTeacherStatus(s, id, y1), id, y2);
      && |r.teachers| == |s.teachers|
      && (forall i :: 0 <= i < |s.teachers| ==> r.teachers[i].isActive == s.teachers[i].isActive)
      && (forall i :: 0 <= i < |s.teachers| && s.teachers[i].id == id ==>
            r.teachers[i].yearEnded == if s.teachers[i].isActive then None else Some(y2))
      && (forall i :: 0 <= i < |s.teachers| && s.teachers[i].isActive && StatusConsistent(s.teachers[i]) ==>
            r.teachers[i] == s.teachers[i])
      && r.(teachers := s.teachers) == s
  {
    var m := ToggleTeacherStatus(s, id, y1);
    var r := ToggleTeacherStatus(m, id, y2);
    forall i | 0 <= i < |s.teachers|
      ensures r.teachers[i].isActive == s.teachers[i].isActive
      ensures s.teachers[i].id == id ==>
        r.teachers[i].yearEnded == if s.teachers[i].isActive then None else Some(y2)
      ensures s.teachers[i].isActive && StatusConsistent(s.teachers[i]) ==> r.teachers[i] == s.teachers[i]
    {
      var t := s.teachers[i];
      if t.id == id {
        assert m.teachers[i] == Toggled(t, y1);
        assert m.teachers[i].id == id;
        assert r.teachers[i] == Toggled(Toggled(t, y1), y2);
      } else {
        assert m.teachers[i] == t;
      }
    }
  }

  // --------------------------------------------------------------- timetable

  /** `findIndex` by natural key: the first slot with key `k`, or -1. */
  function SlotIndex(tt: seq<TimetableEntry>, k: SlotKey): (i: int)
    ensures -1 <= i < |tt|
    ensures 0 <= i ==> KeyOf(tt[i]) == k && forall j :: 0 <= j < i ==> KeyOf(tt[j]) != k
    ensures i == -1 <==> forall j :: 0 <= j < |tt| ==> KeyOf(tt[j]) != k
  {
    FirstIndex(tt, (e: TimetableEntry) => KeyOf(e) == k)
  }

  /** The slot a key denotes: the first entry with that key (`find`). */
  function SlotAt(tt: seq<TimetableEntry>, k: SlotKey): (r: Option<TimetableEntry>)
    ensures r.None? <==> forall e :: e in tt ==> KeyOf(e) != k
    ensures r.Some? ==> r.value in tt && KeyOf(r.value) == k
  {
    var i := SlotIndex(tt, k);
    if i == -1 then None else Some(tt[i])
  }

  /** `updateTimetable`'s list: overwrite the first entry with the same key in
      place, or append when there is none. */
  function Upsert(tt: seq<TimetableEntry>, entry: TimetableEntry): (r: seq<TimetableEntry>)
    ensures entry in r
    ensures forall x :: x in r ==> x == entry || x in tt
    ensures |r| == if SlotAt(tt, KeyOf(entry)).None? then |tt| + 1 else |tt|
    ensures SlotAt(tt, KeyOf(entry)).Some? ==> forall x :: x in tt && KeyOf(x) != KeyOf(entry) ==> x in r
    ensures SlotAt(tt, KeyOf(entry)).None? ==> r[..|tt|] == tt && r[|tt|] == entry
    ensures SlotAt(tt, KeyOf(entry)).Some? ==>
      forall j :: 0 <= j < |tt| ==> r[j] == if j == SlotIndex(tt, KeyOf(entry)) then entry else tt[j]
  {
    var i := SlotIndex(tt, KeyOf(entry));
    if i != -1 then
      assert forall x :: x in tt && KeyOf(x) != KeyOf(entry) ==> x in tt[i := entry] by {
        forall x | x in tt && KeyOf(x) != KeyOf(entry) ensures x in tt[i := entry] {
          var j :| 0 <= j < |tt| && tt[j] == x;
          assert tt[i := entry][j] == x;
        }
      }
      assert tt[i := entry][i] == entry;
      tt[i := entry]
    else
      tt + [entry]
  }

  function UpdateTimetable(s: AppState, entry: TimetableEntry): (r: AppState)
    ensures r.(timetable := s.timetable) == s
    ensures r.timetable == Upsert(s.timetable, entry)
  {
    s.(timetable := Upsert(s.timetable, entry))
  }

  /** Seen through its natural key, the timetable behaves as a map and
      `updateTimetable` as a map update: the upserted key now denotes the new
      entry and every other key denotes what it did before. */
  lemma {:induction false} UpsertLookup(tt: seq<TimetableEntry>, entry: TimetableEntry, k: SlotKey)
    ensures SlotAt(Upsert(tt, entry), k) == if k == KeyOf(entry) then Some(entry) else SlotAt(tt, k)
  {
    var i := SlotIndex(tt, KeyOf(entry));
    if i != -1 {
      IndexAfterReplace(tt, i, entry, k);
    } else {
      IndexAfterAppend(tt, entry, k);
    }
  }

  lemma IndexAfterReplace(tt: seq<TimetableEntry>, i: int, entry: TimetableEntry, k: SlotKey)
    requires 0 <= i < |tt| && i == SlotIndex(tt, KeyOf(entry))
    ensures SlotIndex(tt[i := entry], k) == if k == KeyOf(entry) then i else SlotIndex(tt, k)
  {
    var r := tt[i := entry];
    var n := SlotIndex(r, k);
    if k == KeyOf(entry) {
      assert KeyOf(r[i]) == k;
      assert forall j :: 0 <= j < i ==> r[j] == tt[j];
    } else {
      var m := SlotIndex(tt, k);
      assert KeyOf(r[i]) != k && KeyOf(tt[i]) != k;
      assert forall j :: 0 <= j < |tt| && j != i ==> r[j] == tt[j];
      if m == -1 {
        assert n == -1;
      }
    }
  }

  lemma IndexAfterAppend(tt: seq<TimetableEntry>, entry: TimetableEntry, k: SlotKey)
    requires SlotIndex(tt, KeyOf(entry)) == -1
    ensures SlotIndex(tt + [entry], k) == if k == KeyOf(entry) then |tt| else SlotIndex(tt, k)
  {
    var r := tt + [entry];
    var n := SlotIndex(r, k);
    assert forall j :: 0 <= j < |tt| ==> r[j] == tt[j];
    assert r[|tt|] == entry;
    if k != KeyOf(entry) && SlotIndex(tt, k) == -1 {
      assert n == -1;
    }
  }

  /** Applying the same entry twice is the same as applying it once. */
  lemma UpsertIdempotent(tt: seq<TimetableEntry>, entry: TimetableEntry)
    ensures Upsert(Upsert(tt, entry), entry) == Upsert(tt, entry)
  {
    var r := Upsert(tt, entry);
    var i := SlotIndex(tt, KeyOf(entry));
    var n := SlotIndex(r, KeyOf(entry));
    if i != -1 {
      assert r == tt[i := entry];
      assert KeyOf(r[i]) == KeyOf(entry);
      assert forall j :: 0 <= j < i ==> r[j] == tt[j];
      assert n == i;
      assert r[n := entry] == r;
    } else {
      assert r == tt + [entry];
      assert KeyOf(r[|tt|]) == KeyOf(entry);
      assert n == |tt|;
      assert r[n := entry] == r;
    }
  }

  /** At most one slot per (day, class, period). */
  predicate UniqueKeys(tt: seq<TimetableEntry>) {
    forall i, j :: 0 <= i < j < |tt| ==> KeyOf(tt[i]) != KeyOf(tt[j])
  }

  /** Upsert keeps natural keys unique. */
  lemma UpsertKeepsKeysUnique(tt: seq<TimetableEntry>, entry: TimetableEntry)
    requires UniqueKeys(tt)
    ensures UniqueKeys(Upsert(tt, entry))
  {
    var r := Upsert(tt, entry);
    var i := SlotIndex(tt, KeyOf(entry));
    if i != -1 {
      assert r == tt[i := entry];
      forall a, b | 0 <= a < b < |r| ensures KeyOf(r[a]) != KeyOf(r[b]) {
        if a == i {
          assert KeyOf(r[a]) == KeyOf(tt[a]);
        } else if b == i {
          assert KeyOf(r[b]) == KeyOf(tt[b]);
        }
      }
    } else {
      assert r == tt + [entry];
    }
  }

  function RemoveSlot(tt: seq<TimetableEntry>, id: string): (r: seq<TimetableEntry>)
    ensures forall e :: e in r <==> e in tt && e.id != id
    ensures Subsequence(r, tt)
    ensures forall e {:trigger multiset(r)[e]} :: multiset(r)[e] == if e.id != id then multiset(tt)[e] else 0
  {
    Filter(tt, OtherSlot(id))
  }

  /** `clearTimetableEntry`: drop the slots with this id. */
  function ClearTimetableEntry(s: AppState, id: string): (r: AppState)
    ensures r.(timetable := s.timetable) == s
    ensures forall e :: e in r.timetable <==> e in s.timetable && e.id != id
    ensures |r.timetable| <= |s.timetable|
    ensures Subsequence(r.timetable, s.timetable)
    ensures forall e {:trigger multiset(r.timetable)[e]} ::
      multiset(r.timetable)[e] == if e.id != id then multiset(s.timetable)[e] else 0
  {
    s.(timetable := RemoveSlot(s.timetable, id))
  }

  lemma UniqueKeysCons(x: TimetableEntry, rest: seq<TimetableEntry>)
    requires UniqueKeys(rest)
    requires forall y :: y in rest ==> KeyOf(y) != KeyOf(x)
    ensures UniqueKeys([x] + rest)
  {
    var r := [x] + rest;
    forall a, b | 0 <= a < b < |r| ensures KeyOf(r[a]) != KeyOf(r[b]) {
      assert r[b] == rest[b - 1];
      if a > 0 {
        assert r[a] == rest[a - 1];
      }
    }
  }

  /** Removing slots keeps natural keys unique. */
  lemma {:induction false} RemoveSlotKeepsKeysUnique(tt: seq<TimetableEntry>, id: string)
    requires UniqueKeys(tt)
    ensures UniqueKeys(RemoveSlot(tt, id))
  {
    if tt != [] {
      var tail := tt[1..];
      assert UniqueKeys(tail) by {
        forall a, b | 0 <= a < b < |tail| ensures KeyOf(tail[a]) != KeyOf(tail[b]) {
          assert tail[a] == tt[a + 1] && tail[b] == tt[b + 1];
        }
      }
      RemoveSlotKeepsKeysUnique(tail, id);
      var rest := RemoveSlot(tail, id);
      if tt[0].id != id {
        assert forall y :: y in tail ==> KeyOf(y) != KeyOf(tt[0]) by {
          forall y | y in tail ensures KeyOf(y) != KeyOf(tt[0]) {
            var j :| 0 <= j < |tail| && tail[j] == y;
            assert tt[j + 1] == y;
          }
        }
        UniqueKeysCons(tt[0], rest);
        assert RemoveSlot(tt, id) == [tt[0]] + rest;
      } else {
        assert RemoveSlot(tt, id) == rest;
      }
    }
  }

  /** Clearing a slot that was just created with a fresh id undoes the upsert. */
  lemma ClearUndoesInsert(s: AppState, entry: TimetableEntry)
    requires SlotAt(s.timetable, KeyOf(entry)).None?
    requires forall e :: e in s.timetable ==> e.id != entry.id
    ensures ClearTimetableEntry(UpdateTimetable(s, entry), entry.id) == s
  {
    var tt := s.timetable;
    assert Upsert(tt, entry) == tt + [entry];
    FilterAppend(tt, [entry], OtherSlot(entry.id));
    FilterKeepsAll(tt, OtherSlot(entry.id));
    assert RemoveSlot(tt + [entry], entry.id) == tt;
  }

  // ----------------------------------------------------- lessons and homework

  function AddLesson(s: AppState, d: LessonDraft, freshId: string): (r: AppState)
    ensures r.(lessons := s.lessons) == s
    ensures |r.lessons| == |s.lessons| + 1 && r.lessons[..|s.lessons|] == s.lessons
    ensures r.lessons[|s.lessons|] == Lesson(freshId, d.classId, d.subject, d.teacherId,
                                             d.date, d.periodNumber, d.whiteboardImage, d.timeTaught)
  {
    s.(lessons := s.lessons + [Lesson(freshId, d.classId, d.subject, d.teacherId,
                                      d.date, d.periodNumber, d.whiteboardImage, d.timeTaught)])
  }

  function DeleteLesson(s: AppState, id: string): (r: AppState)
    ensures r.(lessons := s.lessons) == s
    ensures forall l :: l in r.lessons <==> l in s.lessons && l.id != id
    ensures |r.lessons| <= |s.lessons|
    ensures Subsequence(r.lessons, s.lessons)
    ensures forall l {:trigger multiset(r.lessons)[l]} ::
      multiset(r.lessons)[l] == if l.id != id then multiset(s.lessons)[l] else 0
  {
    s.(lessons := Filter(s.lessons, OtherLesson(id)))
  }

  /** Deleting a lesson just added under a fresh id restores the state. */
  lemma DeleteLessonUndoesAdd(s: AppState, d: LessonDraft, freshId: string)
    requires forall l :: l in s.lessons ==> l.id != freshId
    ensures DeleteLesson(AddLesson(s, d, freshId), freshId) == s
  {
    var added := AddLesson(s, d, freshId).lessons;
    assert added == s.lessons + [added[|s.lessons|]];
    FilterAppend(s.lessons, [added[|s.lessons|]], OtherLesson(freshId));
    FilterKeepsAll(s.lessons, OtherLesson(freshId));
  }

  function AddHomework(s: AppState, d: HomeworkDraft, freshId: string): (r: AppState)
    ensures r.(homework := s.homework) == s
    ensures |r.homework| == |s.homework| + 1 && r.homework[..|s.homework|] == s.homework
    ensures r.homework[|s.homework|] == Homework(freshId, d.classId, d.subject, d.date, d.description, d.image)
  {
    s.(homework := s.homework + [Homework(freshId, d.classId, d.subject, d.date, d.description, d.image)])
  }

  function DeleteHomework(s: AppState, id: string, confirmed: bool): (r: AppState)
    ensures !confirmed ==> r == s
    ensures r.(homework := s.homework) == s
    ensures confirmed ==> forall h :: h in r.homework <==> h in s.homework && h.id != id
    ensures |r.homework| <= |s.homework|
    ensures confirmed ==> Subsequence(r.homework, s.homework)
    ensures confirmed ==> forall h {:trigger multiset(r.homework)[h]} ::
      multiset(r.homework)[h] == if h.id != id then multiset(s.homework)[h] else 0
  {
    if !confirmed then s else s.(homework := Filter(s.homework, OtherHomework(id)))
  }

  /** Deleting homework just added under a fresh id restores the state. */
  lemma DeleteHomeworkUndoesAdd(s: AppState, d: HomeworkDraft, freshId: string)
    requires forall h :: h in s.homework ==> h.id != freshId
    ensures DeleteHomework(AddHomework(s, d, freshId), freshId, true) == s
  {
    var added := AddHomework(s, d, freshId).homework;
    assert added == s.homework + [added[|s.homework|]];
    FilterAppend(s.homework, [added[|s.homework|]], OtherHomework(freshId));
    FilterKeepsAll(s.homework, OtherHomework(freshId));
  }

  // -------------------------------------------------------------- invariants

  /** What the screens rely on: one slot per key, periods 1..5, and
      `yearEnded` set exactly for teachers who left. Nothing in the store
      checks it (a loaded or pulled document is taken as it is); the lemmas
      below show which actions keep it. */
  predicate WellFormed(s: AppState) {
    && UniqueKeys(s.timetable)
    && (forall e :: e in s.timetable ==> ValidPeriod(e.periodNumber))
    && (forall t :: t in s.teachers ==> StatusConsistent(t))
  }

  lemma AddTeacherKeepsWellFormed(s: AppState, d: TeacherDraft, freshId: string)
    requires WellFormed(s)
    ensures WellFormed(AddTeacher(s, d, freshId)) <==> d.yearEnded.None?
  {
    var r := AddTeacher(s, d, freshId);
    assert r.teachers[|s.teachers|] in r.teachers;
    if d.yearEnded.None? {
      forall t | t in r.teachers ensures StatusConsistent(t) {
        var i :| 0 <= i < |r.teachers| && r.teachers[i] == t;
        if i < |s.teachers| {
          assert r.teachers[..|s.teachers|][i] == t;
        }
      }
    }
  }

  lemma UpdateTeacherKeepsWellFormed(s: AppState, u: Teacher)
    requires WellFormed(s) && StatusConsistent(u)
    ensures WellFormed(UpdateTeacher(s, u))
  {
    var r := UpdateTeacher(s, u);
    forall t | t in r.teachers ensures StatusConsistent(t) {
      var i :| 0 <= i < |r.teachers| && r.teachers[i] == t;
      assert s.teachers[i] in s.teachers;
    }
  }

  lemma ToggleKeepsWellFormed(s: AppState, id: string, year: int)
    requires WellFormed(s)
    ensures WellFormed(ToggleTeacherStatus(s, id, year))
  {
    var r := ToggleTeacherStatus(s, id, year);
    forall t | t in r.teachers ensures StatusConsistent(t) {
      var i :| 0 <= i < |r.teachers| && r.teachers[i] == t;
      assert s.teachers[i] in s.teachers;
    }
  }

  lemma DeleteTeacherKeepsWellFormed(s: AppState, id: string, confirmed: bool)
    requires WellFormed(s)
    ensures WellFormed(DeleteTeacher(s, id, confirmed))
  {
    var r := DeleteTeacher(s, id, confirmed);
    if confirmed {
      forall a, b | 0 <= a < b < |r.timetable| ensures KeyOf(r.timetable[a]) != KeyOf(r.timetable[b]) {
        assert KeyOf(r.timetable[a]) == KeyOf(s.timetable[a]);
        assert KeyOf(r.timetable[b]) == KeyOf(s.timetable[b]);
      }
      forall e | e in r.timetable ensures ValidPeriod(e.periodNumber) {
        var i :| 0 <= i < |r.timetable| && r.timetable[i] == e;
        assert s.timetable[i] in s.timetable;
      }
    }
  }

  lemma UpdateTimetableKeepsWellFormed(s: AppState, entry: TimetableEntry)
    requires WellFormed(s) && ValidPeriod(entry.periodNumber)
    ensures WellFormed(UpdateTimetable(s, entry))
  {
    UpsertKeepsKeysUnique(s.timetable, entry);
  }

  lemma ClearKeepsWellFormed(s: AppState, id: string)
    requires WellFormed(s)
    ensures WellFormed(ClearTimetableEntry(s, id))
  {
    RemoveSlotKeepsKeysUnique(s.timetable, id);
  }
}
