/** Dashboard.tsx: the figures and lists the home screen derives from the
    state. Today's ISO date is an input. */
module Dashboard {
  import opened Wrappers
  import opened Lists
  import opened Types
  import Store
  import TimetableView

  /** The "Active Faculty" card. */
  function ActiveCount(s: AppState): (n: nat)
    ensures n <= |s.teachers|
    ensures n == 0 <==> forall t :: t in s.teachers ==> !t.isActive
    ensures n == |s.teachers| <==> forall t :: t in s.teachers ==> t.isActive
  {
    var active := TimetableView.ActiveTeachers(s.teachers);
    assert active != [] ==> active[0] in active;
    if forall t :: t in s.teachers ==> t.isActive then
      FilterKeepsAll(s.teachers, TimetableView.IsActive());
      |active|
    else
      var x :| x in s.teachers && !x.isActive;
      FilterDropsSome(s.teachers, TimetableView.IsActive(), x);
      |active|
  }

  /** The card counts one per active teacher: an appended teacher adds one
      exactly when active. With the empty store counting zero, this fixes the
      figure for every list of teachers. */
  lemma ActiveCountAppend(s: AppState, ts: seq<Teacher>, t: Teacher)
    ensures ActiveCount(s.(teachers := ts + [t])) == ActiveCount(s.(teachers := ts)) + (if t.isActive then 1 else 0)
    ensures ActiveCount(s.(teachers := [])) == 0
  {
    FilterAppend(ts, [t], TimetableView.IsActive());
    FilterSingleton(t, TimetableView.IsActive());
  }

  /** Registering a teacher adds one to the card: a new teacher is active. */
  lemma ActiveCountAfterAdd(s: AppState, d: TeacherDraft, freshId: string)
    ensures ActiveCount(Store.AddTeacher(s, d, freshId)) == ActiveCount(s) + 1
  {
    var r := Store.AddTeacher(s, d, freshId);
    var added := r.teachers[|s.teachers|];
    assert r.teachers == s.teachers + [added];
    ActiveCountAppend(s, s.teachers, added);
    assert s.(teachers := s.teachers + [added]) == r;
  }

  function LessonOn(today: string): Lesson -> bool { (l: Lesson) => l.date == today }
  function HomeworkOn(today: string): Homework -> bool { (h: Homework) => h.date == today }

  /** The "Lessons Captured" card: lessons dated today, whatever their class. */
  function LessonsToday(s: AppState, today: string): (n: nat)
    ensures n <= |s.lessons|
    ensures n == 0 <==> forall l :: l in s.lessons ==> l.date != today
  {
    var r := Filter(s.lessons, LessonOn(today));
    assert r != [] ==> r[0] in r;
    |r|
  }

  /** The "Homework Today" card. */
  function HomeworkToday(s: AppState, today: string): (n: nat)
    ensures n <= |s.homework|
    ensures n == 0 <==> forall h :: h in s.homework ==> h.date != today
  {
    var r := Filter(s.homework, HomeworkOn(today));
    assert r != [] ==> r[0] in r;
    |r|
  }

  /** Adding a lesson dated today adds one to the card; one dated another
      day leaves it. */
  lemma LessonsTodayAfterAdd(s: AppState, d: LessonDraft, freshId: string, today: string)
    ensures LessonsToday(Store.AddLesson(s, d, freshId), today) ==
      LessonsToday(s, today) + (if d.date == today then 1 else 0)
  {
    var r := Store.AddLesson(s, d, freshId);
    var added := r.lessons[|s.lessons|];
    assert r.lessons == s.lessons + [added];
    FilterAppend(s.lessons, [added], LessonOn(today));
    assert Filter([added], LessonOn(today)) == (if d.date == today then [added] else []) + Filter([], LessonOn(today));
  }

  /** The card counts one per record dated today: an appended record adds
      one exactly when dated today, and no homework counts zero. */
  lemma HomeworkTodayAppend(s: AppState, hs: seq<Homework>, h: Homework, today: string)
    ensures HomeworkToday(s.(homework := hs + [h]), today) ==
      HomeworkToday(s.(homework := hs), today) + (if h.date == today then 1 else 0)
    ensures HomeworkToday(s.(homework := []), today) == 0
  {
    FilterAppend(hs, [h], HomeworkOn(today));
    FilterSingleton(h, HomeworkOn(today));
  }

  /** Adding homework dated today adds one to the card; homework for another
      day leaves it. */
  lemma HomeworkTodayAfterAdd(s: AppState, d: HomeworkDraft, freshId: string, today: string)
    ensures HomeworkToday(Store.AddHomework(s, d, freshId), today) ==
      HomeworkToday(s, today) + (if d.date == today then 1 else 0)
  {
    var r := Store.AddHomework(s, d, freshId);
    var added := r.homework[|s.homework|];
    assert r.homework == s.homework + [added];
    HomeworkTodayAppend(s, s.homework, added, today);
    assert s.(homework := s.homework + [added]) == r;
  }

  /** "Faculty Engagement": the first five active teachers in store order. */
  function Engagement(s: AppState): (r: seq<Teacher>)
    ensures |r| <= 5 && |r| == if ActiveCount(s) < 5 then ActiveCount(s) else 5
    ensures forall t :: t in r ==> t in s.teachers && t.isActive
    ensures r == TimetableView.ActiveTeachers(s.teachers)[..|r|]
  {
    var active := TimetableView.ActiveTeachers(s.teachers);
    var r := Take(active, 5);
    assert forall t :: t in r ==> t in active;
    r
  }

  function TaughtBy(teacherId: string): Lesson -> bool { (l: Lesson) => l.teacherId == teacherId }

  /** The figure next to a teacher: lessons carrying their id. */
  function LessonCount(lessons: seq<Lesson>, teacherId: string): (n: nat)
    ensures n <= |lessons|
    ensures n == 0 <==> forall l :: l in lessons ==> l.teacherId != teacherId
  {
    var r := Filter(lessons, TaughtBy(teacherId));
    assert r != [] ==> r[0] in r;
    |r|
  }

  /** A captured lesson counts for the teacher of its slot only. */
  lemma LessonCountAfterAdd(s: AppState, d: LessonDraft, freshId: string, teacherId: string)
    ensures LessonCount(Store.AddLesson(s, d, freshId).lessons, teacherId) ==
      LessonCount(s.lessons, teacherId) + (if d.teacherId == teacherId then 1 else 0)
  {
    var r := Store.AddLesson(s, d, freshId);
    var added := r.lessons[|s.lessons|];
    assert r.lessons == s.lessons + [added];
    FilterAppend(s.lessons, [added], TaughtBy(teacherId));
    assert Filter([added], TaughtBy(teacherId)) == (if d.teacherId == teacherId then [added] else []) + Filter([], TaughtBy(teacherId));
  }

  /** "Latest Boards": `slice(-4).reverse()`, the last four lessons (all of
      them when fewer), newest first. */
  function LatestBoards(lessons: seq<Lesson>): (r: seq<Lesson>)
    ensures |r| == if |lessons| < 4 then |lessons| else 4
    ensures forall k :: 0 <= k < |r| ==> r[k] == lessons[|lessons| - 1 - k]
  {
    var start := if |lessons| >= 4 then |lessons| - 4 else 0;
    Reverse(lessons[start..])
  }

  /** A newly captured lesson heads the latest boards, followed by the
      previous first three. */
  lemma NewestBoardFirst(s: AppState, d: LessonDraft, freshId: string)
    ensures var r := Store.AddLesson(s, d, freshId);
      var latest := LatestBoards(r.lessons);
      && latest[0] == r.lessons[|s.lessons|]
      && latest[1..] == Take(LatestBoards(s.lessons), 3)
  {
    var lessons := Store.AddLesson(s, d, freshId).lessons;
    assert lessons == s.lessons + [lessons[|s.lessons|]];
    LatestBoardsAppend(s.lessons, lessons[|s.lessons|]);
  }

  lemma LatestBoardsAppend(lessons: seq<Lesson>, l: Lesson)
    ensures LatestBoards(lessons + [l])[0] == l
    ensures LatestBoards(lessons + [l])[1..] == Take(LatestBoards(lessons), 3)
  {
    var n := |lessons|;
    var all := lessons + [l];
    var latest := LatestBoards(all);
    var previous := LatestBoards(lessons);
    var before := Take(previous, 3);
    assert |latest| - 1 == |before|;
    forall k | 0 <= k < |before| ensures latest[1..][k] == before[k] {
      assert latest[k + 1] == all[n - (k + 1)];
      assert all[n - 1 - k] == lessons[n - 1 - k];
      assert before[k] == previous[k] == lessons[n - 1 - k];
    }
  }

  /** The "no faculty" note shows only when there are no teachers at all. */
  predicate NoFacultyNote(s: AppState)
    ensures NoFacultyNote(s) <==> s.teachers == []
  {
    |s.teachers| == 0
  }

  /** The note shows for a store without teachers, where the engagement
      list is empty too. When every teacher has resigned the active count is
      zero but the note stays hidden. */
  lemma NoFacultyNoteOnlyWhenEmpty(s: AppState)
    ensures NoFacultyNote(s) ==> ActiveCount(s) == 0 && Engagement(s) == []
    ensures s.teachers != [] && (forall t :: t in s.teachers ==> !t.isActive) ==>
      !NoFacultyNote(s) && ActiveCount(s) == 0
  {
  }

  /** The "Board Archive Empty" note, shown when there are no lessons. */
  predicate ArchiveEmptyNote(s: AppState)
    ensures ArchiveEmptyNote(s) <==> s.lessons == []
  {
    |s.lessons| == 0
  }

  lemma ArchiveNoteIffNoBoards(s: AppState)
    ensures ArchiveEmptyNote(s) <==> LatestBoards(s.lessons) == []
  {
  }
}
