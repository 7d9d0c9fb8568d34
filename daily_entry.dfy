/** DailyEntryView.tsx: for a chosen date and class, the day's periods with
    their scheduled slot and the whiteboard photo logged for each. Capturing a
    photo adds a lesson built from the slot; the photo's encoding, the clock
    reading and the date's weekday are inputs. */
module DailyEntry {
  import opened Wrappers
  import opened Lists
  import opened Types
  import Store
  import TimetableView

  /** `dayName` from `getDay()` (0 = Sunday .. 6 = Saturday), `None` when the
      date does not parse. Monday..Friday map to their `DAYS` value; the
      weekend and an invalid date fall back to Monday. */
  function DayName(weekday: Option<int>): (d: DayOfWeek)
    requires weekday.Some? ==> 0 <= weekday.value < 7
    ensures weekday.Some? && 1 <= weekday.value <= 5 ==> d == DAYS[weekday.value - 1]
    ensures weekday.None? || weekday.value == 0 || weekday.value == 6 ==> d == Monday
  {
    if weekday.None? then Monday
    else
      var index := (weekday.value + 6) % 7;
      if index < |DAYS| then DAYS[index] else Monday
  }

  /** Each school day is the name of exactly one weekday number. */
  lemma DayNameCoversSchoolWeek(d: DayOfWeek)
    ensures exists w :: 1 <= w <= 5 && DayName(Some(w)) == d
    ensures forall w, v :: 1 <= w <= 5 && 1 <= v <= 5 && DayName(Some(w)) == DayName(Some(v)) ==> w == v
  {
    match d
    case Monday => assert DayName(Some(1)) == d;
    case Tuesday => assert DayName(Some(2)) == d;
    case Wednesday => assert DayName(Some(3)) == d;
    case Thursday => assert DayName(Some(4)) == d;
    case Friday => assert DayName(Some(5)) == d;
  }

  function OnDay(day: DayOfWeek, classId: SchoolClass): TimetableEntry -> bool {
    (e: TimetableEntry) => e.day == day && e.classId == classId
  }

  function AtPeriod(period: int): TimetableEntry -> bool {
    (e: TimetableEntry) => e.periodNumber == period
  }

  /** `getTimetableForDay`: the slots of that day and class, in store order. */
  function TimetableForDay(tt: seq<TimetableEntry>, day: DayOfWeek, classId: SchoolClass): (r: seq<TimetableEntry>)
    ensures forall e :: e in r <==> e in tt && e.day == day && e.classId == classId
    ensures Subsequence(r, tt)
    ensures forall e {:trigger multiset(r)[e]} ::
      multiset(r)[e] == if e.day == day && e.classId == classId then multiset(tt)[e] else 0
  {
    Filter(tt, OnDay(day, classId))
  }

  /** The slot shown for a period: the first of the day's slots with that
      period. It is the slot the timetable grid shows for the same day, class
      and period. */
  function Schedule(tt: seq<TimetableEntry>, day: DayOfWeek, classId: SchoolClass, period: int): (r: Option<TimetableEntry>)
    ensures r == TimetableView.GetEntry(tt, day, classId, period)
  {
    FindAfterFilter(tt, OnDay(day, classId), AtPeriod(period), TimetableView.SlotMatch(day, classId, period));
    Find(TimetableForDay(tt, day, classId), AtPeriod(period))
  }

  function LessonMatch(date: string, classId: SchoolClass, period: int): Lesson -> bool {
    (l: Lesson) => l.date == date && l.classId == classId && l.periodNumber == period
  }

  /** `getLoggedLesson`: the first lesson logged for that date, class and period. */
  function LoggedLesson(lessons: seq<Lesson>, date: string, classId: SchoolClass, period: int): (r: Option<Lesson>)
    ensures r.None? <==> forall l :: l in lessons ==> !(l.date == date && l.classId == classId && l.periodNumber == period)
    ensures r.Some? ==> r.value.date == date && r.value.classId == classId && r.value.periodNumber == period
    ensures r.Some? ==> exists i :: (0 <= i < |lessons| && lessons[i] == r.value &&
      forall j :: 0 <= j < i ==> !(lessons[j].date == date && lessons[j].classId == classId && lessons[j].periodNumber == period))
  {
    Find(lessons, LessonMatch(date, classId, period))
  }

  /** The lesson `handleImageUpload` hands to `addLesson`, or `None` when no
      file was chosen or the period has no slot (the handler alerts instead).
      Subject and teacher come from the slot; class, date and period from the
      selection. */
  function CaptureBoard(tt: seq<TimetableEntry>, day: DayOfWeek, date: string, classId: SchoolClass,
                        period: int, image: Option<string>, timeTaught: string): (r: Option<LessonDraft>)
    ensures r.Some? <==> image.Some? && TimetableView.GetEntry(tt, day, classId, period).Some?
    ensures r.Some? ==> var slot := TimetableView.GetEntry(tt, day, classId, period).value;
      r.value == LessonDraft(classId, slot.subject, slot.teacherId, date, period, image.value, timeTaught)
  {
    if image.None? then None
    else
      var slot := Schedule(tt, day, classId, period);
      if slot.None? then None
      else Some(LessonDraft(classId, slot.value.subject, slot.value.teacherId, date, period, image.value, timeTaught))
  }

  /** The whole capture: build the lesson and add it under `freshId`. */
  function Capture(s: AppState, day: DayOfWeek, date: string, classId: SchoolClass, period: int,
                   image: Option<string>, timeTaught: string, freshId: string): (r: AppState)
    ensures r.(lessons := s.lessons) == s
    ensures image.None? || TimetableView.GetEntry(s.timetable, day, classId, period).None? ==> r == s
    ensures image.Some? && TimetableView.GetEntry(s.timetable, day, classId, period).Some? ==>
      var slot := TimetableView.GetEntry(s.timetable, day, classId, period).value;
      r.lessons == s.lessons + [Lesson(freshId, classId, slot.subject, slot.teacherId, date, period, image.value, timeTaught)]
  {
    var draft := CaptureBoard(s.timetable, day, date, classId, period, image, timeTaught);
    if draft.None? then s else Store.AddLesson(s, draft.value, freshId)
  }

  /** Capturing a period that has nothing logged yet makes the new lesson the
      one shown for it. */
  lemma CaptureThenLogged(s: AppState, day: DayOfWeek, date: string, classId: SchoolClass, period: int,
                          image: string, timeTaught: string, freshId: string)
    requires TimetableView.GetEntry(s.timetable, day, classId, period).Some?
    requires LoggedLesson(s.lessons, date, classId, period).None?
    ensures var slot := TimetableView.GetEntry(s.timetable, day, classId, period).value;
      var r := Capture(s, day, date, classId, period, Some(image), timeTaught, freshId);
      LoggedLesson(r.lessons, date, classId, period) ==
        Some(Lesson(freshId, classId, slot.subject, slot.teacherId, date, period, image, timeTaught))
  {
    var r := Capture(s, day, date, classId, period, Some(image), timeTaught, freshId);
    var added := r.lessons[|s.lessons|];
    assert r.lessons == s.lessons + [added];
    FindAppend(s.lessons, [added], LessonMatch(date, classId, period));
  }

  /** Capturing again an already logged period appends another lesson, but
      the period keeps showing the first one. */
  lemma RecaptureKeepsFirst(s: AppState, day: DayOfWeek, date: string, classId: SchoolClass, period: int,
                            image: string, timeTaught: string, freshId: string)
    requires TimetableView.GetEntry(s.timetable, day, classId, period).Some?
    requires LoggedLesson(s.lessons, date, classId, period).Some?
    ensures var r := Capture(s, day, date, classId, period, Some(image), timeTaught, freshId);
      && |r.lessons| == |s.lessons| + 1
      && LoggedLesson(r.lessons, date, classId, period) == LoggedLesson(s.lessons, date, classId, period)
  {
    var r := Capture(s, day, date, classId, period, Some(image), timeTaught, freshId);
    var added := r.lessons[|s.lessons|];
    assert r.lessons == s.lessons + [added];
    FindAppend(s.lessons, [added], LessonMatch(date, classId, period));
  }

  /** The delete button of a logged photo: only with the user's confirmation,
      and then the shown lesson leaves the store. */
  function RemoveBoard(s: AppState, date: string, classId: SchoolClass, period: int, confirmed: bool): (r: AppState)
    ensures !confirmed || LoggedLesson(s.lessons, date, classId, period).None? ==> r == s
    ensures r.(lessons := s.lessons) == s
    ensures var logged := LoggedLesson(s.lessons, date, classId, period);
      confirmed && logged.Some? ==> logged.value !in r.lessons && |r.lessons| < |s.lessons|
    ensures var logged := LoggedLesson(s.lessons, date, classId, period);
      confirmed && logged.Some? ==> r == Store.DeleteLesson(s, logged.value.id)
  {
    var logged := LoggedLesson(s.lessons, date, classId, period);
    if confirmed && logged.Some? then
      var r := Store.DeleteLesson(s, logged.value.id);
      FilterDropsSome(s.lessons, Store.OtherLesson(logged.value.id), logged.value);
      r
    else s
  }
}
