/** The data model of the Focus Academy record store (types.ts), and the
    fixed value lists the views iterate over (`DAYS`, `PERIODS`, `CLASSES`). */
module Types {
  import opened Wrappers

  datatype Gender = Male | Female | Other

  datatype SchoolClass = KG1 | KG2 | Grade1 | Grade2 | Grade3 | Grade4

  /** School days only: there is no weekend value. */
  datatype DayOfWeek = Monday | Tuesday | Wednesday | Thursday | Friday

  /** A member of staff. `yearEnded` is meant to be absent while the teacher
      is still working (see `StatusConsistent`). */
  datatype Teacher = Teacher(
    id: string,
    fullName: string,
    gender: Gender,
    phoneNumber: string,
    email: Option<string>,
    specialization: Option<string>,
    yearStarted: int,
    yearEnded: Option<int>,
    isActive: bool)

  /** One slot of the weekly schedule; its natural key is (day, classId,
      periodNumber). `teacherId == ""` means the slot is vacant. */
  datatype TimetableEntry = TimetableEntry(
    id: string,
    classId: SchoolClass,
    day: DayOfWeek,
    periodNumber: int,
    subject: string,
    teacherId: string,
    startTime: string,
    endTime: string)

  /** A captured whiteboard for one period taught on one date. */
  datatype Lesson = Lesson(
    id: string,
    classId: SchoolClass,
    subject: string,
    teacherId: string,
    date: string,
    periodNumber: int,
    whiteboardImage: string,
    timeTaught: string)

  datatype Homework = Homework(
    id: string,
    classId: SchoolClass,
    subject: string,
    date: string,
    description: string,
    image: Option<string>)

  /** The whole application state: the session, the four collections and the
      optional Gist credentials. */
  datatype AppState = AppState(
    currentUser: Option<string>,
    teachers: seq<Teacher>,
    timetable: seq<TimetableEntry>,
    lessons: seq<Lesson>,
    homework: seq<Homework>,
    githubToken: Option<string>,
    githubGistId: Option<string>)

  /** `Omit<Teacher, 'id' | 'isActive'>`, what `addTeacher` receives. */
  datatype TeacherDraft = TeacherDraft(
    fullName: string,
    gender: Gender,
    phoneNumber: string,
    email: Option<string>,
    specialization: Option<string>,
    yearStarted: int,
    yearEnded: Option<int>)

  /** `Omit<Lesson, 'id'>`, what `addLesson` receives. */
  datatype LessonDraft = LessonDraft(
    classId: SchoolClass,
    subject: string,
    teacherId: string,
    date: string,
    periodNumber: int,
    whiteboardImage: string,
    timeTaught: string)

  /** `Omit<Homework, 'id'>`, what `addHomework` receives. */
  datatype HomeworkDraft = HomeworkDraft(
    classId: SchoolClass,
    subject: string,
    date: string,
    description: string,
    image: Option<string>)

  /** The natural key of a timetable slot. */
  datatype SlotKey = SlotKey(day: DayOfWeek, classId: SchoolClass, periodNumber: int)

  function KeyOf(e: TimetableEntry): SlotKey {
    SlotKey(e.day, e.classId, e.periodNumber)
  }

  /** The enumerations' string values, as persisted and shown. */
  function GenderLabel(g: Gender): string {
    match g
    case Male => "Male"
    case Female => "Female"
    case Other => "Other"
  }

  function ClassLabel(c: SchoolClass): string {
    match c
    case KG1 => "KG1"
    case KG2 => "KG2"
    case Grade1 => "Grade 1"
    case Grade2 => "Grade 2"
    case Grade3 => "Grade 3"
    case Grade4 => "Grade 4"
  }

  function DayLabel(d: DayOfWeek): string {
    match d
    case Monday => "Monday"
    case Tuesday => "Tuesday"
    case Wednesday => "Wednesday"
    case Thursday => "Thursday"
    case Friday => "Friday"
  }

  const GENDERS: seq<Gender> := [Male, Female, Other]
  const CLASSES: seq<SchoolClass> := [KG1, KG2, Grade1, Grade2, Grade3, Grade4]
  const DAYS: seq<DayOfWeek> := [Monday, Tuesday, Wednesday, Thursday, Friday]
  const PERIODS: seq<int> := [1, 2, 3, 4, 5]

  /** Each enumeration is listed completely, once each, and its string values
      tell its members apart; no class is called "All", the value the archive
      uses for "every class". */
  lemma EnumerationsComplete()
    ensures |GENDERS| == 3 && forall g: Gender :: g in GENDERS
    ensures |CLASSES| == 6 && forall c: SchoolClass :: c in CLASSES
    ensures |DAYS| == 5 && forall d: DayOfWeek :: d in DAYS
    ensures forall g, h :: GenderLabel(g) == GenderLabel(h) ==> g == h
    ensures forall c, d :: ClassLabel(c) == ClassLabel(d) ==> c == d
    ensures forall c :: ClassLabel(c) != "All"
    ensures forall d, e :: DayLabel(d) == DayLabel(e) ==> d == e
  {
    forall g: Gender ensures g in GENDERS {
      match g
      case Male => assert GENDERS[0] == g;
      case Female => assert GENDERS[1] == g;
      case Other => assert GENDERS[2] == g;
    }
    forall c: SchoolClass ensures c in CLASSES {
      match c
      case KG1 => assert CLASSES[0] == c;
      case KG2 => assert CLASSES[1] == c;
      case Grade1 => assert CLASSES[2] == c;
      case Grade2 => assert CLASSES[3] == c;
      case Grade3 => assert CLASSES[4] == c;
      case Grade4 => assert CLASSES[5] == c;
    }
    forall d: DayOfWeek ensures d in DAYS {
      match d
      case Monday => assert DAYS[0] == d;
      case Tuesday => assert DAYS[1] == d;
      case Wednesday => assert DAYS[2] == d;
      case Thursday => assert DAYS[3] == d;
      case Friday => assert DAYS[4] == d;
    }
  }

  /** A period number the schedule can hold. */
  predicate ValidPeriod(p: int) {
    p in PERIODS
  }

  lemma PeriodsAreOneToFive(p: int)
    ensures ValidPeriod(p) <==> 1 <= p <= 5
  {
  }

  /** `yearEnded` is set exactly when the teacher no longer works. */
  predicate StatusConsistent(t: Teacher) {
    t.isActive <==> t.yearEnded.None?
  }
}
