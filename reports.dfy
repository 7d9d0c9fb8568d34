/** ReportsView.tsx: the archive filters and the sync panel, whose status
    (`idle`, `syncing`, `success`, `error`) and error message the two
    handlers set step by step while writing results into the app state. */
module Reports {
  import opened Wrappers
  import opened Lists
  import opened Types
  import Store
  import opened Sync
  import opened AppComponent

  /** The archive's class selector: 'All' or one class. */
  datatype ClassFilter = AllClasses | OnlyClass(classId: SchoolClass)

  predicate ClassMatches(f: ClassFilter, c: SchoolClass) {
    f.AllClasses? || f.classId == c
  }

  /** `filteredLessons`: the lessons of the selected date and class, in store order. */
  function ArchivedLessons(lessons: seq<Lesson>, date: string, f: ClassFilter): (r: seq<Lesson>)
    ensures forall l :: l in r <==> l in lessons && l.date == date && ClassMatches(f, l.classId)
    ensures |r| <= |lessons|
    ensures Subsequence(r, lessons)
    ensures forall l {:trigger multiset(r)[l]} ::
      multiset(r)[l] == if l.date == date && ClassMatches(f, l.classId) then multiset(lessons)[l] else 0
  {
    Filter(lessons, (l: Lesson) => l.date == date && ClassMatches(f, l.classId))
  }

  function HomeworkMatches(date: string, f: ClassFilter): Homework -> bool {
    (h: Homework) => h.date == date && ClassMatches(f, h.classId)
  }

  /** `homeworkCount`: the homework records under the same filter. */
  function HomeworkCount(homework: seq<Homework>, date: string, f: ClassFilter): (n: nat)
    ensures n <= |homework|
    ensures n == 0 <==> forall h :: h in homework ==> !(h.date == date && ClassMatches(f, h.classId))
  {
    var matching := Filter(homework, HomeworkMatches(date, f));
    assert matching != [] ==> matching[0] in matching;
    |matching|
  }

  /** The count goes up by one per matching record: appending a record adds
      one exactly when it has the date and a matching class, and no homework
      counts zero. */
  lemma HomeworkCountAppend(homework: seq<Homework>, h: Homework, date: string, f: ClassFilter)
    ensures HomeworkCount(homework + [h], date, f) ==
      HomeworkCount(homework, date, f) + (if h.date == date && ClassMatches(f, h.classId) then 1 else 0)
    ensures HomeworkCount([], date, f) == 0
  {
    FilterAppend(homework, [h], HomeworkMatches(date, f));
    FilterSingleton(h, HomeworkMatches(date, f));
  }

  /** Narrowing the selector from 'All' to one class never raises the count. */
  lemma {:induction false} OneClassCountsNoMore(homework: seq<Homework>, date: string, c: SchoolClass)
    ensures HomeworkCount(homework, date, OnlyClass(c)) <= HomeworkCount(homework, date, AllClasses)
  {
    if homework != [] {
      var init := homework[..|homework| - 1];
      var last := homework[|homework| - 1];
      assert homework == init + [last];
      OneClassCountsNoMore(init, date, c);
      HomeworkCountAppend(init, last, date, OnlyClass(c));
      HomeworkCountAppend(init, last, date, AllClasses);
    }
  }

  datatype SyncStatus = Idle | Syncing | Success | Error

  /** The panel status after a handler has run. */
  function StatusAfter(r: SyncResult, before: SyncStatus): (st: SyncStatus)
    ensures r.NotStarted? ==> st == before
    ensures !r.NotStarted? ==> st != Idle
    ensures st == Error <==> r.Failed? || (r.NotStarted? && before == Error)
    ensures st == Success <==> r.Succeeded? || (r.NotStarted? && before == Success)
    ensures st == Syncing <==> r.Stalled? || (r.NotStarted? && before == Syncing)
  {
    match r
    case NotStarted => before
    case Failed(_) => Error
    case Succeeded(_) => Success
    case Stalled => Syncing
  }

  /** The error text shown under the buttons: set by a failure, and left in
      place by everything else, a later success included. */
  function MessageAfter(r: SyncResult, before: string): (m: string)
    ensures r.Failed? ==> m == r.message
    ensures !r.Failed? ==> m == before
  {
    if r.Failed? then r.message else before
  }

  /** A handler that does not start leaves the panel alone; one that fails
      shows the error; a pull that gets the backup file succeeds, and one
      that gets a gist without it stays `syncing`, which then disables both
      buttons. */
  lemma StatusTransitions(s: AppState, push: PushResponse, confirmed: bool, pull: PullResponse, before: SyncStatus)
    ensures !IsSet(s.githubToken) ==>
      StatusAfter(PushResult(s, push), before) == before && StatusAfter(PullResult(s, confirmed, pull), before) == before
    ensures IsSet(s.githubToken) ==>
      StatusAfter(PushResult(s, push), before) == if push.PushAccepted? then Success else Error
    ensures !IsSet(s.githubGistId) || !confirmed ==> StatusAfter(PullResult(s, confirmed, pull), before) == before
    ensures IsSet(s.githubToken) && IsSet(s.githubGistId) && confirmed ==>
      StatusAfter(PullResult(s, confirmed, pull), before) ==
        if !pull.PullOk? then Error else if BACKUP_FILE in pull.files then Success else Syncing
  {
  }

  /** Nothing clears the error text: after a failed sync, a successful push
      shows the success status with the old "Sync Failed" text still under
      the buttons. */
  lemma ErrorTextOutlivesSuccess(s: AppState, message: string, gistId: string)
    requires IsSet(s.githubToken) && message != ""
    ensures var failed := PushResult(s, PushThrew(message));
      var next := StateAfter(s, failed);
      var ok := PushResult(next, PushAccepted(gistId));
      && StatusAfter(ok, StatusAfter(failed, Idle)) == Success
      && MessageAfter(ok, MessageAfter(failed, "")) == message
  {
  }

  class SyncPanel {
    var status: SyncStatus
    var errorMessage: string
    /** Timers started by successful pushes that have not fired yet. */
    var pendingResets: nat

    constructor ()
      ensures status == Idle && errorMessage == "" && pendingResets == 0
    {
      status := Idle;
      errorMessage := "";
      pendingResets := 0;
    }

    /** The push button is disabled while syncing. */
    predicate PushEnabled()
      reads this
      ensures PushEnabled() <==> status in {Idle, Success, Error}
    {
      status != Syncing
    }

    /** The pull button is disabled while syncing and when there is no gist id. */
    predicate PullEnabled(s: AppState)
      reads this
      ensures PullEnabled(s) <==> PushEnabled() && IsSet(s.githubGistId)
    {
      status != Syncing && IsSet(s.githubGistId)
    }

    /** `handleGithubSync`, run to completion with `response` as the server's
        answer; `sent` is the request it makes, if any. */
    method HandleGithubSync(app: App, response: PushResponse) returns (sent: Option<GistRequest>)
      requires PushEnabled()
      modifies this, app
      ensures sent == PushRequest(old(app.state))
      ensures app.state == StateAfter(old(app.state), PushResult(old(app.state), response))
      ensures status == StatusAfter(PushResult(old(app.state), response), old(status))
      ensures errorMessage == MessageAfter(PushResult(old(app.state), response), old(errorMessage))
      ensures pendingResets == old(pendingResets) + if PushResult(old(app.state), response).Succeeded? then 1 else 0
    {
      var state := app.state;
      if !IsSet(state.githubToken) {
        sent := None;
        return;
      }
      status := Syncing;
      var url := GISTS_URL;
      var verb := Post;
      if IsSet(state.githubGistId) {
        url := GISTS_URL + "/" + state.githubGistId.value;
        verb := Patch;
      }
      sent := Some(GistRequest(verb, url, state.githubToken.value, BACKUP_DESCRIPTION, false,
                               map[BACKUP_FILE := ToBackup(state)]));
      match response
      case PushThrew(m) =>
        status := Error;
        errorMessage := m;
      case PushRejected(m, statusText) =>
        status := Error;
        errorMessage := if m != "" then m else statusText;
      case PushAccepted(id) =>
        if !IsSet(state.githubGistId) {
          app.UpdateState(Store.NoUpdates.(githubGistId := Some(Some(id))));
        }
        status := Success;
        pendingResets := pendingResets + 1;
    }

    /** The three-second timer of a successful push: back to `idle`, whatever
        the status is by then. */
    method ResetTimerFires()
      requires pendingResets > 0
      modifies this
      ensures status == Idle && pendingResets == old(pendingResets) - 1
      ensures errorMessage == old(errorMessage)
    {
      status := Idle;
      pendingResets := pendingResets - 1;
    }

    /** `handlePullFromCloud` with the user's answer to the overwrite warning
        and the server's `response`. */
    method HandlePullFromCloud(app: App, confirmed: bool, response: PullResponse)
      requires PullEnabled(app.state)
      modifies this, app
      ensures app.state == StateAfter(old(app.state), PullResult(old(app.state), confirmed, response))
      ensures status == StatusAfter(PullResult(old(app.state), confirmed, response), old(status))
      ensures errorMessage == MessageAfter(PullResult(old(app.state), confirmed, response), old(errorMessage))
      ensures pendingResets == old(pendingResets)
    {
      var state := app.state;
      if !IsSet(state.githubToken) || !IsSet(state.githubGistId) {
        return;
      }
      if !confirmed {
        return;
      }
      status := Syncing;
      match response
      case PullThrew(m) =>
        status := Error;
        errorMessage := m;
      case PullNotOk =>
        status := Error;
        errorMessage := NOT_FOUND_MESSAGE;
      case PullOk(files) =>
        if BACKUP_FILE in files {
          app.UpdateState(CloudUpdates(files[BACKUP_FILE], state.githubToken, state.githubGistId));
          status := Success;
        }
    }
  }
}
