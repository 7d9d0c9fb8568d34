/** The decisions behind the Gist backup of ReportsView.tsx: what is pushed,
    where, what comes back into the state, and how a push followed by a pull
    on another device converges. HTTP is abstracted to the request that would
    be sent and a response given as input; the Gist service itself is a map
    from gist id to its files. */
module Sync {
  import opened Wrappers
  import opened Types
  import Store

  const GISTS_URL: string := "https://api.github.com/gists"
  const BACKUP_FILE: string := "focus_academy_data.json"
  const BACKUP_DESCRIPTION: string := "Focus Academy - School Management Backup"
  const NOT_FOUND_MESSAGE: string := "Could not find Gist. Check your ID."

  /** The backed-up document: the state without `githubToken` and `githubGistId`. */
  datatype Backup = Backup(
    currentUser: Option<string>,
    teachers: seq<Teacher>,
    timetable: seq<TimetableEntry>,
    lessons: seq<Lesson>,
    homework: seq<Homework>)

  /** `const { githubToken, githubGistId, ...dataToBackup } = state`. */
  function ToBackup(s: AppState): (b: Backup)
    ensures b.currentUser == s.currentUser && b.teachers == s.teachers && b.timetable == s.timetable
    ensures b.lessons == s.lessons && b.homework == s.homework
  {
    Backup(s.currentUser, s.teachers, s.timetable, s.lessons, s.homework)
  }

  /** The credentials never reach the backup: two states that differ only in
      them produce the same document, and states that agree elsewhere are
      told apart by it. */
  lemma BackupExcludesCredentials(s: AppState, t: AppState)
    ensures ToBackup(s) == ToBackup(t) <==>
      s.(githubToken := t.githubToken, githubGistId := t.githubGistId) == t
  {
  }

  datatype HttpMethod = Post | Patch | Get

  /** The request a push sends: method, url, token and gist payload. */
  datatype GistRequest = GistRequest(
    verb: HttpMethod,
    url: string,
    token: string,
    description: string,
    isPublic: bool,
    files: map<string, Backup>)

  /** The push request, or `None` when there is no token (the handler alerts
      and returns). With a known gist id it overwrites that gist, otherwise it
      creates a new private one. */
  function PushRequest(s: AppState): (r: Option<GistRequest>)
    ensures r.None? <==> !IsSet(s.githubToken)
    ensures r.Some? ==> r.value.token == s.githubToken.value && !r.value.isPublic
    ensures r.Some? ==> r.value.files == map[BACKUP_FILE := ToBackup(s)]
    ensures r.Some? && IsSet(s.githubGistId) ==>
      r.value.verb == Patch && r.value.url == GISTS_URL + "/" + s.githubGistId.value
    ensures r.Some? && !IsSet(s.githubGistId) ==> r.value.verb == Post && r.value.url == GISTS_URL
  {
    if !IsSet(s.githubToken) then None
    else
      var target := if IsSet(s.githubGistId) then (Patch, GISTS_URL + "/" + s.githubGistId.value)
                    else (Post, GISTS_URL);
      Some(GistRequest(target.0, target.1, s.githubToken.value, BACKUP_DESCRIPTION, false,
                       map[BACKUP_FILE := ToBackup(s)]))
  }

  /** How a push request ends: `fetch` throws, the server answers with a
      non-ok status (and maybe a message), or it accepts and returns the gist. */
  datatype PushResponse =
    | PushThrew(message: string)
    | PushRejected(message: string, statusText: string)
    | PushAccepted(gistId: string)

  /** How a pull request ends; `files` are the gist's files by name. */
  datatype PullResponse =
    | PullThrew(message: string)
    | PullNotOk
    | PullOk(files: map<string, Backup>)

  /** What a push or pull handler did, seen from the state and the panel:
      returned before starting, failed with a message, replaced the state, or
      got an answer without the backup file and stopped. */
  datatype SyncResult =
    | NotStarted
    | Failed(message: string)
    | Succeeded(next: AppState)
    | Stalled

  /** `handleGithubSync`. Only the first push (no gist id yet) writes the
      returned id back into the state. */
  function PushResult(s: AppState, response: PushResponse): (r: SyncResult)
    ensures r.NotStarted? <==> !IsSet(s.githubToken)
    ensures r.Stalled? ==> false
    ensures r.Succeeded? <==> IsSet(s.githubToken) && response.PushAccepted?
    ensures r.Succeeded? ==> r.next.(githubGistId := s.githubGistId) == s
    ensures r.Succeeded? && IsSet(s.githubGistId) ==> r.next == s
    ensures r.Succeeded? && !IsSet(s.githubGistId) ==> r.next.githubGistId == Some(response.gistId)
    ensures r.Failed? && response.PushRejected? ==>
      r.message == if response.message != "" then response.message else response.statusText
    ensures r.Failed? && response.PushThrew? ==> r.message == response.message
  {
    if !IsSet(s.githubToken) then NotStarted
    else match response
      case PushThrew(m) => Failed(m)
      case PushRejected(m, statusText) => Failed(if m != "" then m else statusText)
      case PushAccepted(id) =>
        if IsSet(s.githubGistId) then Succeeded(s)
        else Succeeded(Store.UpdateState(s, Store.NoUpdates.(githubGistId := Some(Some(id)))))
  }

  /** `onUpdateState({ ...cloudData, githubToken, githubGistId })`: every
      backed-up field from the cloud, the credentials from this device. */
  function CloudUpdates(b: Backup, token: Option<string>, gistId: Option<string>): (u: Store.Updates)
    ensures forall s :: ToBackup(Store.UpdateState(s, u)) == b
    ensures forall s :: Store.UpdateState(s, u).githubToken == token && Store.UpdateState(s, u).githubGistId == gistId
  {
    Store.Updates(Some(b.currentUser), Some(b.teachers), Some(b.timetable), Some(b.lessons),
                  Some(b.homework), Some(token), Some(gistId))
  }

  function Restore(s: AppState, b: Backup): (r: AppState)
    ensures r.githubToken == s.githubToken && r.githubGistId == s.githubGistId
  {
    Store.UpdateState(s, CloudUpdates(b, s.githubToken, s.githubGistId))
  }

  /** `handlePullFromCloud`: it needs a token, a gist id and the user's
      confirmation before anything happens. */
  function PullResult(s: AppState, confirmed: bool, response: PullResponse): (r: SyncResult)
    ensures r.NotStarted? <==> !IsSet(s.githubToken) || !IsSet(s.githubGistId) || !confirmed
    ensures r.Succeeded? ==> response.PullOk? && BACKUP_FILE in response.files
    ensures r.Succeeded? ==> r.next == Restore(s, response.files[BACKUP_FILE])
    ensures !r.NotStarted? && response.PullOk? && BACKUP_FILE in response.files ==>
      r == Succeeded(Restore(s, response.files[BACKUP_FILE]))
    ensures r.Stalled? <==> !r.NotStarted? && response.PullOk? && BACKUP_FILE !in response.files
    ensures r.Failed? <==> !r.NotStarted? && !response.PullOk?
    ensures r.Failed? && response.PullNotOk? ==> r.message == NOT_FOUND_MESSAGE
    ensures r.Failed? && response.PullThrew? ==> r.message == response.message
  {
    if !IsSet(s.githubToken) || !IsSet(s.githubGistId) || !confirmed then NotStarted
    else match response
      case PullThrew(m) => Failed(m)
      case PullNotOk => Failed(NOT_FOUND_MESSAGE)
      case PullOk(files) =>
        if BACKUP_FILE in files then Succeeded(Restore(s, files[BACKUP_FILE])) else Stalled
  }

  /** The local state after a handler: only a success changes it. */
  function StateAfter(s: AppState, r: SyncResult): (next: AppState)
    ensures r.Succeeded? ==> next == r.next
    ensures !r.Succeeded? ==> next == s
  {
    if r.Succeeded? then r.next else s
  }

  /** Restoring a backup of `t` on a device in state `s` yields `t` with the
      device's own credentials. */
  lemma RestoreBackup(s: AppState, t: AppState)
    ensures Restore(s, ToBackup(t)) == t.(githubToken := s.githubToken, githubGistId := s.githubGistId)
  {
  }

  /** Restoring then backing up gives back the restored document. */
  lemma BackupOfRestore(s: AppState, b: Backup)
    ensures ToBackup(Restore(s, b)) == b
  {
  }

  /** The Gist service: gist id to files. */
  type Remote = map<string, map<string, Backup>>

  /** The service after accepting `req`: a POST creates the returned gist, a
      PATCH overwrites the backup file of the gist it names. */
  function RemoteAfterPush(remote: Remote, s: AppState, gistId: string): (r: Remote)
    requires IsSet(s.githubToken)
    ensures var id := if IsSet(s.githubGistId) then s.githubGistId.value else gistId;
      id in r && BACKUP_FILE in r[id] && r[id][BACKUP_FILE] == ToBackup(s)
    ensures var id := if IsSet(s.githubGistId) then s.githubGistId.value else gistId;
      r.Keys == remote.Keys + {id} && forall g :: g in remote && g != id ==> r[g] == remote[g]
    ensures IsSet(s.githubGistId) && s.githubGistId.value in remote ==>
      forall f :: f in remote[s.githubGistId.value] && f != BACKUP_FILE ==>
        f in r[s.githubGistId.value] && r[s.githubGistId.value][f] == remote[s.githubGistId.value][f]
  {
    var req := PushRequest(s).value;
    var id := if req.verb == Patch then s.githubGistId.value else gistId;
    var existing := if req.verb == Patch && id in remote then remote[id] else map[];
    remote[id := existing + req.files]
  }

  function Fetch(remote: Remote, gistId: string): (r: PullResponse)
    ensures !r.PullThrew?
    ensures r.PullOk? <==> gistId in remote
    ensures r.PullOk? ==> r.files == remote[gistId]
  {
    if gistId in remote then PullOk(remote[gistId]) else PullNotOk
  }

  /** Push then pull: after device A pushes successfully, a device B holding
      a token and the gist id A now stores pulls exactly A's data, keeping
      B's own credentials. */
  lemma PushThenPullConverges(a: AppState, b: AppState, remote: Remote, newId: string)
    requires IsSet(a.githubToken)
    requires var a' := StateAfter(a, PushResult(a, PushAccepted(newId)));
      IsSet(a'.githubGistId) && b.githubGistId == a'.githubGistId
    requires IsSet(b.githubToken)
    ensures var a' := StateAfter(a, PushResult(a, PushAccepted(newId)));
      var remote' := RemoteAfterPush(remote, a, newId);
      var pulled := PullResult(b, true, Fetch(remote', a'.githubGistId.value));
      pulled.Succeeded? && pulled.next == a.(githubToken := b.githubToken, githubGistId := b.githubGistId)
  {
    var a' := StateAfter(a, PushResult(a, PushAccepted(newId)));
    var id := a'.githubGistId.value;
    var remote' := RemoteAfterPush(remote, a, newId);
    assert id == if IsSet(a.githubGistId) then a.githubGistId.value else newId;
    assert Fetch(remote', id) == PullOk(remote'[id]);
    RestoreBackup(b, a);
  }

  /** The first push stores the returned id, and the next push overwrites
      that same gist instead of creating another. */
  lemma SecondPushPatchesSameGist(s: AppState, newId: string)
    requires IsSet(s.githubToken) && !IsSet(s.githubGistId) && newId != ""
    ensures var s' := StateAfter(s, PushResult(s, PushAccepted(newId)));
      var req := PushRequest(s');
      && PushRequest(s).value.verb == Post
      && req.Some? && req.value.verb == Patch && req.value.url == GISTS_URL + "/" + newId
  {
  }

  /** A failed or refused handler leaves the local state as it was. */
  lemma FailureLeavesStateAlone(s: AppState, push: PushResponse, confirmed: bool, pull: PullResponse)
    ensures !push.PushAccepted? ==> StateAfter(s, PushResult(s, push)) == s
    ensures !pull.PullOk? ==> StateAfter(s, PullResult(s, confirmed, pull)) == s
    ensures (!IsSet(s.githubGistId) || !confirmed) ==> StateAfter(s, PullResult(s, confirmed, pull)) == s
  {
  }
}
