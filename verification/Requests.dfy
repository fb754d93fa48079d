/**
 Requests, participation, accounts and notifications of request_app/repository.py
 over the tables and cascades of request_app/database.py. Every method is one
 atomic step; ids are AUTOINCREMENT and never handed out twice; dates are day
 numbers, times whole seconds.
 */
module Requests {
  import opened Wrappers
  import opened RequestStatus

  const LIKE_UNDO_SECONDS := 10

  datatype MediaType = Movie | Tv

  datatype Media = Media(mediaType: MediaType, tmdb: int, season: Option<int>, release: Option<int>)

  datatype RequestState = Upcoming | Active | Completed

  datatype Request = Request(
    media: Media,
    state: RequestState,
    status: Status,
    author: Option<nat>,
    createdAt: int,
    completedAt: Option<int>,
    completedBy: Option<nat>)

  datatype User = User(name: string, admin: bool, active: bool)

  datatype Preference = OwnRequestLiked | RequestChanges | AdminNewRequest | AdminMessages

  datatype Event =
    | NewRequest
    | Liked(liker: nat)
    | StatusChanged(status: Status)
    | Done
    | Restored
    | Deleted(reason: string)
    | Promoted

  /** A notification as it was created: to whom, what happened, about which request. */
  datatype Notice = Notice(to: nat, event: Event, request: nat)

  /** A row of `notifications`; the link to the request may be missing. */
  datatype Note = Note(user: nat, event: Event, request: Option<nat>)

  /** The tables, and the log of all notifications ever created. */
  datatype Db = Db(
    users: map<nat, User>,
    nextUser: nat,
    requests: map<nat, Request>,
    nextRequest: nat,
    likes: map<(nat, nat), int>,
    withdrawals: set<(nat, nat)>,
    history: set<(nat, nat)>,
    muted: set<(nat, Preference)>,
    notes: map<nat, Note>,
    nextNote: nat,
    log: seq<Notice>)

  const EMPTY_DB := Db(map[], 1, map[], 1, map[], {}, {}, {}, map[], 1, [])

  datatype Error =
    | NotFound
    | UnknownUser
    | NotYours
    | AlreadyWithdrawn
    | AuthorLike
    | TooLate
    | Withdrawn
    | BadReason
    | BadCredentials
    | NameTaken
    | Inactive
    | LastAdmin
    | IsAdmin

  datatype Result<+T> = Ok(value: T) | Err(error: Error)

  datatype WithdrawOutcome = RequestDeleted | ParticipationRemoved

  // ---- Cascades -------------------------------------------------------------

  /** The pairs of a request other than `request` and an account. */
  function OfOtherRequests(pairs: set<(nat, nat)>, request: nat): (r: set<(nat, nat)>) {
    set k | k in pairs && k.0 != request
  }

  function LikesElsewhere(likes: map<(nat, nat), int>, request: nat): (r: map<(nat, nat), int>) {
    map k | k in likes && k.0 != request :: likes[k]
  }

  function Unlinked(notes: map<nat, Note>, request: nat): (r: map<nat, Note>) {
    map n | n in notes :: if notes[n].request == Some(request) then notes[n].(request := None) else notes[n]
  }

  function DropRequest(db: Db, request: nat): (d: Db) {
    db.(requests := db.requests - {request},
        likes := LikesElsewhere(db.likes, request),
        withdrawals := OfOtherRequests(db.withdrawals, request),
        history := OfOtherRequests(db.history, request),
        notes := Unlinked(db.notes, request))
  }

  function Forget(reference: Option<nat>, user: nat): (r: Option<nat>) {
    if reference == Some(user) then None else reference
  }

  function Anonymised(requests: map<nat, Request>, user: nat): (rows: map<nat, Request>) {
    map r | r in requests ::
      requests[r].(author := Forget(requests[r].author, user), completedBy := Forget(requests[r].completedBy, user))
  }

  /** The pairs of a request and an account other than `user`. */
  function OfOthers(pairs: set<(nat, nat)>, user: nat): (r: set<(nat, nat)>) {
    set k | k in pairs && k.1 != user
  }

  function LikesByOthers(likes: map<(nat, nat), int>, user: nat): (r: map<(nat, nat), int>) {
    map k | k in likes && k.1 != user :: likes[k]
  }

  function NotesToOthers(notes: map<nat, Note>, user: nat): (r: map<nat, Note>) {
    map n | n in notes && notes[n].user != user :: notes[n]
  }

  function DropUser(db: Db, user: nat): (d: Db) {
    db.(users := db.users - {user},
        requests := Anonymised(db.requests, user),
        likes := LikesByOthers(db.likes, user),
        withdrawals := OfOthers(db.withdrawals, user),
        history := OfOthers(db.history, user),
        muted := (set k | k in db.muted && k.0 != user),
        notes := NotesToOthers(db.notes, user))
  }

  // ---- Notifications --------------------------------------------------------

  /** `_notify`: nothing when the user switched the preference off. */
  function Notify(db: Db, to: nat, preference: Preference, event: Event, request: nat, linked: bool): (d: Db) {
    if (to, preference) in db.muted then db
    else db.(
      notes := db.notes[db.nextNote := Note(to, event, if linked then Some(request) else None)],
      nextNote := db.nextNote + 1,
      log := db.log + [Notice(to, event, request)])
  }

  /** `_interested_users`: author and likers who did not withdraw. */
  predicate Interested(db: Db, request: nat, user: nat) {
    && request in db.requests
    && (db.requests[request].author == Some(user) || (request, user) in db.likes)
    && (request, user) !in db.withdrawals
  }

  /** Notifies the interested users from id `user` on, in order of their ids. */
  function NotifyFrom(db: Db, request: nat, event: Event, linked: bool, user: nat): (d: Db)
    decreases db.nextUser - user
  {
    if user >= db.nextUser then db
    else
      var next := if Interested(db, request, user)
        then Notify(db, user, RequestChanges, event, request, linked) else db;
      NotifyFrom(next, request, event, linked, user + 1)
  }

  /** `_notify_request_change`. */
  function NotifyInterested(db: Db, request: nat, event: Event, linked: bool): (d: Db) {
    NotifyFrom(db, request, event, linked, 0)
  }

  /** Tells every other active administrator about a new request. */
  function NotifyAdmins(db: Db, request: nat, author: nat, user: nat): (d: Db)
    decreases db.nextUser - user
  {
    if user >= db.nextUser then db
    else
      var next := if user in db.users && db.users[user].admin && db.users[user].active && user != author
        then Notify(db, user, AdminNewRequest, NewRequest, request, true) else db;
      NotifyAdmins(next, request, author, user + 1)
  }

  // ---- Requests -------------------------------------------------------------

  /** The unique index uq_request_media; IFNULL(season_number, -1). */
  predicate SameMedia(a: Media, b: Media) {
    && a.mediaType == b.mediaType
    && a.tmdb == b.tmdb
    && (if a.season.Some? then a.season.value else -1) == (if b.season.Some? then b.season.value else -1)
  }

  /** The request of the same media among the ids below `bound`. */
  function FindMedia(db: Db, media: Media, bound: nat): (request: Option<nat>)
    ensures request.Some? ==> request.value in db.requests && SameMedia(db.requests[request.value].media, media)
    ensures request.None? ==> forall r :: r in db.requests && r < bound ==> !SameMedia(db.requests[r].media, media)
  {
    if bound == 0 then None
    else if bound - 1 in db.requests && SameMedia(db.requests[bound - 1].media, media) then Some(bound - 1)
    else FindMedia(db, media, bound - 1)
  }

  function FirstState(media: Media, today: int): (state: RequestState) {
    if media.release.Some? && media.release.value <= today then Active else Upcoming
  }

  /** A request that appears with its author's like. */
  function Inserted(db: Db, media: Media, user: nat, today: int, now: int): (d: Db) {
    var row := Request(media, FirstState(media, today), Waiting, Some(user), now, None, None);
    db.(requests := db.requests[db.nextRequest := row],
        nextRequest := db.nextRequest + 1,
        likes := db.likes[(db.nextRequest, user) := now])
  }

  function CreateRequest(db: Db, media: Media, user: nat, today: int, now: int)
    : (r: (Db, Result<(nat, bool, RequestState)>))
  {
    if user !in db.users then (db, Err(UnknownUser))
    else
      match FindMedia(db, media, db.nextRequest)
      case Some(request) =>
        var likes := if (request, user) in db.likes then db.likes else db.likes[(request, user) := now];
        (db.(likes := likes), Ok((request, true, db.requests[request].state)))
      case None =>
        (NotifyAdmins(Inserted(db, media, user, today, now), db.nextRequest, user, 0),
         Ok((db.nextRequest, false, FirstState(media, today))))
  }

  /** The author is told about a first like, unless it is his own or he withdrew. */
  function TellAuthor(db: Db, request: nat, liker: nat): (d: Db)
    requires request in db.requests
  {
    match db.requests[request].author
    case Some(author) =>
      if author != liker && (request, author) !in db.withdrawals && (request, liker) !in db.history
      then Notify(db, author, OwnRequestLiked, Liked(liker), request, true).(history := db.history + {(request, liker)})
      else db
    case None => db
  }

  function LikesOf(db: Db, request: nat): (keys: set<(nat, nat)>) {
    set k | k in db.likes && k.0 == request
  }

  /** What a toggle answers: the new state, the number of likes, and until when the
      like can be taken back. */
  datatype LikeState = LikeState(liked: bool, count: nat, deadline: Option<int>)

  function ToggleLike(db: Db, request: nat, user: nat, now: int): (r: (Db, Result<LikeState>)) {
    if request !in db.requests then (db, Err(NotFound))
    else if (request, user) in db.likes then
      if db.requests[request].author == Some(user) then (db, Err(AuthorLike))
      else if now > db.likes[(request, user)] + LIKE_UNDO_SECONDS then (db, Err(TooLate))
      else
        var next := db.(likes := db.likes - {(request, user)});
        (next, Ok(LikeState(false, |LikesOf(next, request)|, None)))
    else if (request, user) in db.withdrawals then (db, Err(Withdrawn))
    else if user !in db.users then (db, Err(UnknownUser))
    else
      var next := db.(likes := db.likes[(request, user) := now]);
      (TellAuthor(next, request, user),
       Ok(LikeState(true, |LikesOf(next, request)|, Some(now + LIKE_UNDO_SECONDS))))
  }

  predicate OthersLike(db: Db, request: nat, user: nat) {
    exists k | k in db.likes :: k.0 == request && k.1 != user
  }

  function Withdraw(db: Db, request: nat, user: nat): (r: (Db, Result<WithdrawOutcome>)) {
    if request !in db.requests || db.requests[request].state.Completed? then (db, Err(NotFound))
    else if db.requests[request].author != Some(user) then (db, Err(NotYours))
    else if (request, user) !in db.likes then (db, Err(AlreadyWithdrawn))
    else if !OthersLike(db, request, user) then (DropRequest(db, request), Ok(RequestDeleted))
    else
      (db.(likes := db.likes - {(request, user)}, withdrawals := db.withdrawals + {(request, user)}),
       Ok(ParticipationRemoved))
  }

  predicate IsActive(db: Db, request: nat) {
    request in db.requests && db.requests[request].state.Active?
  }

  function WithRow(db: Db, request: nat, row: Request): (d: Db) {
    db.(requests := db.requests[request := row])
  }

  function SetStatus(db: Db, request: nat, status: Status): (r: (Db, Result<()>)) {
    if !IsActive(db, request) then (db, Err(NotFound))
    else if db.requests[request].status == status then (db, Ok(()))
    else
      var changed := WithRow(db, request, db.requests[request].(status := status));
      (NotifyInterested(changed, request, StatusChanged(status), true), Ok(()))
  }

  function Complete(db: Db, request: nat, admin: nat, now: int): (r: (Db, Result<()>)) {
    if !IsActive(db, request) then (db, Err(NotFound))
    else if admin !in db.users then (db, Err(UnknownUser))
    else
      var row := db.requests[request].(state := Completed, completedAt := Some(now), completedBy := Some(admin));
      (NotifyInterested(WithRow(db, request, row), request, Done, true), Ok(()))
  }

  function Restore(db: Db, request: nat): (r: (Db, Result<()>)) {
    if request !in db.requests || !db.requests[request].state.Completed? then (db, Err(NotFound))
    else
      var row := db.requests[request].(state := Active, status := Waiting, completedAt := None, completedBy := None);
      (NotifyInterested(WithRow(db, request, row), request, Restored, true), Ok(()))
  }

  /** `reason` arrives stripped. */
  function DeleteRequest(db: Db, request: nat, reason: string): (r: (Db, Result<()>)) {
    if reason == "" || |reason| > 500 then (db, Err(BadReason))
    else if !IsActive(db, request) then (db, Err(NotFound))
    else (DropRequest(NotifyInterested(db, request, Deleted(reason), false), request), Ok(()))
  }

  predicate Due(db: Db, request: nat, today: int) {
    && request in db.requests
    && db.requests[request].state.Upcoming?
    && db.requests[request].media.release.Some?
    && db.requests[request].media.release.value <= today
  }

  /** The due requests with an id below `bound`. */
  function DueBelow(db: Db, today: int, bound: nat): (due: set<nat>) {
    set r | r in db.requests && r < bound && Due(db, r, today)
  }

  function Promote(db: Db, request: nat): (d: Db)
    requires request in db.requests
  {
    var row := db.requests[request].(state := Active, status := Waiting);
    NotifyInterested(WithRow(db, request, row), request, Promoted, true)
  }

  /** `promote_due_requests` on the ids from `request` to below `bound`. */
  function PromoteFrom(db: Db, today: int, request: nat, bound: nat): (d: Db)
    decreases bound - request
  {
    if request >= bound then db
    else PromoteFrom(if Due(db, request, today) then Promote(db, request) else db, today, request + 1, bound)
  }

  /** `update_release_metadata`, release date. */
  function Refresh(db: Db, request: nat, release: Option<int>): (d: Db) {
    if request in db.requests && release.Some?
    then WithRow(db, request, db.requests[request].(media := db.requests[request].media.(release := release)))
    else db
  }

  // ---- Accounts -------------------------------------------------------------

  predicate HasAdmin(db: Db) {
    exists u | u in db.users :: db.users[u].admin
  }

  predicate Named(db: Db, name: string) {
    exists u | u in db.users :: db.users[u].name == name
  }

  function FindName(db: Db, name: string, bound: nat): (user: Option<nat>)
    ensures user.Some? ==> user.value in db.users && db.users[user.value].name == name
    ensures user.None? ==> forall u :: u in db.users && u < bound ==> db.users[u].name != name
  {
    if bound == 0 then None
    else if bound - 1 in db.users && db.users[bound - 1].name == name then Some(bound - 1)
    else FindName(db, name, bound - 1)
  }

  function WithUser(db: Db, user: nat, row: User): (d: Db) {
    db.(users := db.users[user := row])
  }

  function AddUser(db: Db, row: User): (d: Db) {
    WithUser(db, db.nextUser, row).(nextUser := db.nextUser + 1)
  }

  /** `enforce_roles`; `valid` stands for the user name and password rules. */
  function EnforceRoles(db: Db, preferred: string, valid: bool): (r: (Db, Result<()>)) {
    if HasAdmin(db) then (db, Ok(()))
    else
      match FindName(db, preferred, db.nextUser)
      case Some(user) => (WithUser(db, user, db.users[user].(admin := true, active := true)), Ok(()))
      case None =>
        if !valid then (db, Err(BadCredentials)) else (AddUser(db, User(preferred, true, true)), Ok(()))
  }

  function CreateUser(db: Db, name: string, valid: bool): (r: (Db, Result<nat>)) {
    if !valid then (db, Err(BadCredentials))
    else if Named(db, name) then (db, Err(NameTaken))
    else (AddUser(db, User(name, false, true)), Ok(db.nextUser))
  }

  /** `rename_user`. */
  function Rename(db: Db, user: nat, name: string, valid: bool): (r: (Db, Result<()>)) {
    if !valid then (db, Err(BadCredentials))
    else if user !in db.users then (db, Err(NotFound))
    else if exists u | u in db.users :: u != user && db.users[u].name == name then (db, Err(NameTaken))
    else (WithUser(db, user, db.users[user].(name := name)), Ok(()))
  }

  predicate OtherActiveAdmin(db: Db, user: nat) {
    exists u | u in db.users :: u != user && db.users[u].admin && db.users[u].active
  }

  function SetActive(db: Db, user: nat, active: bool): (r: (Db, Result<()>)) {
    if user !in db.users then (db, Err(NotFound))
    else if db.users[user].admin && !active && !OtherActiveAdmin(db, user) then (db, Err(LastAdmin))
    else (WithUser(db, user, db.users[user].(active := active)), Ok(()))
  }

  function TransferAdmin(db: Db, user: nat): (r: (Db, Result<()>)) {
    if user !in db.users then (db, Err(NotFound))
    else if !db.users[user].active then (db, Err(Inactive))
    else (db.(users := map u | u in db.users :: db.users[u].(admin := u == user)), Ok(()))
  }

  /** The likes of `user` that nobody shares. */
  function Orphans(db: Db, user: nat): (requests: set<nat>) {
    set k | k in db.likes && k.1 == user && !OthersLike(db, k.0, user) :: k.0
  }

  function DropDoomed(db: Db, doomed: set<nat>, request: nat): (d: Db) {
    if request in doomed then DropRequest(db, request) else db
  }

  /** Deletes the requests of `doomed` from id `request` on. */
  function DropAll(db: Db, doomed: set<nat>, request: nat): (d: Db)
    decreases db.nextRequest - request
  {
    if request >= db.nextRequest then db
    else DropAll(DropDoomed(db, doomed, request), doomed, request + 1)
  }

  function DeleteUser(db: Db, user: nat): (r: (Db, Result<()>)) {
    if user !in db.users then (db, Err(NotFound))
    else if db.users[user].admin then (db, Err(IsAdmin))
    else (DropUser(DropAll(db, Orphans(db, user), 0), user), Ok(()))
  }

  function SetPreference(db: Db, user: nat, preference: Preference, enabled: bool): (d: Db) {
    if user !in db.users then db
    else db.(muted := if enabled then db.muted - {(user, preference)} else db.muted + {(user, preference)})
  }

  // ---- Steps ----------------------------------------------------------------

  datatype Op =
    | OpCreate(media: Media, user: nat, today: int, now: int)
    | OpToggle(request: nat, user: nat, now: int)
    | OpWithdraw(request: nat, user: nat)
    | OpSetStatus(request: nat, status: Status)
    | OpComplete(request: nat, admin: nat, now: int)
    | OpRestore(request: nat)
    | OpDelete(request: nat, reason: string)
    | OpPromote(today: int)
    | OpRefresh(request: nat, release: Option<int>)
    | OpEnforceRoles(preferred: string, valid: bool)
    | OpCreateUser(name: string, valid: bool)
    | OpRename(user: nat, name: string, valid: bool)
    | OpSetActive(user: nat, active: bool)
    | OpTransferAdmin(user: nat)
    | OpDeleteUser(user: nat)
    | OpSetPreference(user: nat, preference: Preference, enabled: bool)
    | OpDeleteNote(note: nat)

  function Step(db: Db, op: Op): (next: Db) {
    match op
    case OpCreate(media, user, today, now) => CreateRequest(db, media, user, today, now).0
    case OpToggle(request, user, now) => ToggleLike(db, request, user, now).0
    case OpWithdraw(request, user) => Withdraw(db, request, user).0
    case OpSetStatus(request, status) => SetStatus(db, request, status).0
    case OpComplete(request, admin, now) => Complete(db, request, admin, now).0
    case OpRestore(request) => Restore(db, request).0
    case OpDelete(request, reason) => DeleteRequest(db, request, reason).0
    case OpPromote(today) => PromoteFrom(db, today, 0, db.nextRequest)
    case OpRefresh(request, release) => Refresh(db, request, release)
    case OpEnforceRoles(preferred, valid) => EnforceRoles(db, preferred, valid).0
    case OpCreateUser(name, valid) => CreateUser(db, name, valid).0
    case OpRename(user, name, valid) => Rename(db, user, name, valid).0
    case OpSetActive(user, active) => SetActive(db, user, active).0
    case OpTransferAdmin(user) => TransferAdmin(db, user).0
    case OpDeleteUser(user) => DeleteUser(db, user).0
    case OpSetPreference(user, preference, enabled) => SetPreference(db, user, preference, enabled)
    case OpDeleteNote(note) => db.(notes := db.notes - {note})
  }

  function Run(db: Db, ops: seq<Op>): (end: Db)
    decreases |ops|
  {
    if ops == [] then db else Run(Step(db, ops[0]), ops[1..])
  }

  // ---- What notifying changes -----------------------------------------------

  /** Only the notification table and the log differ, and the log grew by `added`. */
  ghost predicate Notified(before: Db, after: Db, added: seq<Notice>) {
    && after == before.(notes := after.notes, nextNote := after.nextNote, log := before.log + added)
    && before.nextNote <= after.nextNote
    && (forall n | n in before.notes :: n in after.notes && after.notes[n] == before.notes[n])
    && (forall n | n in after.notes && n !in before.notes ::
          before.nextNote <= n < after.nextNote && exists notice | notice in added :: Records(after.notes[n], notice))
  }

  predicate Records(note: Note, notice: Notice) {
    && note.user == notice.to
    && note.event == notice.event
    && (note.request.Some? ==> note.request.value == notice.request)
  }

  /** The notices of a change of `request` to the users from id `user` on. */
  function Notices(db: Db, request: nat, event: Event, user: nat): (notices: seq<Notice>)
    decreases db.nextUser - user
  {
    if user >= db.nextUser then []
    else
      var rest := Notices(db, request, event, user + 1);
      if Interested(db, request, user) && (user, RequestChanges) !in db.muted
      then [Notice(user, event, request)] + rest else rest
  }

  lemma {:induction false} NoticesIgnoreNotes(db: Db, next: Db, request: nat, event: Event, user: nat)
    requires next == db.(notes := next.notes, nextNote := next.nextNote, log := next.log)
    ensures Notices(next, request, event, user) == Notices(db, request, event, user)
    decreases db.nextUser - user
  {
    if user < db.nextUser {
      NoticesIgnoreNotes(db, next, request, event, user + 1);
    }
  }

  lemma NotifyIsNotified(db: Db, to: nat, preference: Preference, event: Event, request: nat, linked: bool)
    requires forall n | n in db.notes :: n < db.nextNote
    ensures var next := Notify(db, to, preference, event, request, linked);
      && Notified(db, next, if (to, preference) in db.muted then [] else [Notice(to, event, request)])
      && (forall n | n in next.notes :: n < next.nextNote)
  {
    if (to, preference) !in db.muted {
      var next := Notify(db, to, preference, event, request, linked);
      assert Records(next.notes[db.nextNote], [Notice(to, event, request)][0]);
    }
  }

  lemma NotifiedTwice(a: Db, b: Db, c: Db, first: seq<Notice>, second: seq<Notice>)
    requires Notified(a, b, first) && Notified(b, c, second)
    ensures Notified(a, c, first + second)
  {
    forall n | n in c.notes && n !in a.notes
      ensures exists notice | notice in first + second :: Records(c.notes[n], notice)
    {
      var notice :| notice in (if n in b.notes then first else second) && Records(c.notes[n], notice);
      assert notice in first + second;
    }
    assert a.log + (first + second) == a.log + first + second;
  }

  /** Notifying creates exactly the notices of the interested users. */
  lemma {:induction false} NotifyFromIsNotified(db: Db, request: nat, event: Event, linked: bool, user: nat)
    requires forall n | n in db.notes :: n < db.nextNote
    ensures var next := NotifyFrom(db, request, event, linked, user);
      && Notified(db, next, Notices(db, request, event, user))
      && (forall n | n in next.notes :: n < next.nextNote)
    decreases db.nextUser - user
  {
    if user < db.nextUser {
      var next := if Interested(db, request, user)
        then Notify(db, user, RequestChanges, event, request, linked) else db;
      NotifyIsNotified(db, user, RequestChanges, event, request, linked);
      NotifyFromIsNotified(next, request, event, linked, user + 1);
      NoticesIgnoreNotes(db, next, request, event, user + 1);
      var added := if Interested(db, request, user) && (user, RequestChanges) !in db.muted
        then [Notice(user, event, request)] else [];
      assert Notified(db, next, added);
      var after, rest := NotifyFrom(db, request, event, linked, user), Notices(db, request, event, user + 1);
      NotifiedTwice(db, next, after, added, rest);
    }
  }
}
