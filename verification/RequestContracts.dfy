/**
 What each call of the repository does, row by row: which rows appear, change and
 go, who is told, and with which link. Nothing here uses the functions of
 `Requests` that carry the calls out.
 */
module RequestContracts {
  import opened Wrappers
  import opened RequestStatus
  import opened Requests
  import opened RequestInvariants

  // ---- Notices --------------------------------------------------------------

  /** The log grew by `added`, and one row was stored for each of them, in order,
      under the next ids. */
  ghost predicate Stored(before: Db, after: Db, added: seq<Notice>, linked: bool) {
    && after.log == before.log + added
    && after.nextNote == before.nextNote + |added|
    && (forall n :: n in after.notes <==> n in before.notes || before.nextNote <= n < after.nextNote)
    && (forall n | n in before.notes :: after.notes[n] == before.notes[n])
    && (forall n | before.nextNote <= n < after.nextNote ::
          var notice := added[n - before.nextNote];
          after.notes[n] == Note(notice.to, notice.event, if linked then Some(notice.request) else None))
  }

  /** By request and account, nobody twice. */
  ghost predicate Ascending(added: seq<Notice>) {
    forall i, j | 0 <= i < j < |added| ::
      added[i].request < added[j].request || (added[i].request == added[j].request && added[i].to < added[j].to)
  }

  /** Exactly the pairs (request, account) of `audience` hear of the event, each once,
      in ascending order. */
  ghost predicate Hear(added: seq<Notice>, audience: set<(nat, nat)>, event: Event) {
    && (forall i | 0 <= i < |added| :: added[i].event == event && (added[i].request, added[i].to) in audience)
    && (forall k | k in audience :: Notice(k.1, event, k.0) in added)
    && Ascending(added)
  }

  /** What was added to the log, with its rows, tells the event to the audience. */
  ghost predicate Tells(before: Db, after: Db, audience: set<(nat, nat)>, event: Event, linked: bool) {
    && |before.log| <= |after.log|
    && Stored(before, after, after.log[|before.log|..], linked)
    && Hear(after.log[|before.log|..], audience, event)
  }

  /** The other tables and counters. */
  ghost predicate OnlyTold(before: Db, after: Db) {
    before == after.(notes := before.notes, nextNote := before.nextNote, log := before.log)
  }

  /** Authors and likers of the requests who did not withdraw and have the preference on. */
  function Listeners(db: Db, requests: set<nat>): (audience: set<(nat, nat)>) {
    set r, u | r in requests && u in db.users && r in db.requests
      && (db.requests[r].author == Some(u) || (r, u) in db.likes)
      && (r, u) !in db.withdrawals && (u, RequestChanges) !in db.muted :: (r, u)
  }

  /** The administrators who hear of a new request of the author. */
  function Administrators(db: Db, request: nat, author: nat): (audience: set<(nat, nat)>) {
    set u | u in db.users && db.users[u].admin && db.users[u].active && u != author
      && (u, AdminNewRequest) !in db.muted :: (request, u)
  }

  // ---- Calls ----------------------------------------------------------------

  /** Two requests the unique index does not admit together. */
  predicate Clash(a: Media, b: Media) {
    && a.mediaType == b.mediaType
    && a.tmdb == b.tmdb
    && (a.season == b.season
        || (a.season == None && b.season == Some(-1))
        || (a.season == Some(-1) && b.season == None))
  }

  ghost predicate Created(
    before: Db, after: Db, media: Media, user: nat, today: int, now: int, result: Result<(nat, bool, RequestState)>)
  {
    if user !in before.users then result == Err(UnknownUser) && after == before
    else if exists r | r in before.requests :: Clash(before.requests[r].media, media) then
      && result.Ok?
      && result.value.0 in before.requests
      && Clash(before.requests[result.value.0].media, media)
      && result.value.1
      && result.value.2 == before.requests[result.value.0].state
      && after == before.(likes := after.likes)
      && after.likes.Keys == before.likes.Keys + {(result.value.0, user)}
      && forall k | k in after.likes :: after.likes[k] == if k in before.likes then before.likes[k] else now
    else
      var state := if media.release != None && media.release.value <= today then Active else Upcoming;
      var request := before.nextRequest;
      var row := Request(media, state, Waiting, Some(user), now, None, None);
      var inserted := before.(requests := before.requests[request := row], nextRequest := request + 1,
                              likes := before.likes[(request, user) := now]);
      && result == Ok((request, false, state))
      && request !in before.requests
      && OnlyTold(inserted, after)
      && Tells(before, after, Administrators(before, request, user), NewRequest, true)
  }

  /** The author hears of this like. */
  predicate TellsAuthor(db: Db, request: nat, liker: nat) {
    && request in db.requests
    && db.requests[request].author.Some?
    && db.requests[request].author != Some(liker)
    && (request, db.requests[request].author.value) !in db.withdrawals
    && (request, liker) !in db.history
  }

  ghost predicate Toggled(before: Db, after: Db, request: nat, user: nat, now: int, result: Result<LikeState>) {
    if request !in before.requests then result == Err(NotFound) && after == before
    else if (request, user) in before.likes then
      if before.requests[request].author == Some(user) then result == Err(AuthorLike) && after == before
      else if now - before.likes[(request, user)] > 10 then result == Err(TooLate) && after == before
      else
        && after == before.(likes := before.likes - {(request, user)})
        && result == Ok(LikeState(false, |set k | k in before.likes && k.0 == request && k.1 != user|, None))
    else if (request, user) in before.withdrawals then result == Err(Withdrawn) && after == before
    else if user !in before.users then result == Err(UnknownUser) && after == before
    else
      var tells := TellsAuthor(before, request, user);
      var author := before.requests[request].author;
      var audience :=
        if tells && (author.value, OwnRequestLiked) !in before.muted then {(request, author.value)} else {};
      && after.likes == before.likes[(request, user) := now]
      && after.history == (if tells then before.history + {(request, user)} else before.history)
      && OnlyTold(before.(likes := after.likes, history := after.history), after)
      && Tells(before, after, audience, Liked(user), true)
      && result == Ok(LikeState(true, |set k | k in before.likes && k.0 == request| + 1, Some(now + 10)))
  }

  /** The rows of the requests `gone` go; notes keep what they say and lose the link. */
  ghost predicate Removed(before: Db, after: Db, gone: set<nat>) {
    && after == before.(requests := before.requests - gone, likes := after.likes, withdrawals := after.withdrawals,
                        history := after.history, notes := after.notes)
    && after.likes == (map k | k in before.likes && k.0 !in gone :: before.likes[k])
    && after.withdrawals == (set k | k in before.withdrawals && k.0 !in gone)
    && after.history == (set k | k in before.history && k.0 !in gone)
    && after.notes.Keys == before.notes.Keys
    && forall n | n in before.notes ::
         var link := before.notes[n].request;
         after.notes[n] == Note(before.notes[n].user, before.notes[n].event,
                                if link.Some? && link.value in gone then None else link)
  }

  ghost predicate WithdrawnFrom(before: Db, after: Db, request: nat, user: nat, result: Result<WithdrawOutcome>) {
    if request !in before.requests || before.requests[request].state == Completed
    then result == Err(NotFound) && after == before
    else if before.requests[request].author != Some(user) then result == Err(NotYours) && after == before
    else if (request, user) !in before.likes then result == Err(AlreadyWithdrawn) && after == before
    else if forall k | k in before.likes && k.0 == request :: k.1 == user
    then result == Ok(RequestDeleted) && Removed(before, after, {request})
    else
      && result == Ok(ParticipationRemoved)
      && after == before.(likes := after.likes, withdrawals := before.withdrawals + {(request, user)})
      && after.likes == (map k | k in before.likes && k != (request, user) :: before.likes[k])
  }

  /** One row is replaced, and its listeners hear of it. */
  ghost predicate Replaced(before: Db, after: Db, request: nat, row: Request, event: Event) {
    && OnlyTold(before.(requests := before.requests[request := row]), after)
    && Tells(before, after, Listeners(before, {request}), event, true)
  }

  ghost predicate StatusSet(before: Db, after: Db, request: nat, status: Status, result: Result<()>) {
    if request !in before.requests || before.requests[request].state != Active
    then result == Err(NotFound) && after == before
    else if before.requests[request].status == status then result == Ok(()) && after == before
    else
      var row := before.requests[request];
      && result == Ok(())
      && Replaced(before, after, request,
                  Request(row.media, Active, status, row.author, row.createdAt, row.completedAt, row.completedBy),
                  StatusChanged(status))
  }

  ghost predicate CompletedBy(before: Db, after: Db, request: nat, admin: nat, now: int, result: Result<()>) {
    if request !in before.requests || before.requests[request].state != Active
    then result == Err(NotFound) && after == before
    else if admin !in before.users then result == Err(UnknownUser) && after == before
    else
      var row := before.requests[request];
      && result == Ok(())
      && Replaced(before, after, request,
                  Request(row.media, Completed, row.status, row.author, row.createdAt, Some(now), Some(admin)), Done)
  }

  ghost predicate BroughtBack(before: Db, after: Db, request: nat, result: Result<()>) {
    if request !in before.requests || before.requests[request].state != Completed
    then result == Err(NotFound) && after == before
    else
      var row := before.requests[request];
      && result == Ok(())
      && Replaced(before, after, request,
                  Request(row.media, Active, Waiting, row.author, row.createdAt, None, None), Restored)
  }

  /** The listeners hear of the deletion, with notes that link nothing. */
  ghost predicate DeletedFor(before: Db, after: Db, request: nat, reason: string, result: Result<()>) {
    if |reason| == 0 || |reason| > 500 then result == Err(BadReason) && after == before
    else if request !in before.requests || before.requests[request].state != Active
    then result == Err(NotFound) && after == before
    else
      && result == Ok(())
      && exists told ::
           && OnlyTold(before, told)
           && Tells(before, told, Listeners(before, {request}), Deleted(reason), false)
           && Removed(told, after, {request})
  }

  /** The upcoming requests released by `today`. */
  function Released(db: Db, today: int): (requests: set<nat>) {
    set r | r in db.requests && db.requests[r].state == Upcoming
      && db.requests[r].media.release != None && db.requests[r].media.release.value <= today
  }

  ghost predicate PromotedAll(before: Db, after: Db, today: int, promoted: nat) {
    var due := Released(before, today);
    && promoted == |due|
    && Activated(before, after, due)
    && Tells(before, after, Listeners(before, due), Promoted, true)
  }

  /** The requests of `due` become active and pending. */
  ghost predicate Activated(before: Db, after: Db, due: set<nat>) {
    && OnlyTold(before.(requests := after.requests), after)
    && after.requests.Keys == before.requests.Keys
    && forall r | r in before.requests ::
         var row := before.requests[r];
         after.requests[r] ==
         if r in due
         then Request(row.media, Active, Waiting, row.author, row.createdAt, row.completedAt, row.completedBy)
         else row
  }

  /** The requests that only the user likes. */
  function LikedAlone(db: Db, user: nat): (requests: set<nat>) {
    set r | r in db.requests && (r, user) in db.likes && forall k | k in db.likes && k.0 == r :: k.1 == user
  }

  ghost predicate AccountDeleted(before: Db, after: Db, user: nat, result: Result<()>) {
    if user !in before.users then result == Err(NotFound) && after == before
    else if before.users[user].admin then result == Err(IsAdmin) && after == before
    else
      && result == Ok(())
      && exists rest :: Removed(before, rest, LikedAlone(before, user)) && Vanished(rest, after, user)
  }

  /** The rows of the account go; requests it wrote or completed stay without its name. */
  ghost predicate Vanished(before: Db, after: Db, user: nat) {
    && after.users == (map u | u in before.users && u != user :: before.users[u])
    && after.requests.Keys == before.requests.Keys
    && (forall r | r in before.requests ::
          var row := before.requests[r];
          after.requests[r] == Request(row.media, row.state, row.status,
                                       if row.author == Some(user) then None else row.author, row.createdAt,
                                       row.completedAt,
                                       if row.completedBy == Some(user) then None else row.completedBy))
    && after.likes == (map k | k in before.likes && k.1 != user :: before.likes[k])
    && after.withdrawals == (set k | k in before.withdrawals && k.1 != user)
    && after.history == (set k | k in before.history && k.1 != user)
    && after.muted == (set k | k in before.muted && k.0 != user)
    && after.notes == (map n | n in before.notes && before.notes[n].user != user :: before.notes[n])
    && (after.nextUser, after.nextRequest, after.nextNote) == (before.nextUser, before.nextRequest, before.nextNote)
    && after.log == before.log
  }

  // ---- Who is told ----------------------------------------------------------

  lemma StoredTwice(a: Db, b: Db, c: Db, first: seq<Notice>, second: seq<Notice>, linked: bool)
    requires forall n | n in a.notes :: n < a.nextNote
    requires Stored(a, b, first, linked) && Stored(b, c, second, linked)
    ensures Stored(a, c, first + second, linked)
  {
    SumRegroups(a.log, first, second);
  }

  lemma StoredIsTold(before: Db, after: Db, added: seq<Notice>, audience: set<(nat, nat)>, event: Event, linked: bool)
    requires Stored(before, after, added, linked) && Hear(added, audience, event)
    ensures Tells(before, after, audience, event, linked)
  {
    assert after.log[|before.log|..] == added;
  }

  /** Telling looks at the notes and the log alone. */
  lemma TellsFrom(a: Db, b: Db, after: Db, audience: set<(nat, nat)>, event: Event, linked: bool)
    requires (a.notes, a.nextNote, a.log) == (b.notes, b.nextNote, b.log)
    requires Tells(a, after, audience, event, linked)
    ensures Tells(b, after, audience, event, linked)
  {
    hide Hear;
  }

  lemma NotifyStores(db: Db, to: nat, preference: Preference, event: Event, request: nat, linked: bool)
    requires forall n | n in db.notes :: n < db.nextNote
    ensures var next := Notify(db, to, preference, event, request, linked);
      && Stored(db, next, if (to, preference) in db.muted then [] else [Notice(to, event, request)], linked)
      && OnlyTold(db, next)
      && forall n | n in next.notes :: n < next.nextNote
  {
  }

  lemma {:induction false} NotifyFromStores(db: Db, request: nat, event: Event, linked: bool, user: nat)
    requires forall n | n in db.notes :: n < db.nextNote
    ensures var next := NotifyFrom(db, request, event, linked, user);
      && Stored(db, next, Notices(db, request, event, user), linked)
      && OnlyTold(db, next)
    decreases db.nextUser - user
  {
    hide Stored, Notify;
    if user >= db.nextUser {
      NothingIsStored(db, linked);
    } else {
      var next := if Interested(db, request, user)
        then Notify(db, user, RequestChanges, event, request, linked) else db;
      var added := if Interested(db, request, user) && (user, RequestChanges) !in db.muted
        then [Notice(user, event, request)] else [];
      NotifyStores(db, user, RequestChanges, event, request, linked);
      NothingIsStored(db, linked);
      NotifyFromStores(next, request, event, linked, user + 1);
      NoticesIgnoreNotes(db, next, request, event, user + 1);
      var rest := Notices(db, request, event, user + 1);
      assert [] + rest == rest;
      StoredTwice(db, next, NotifyFrom(db, request, event, linked, user), added, rest, linked);
    }
  }

  lemma NothingIsStored(db: Db, linked: bool)
    ensures Stored(db, db, [], linked) && OnlyTold(db, db)
  {
    assert db.log + [] == db.log;
  }

  /** The part of the audience from the account `user` on. */
  function From(audience: set<(nat, nat)>, user: nat): (rest: set<(nat, nat)>) {
    set k | k in audience && user <= k.1
  }

  lemma AscendingMore(notice: Notice, rest: seq<Notice>)
    requires Ascending(rest)
    requires forall i | 0 <= i < |rest| :: rest[i].request == notice.request && notice.to < rest[i].to
    ensures Ascending([notice] + rest)
  {
  }

  /** One more account in front. */
  lemma HearMore(audience: set<(nat, nat)>, request: nat, user: nat, rest: seq<Notice>, event: Event)
    requires forall k | k in audience :: k.0 == request
    requires Hear(rest, From(audience, user + 1), event)
    ensures Hear(if (request, user) in audience then [Notice(user, event, request)] + rest else rest,
                 From(audience, user), event)
  {
    hide Ascending;
    var first := Notice(user, event, request);
    forall i | 0 <= i < |rest| ensures rest[i].request == request && user < rest[i].to {
      assert (rest[i].request, rest[i].to) in From(audience, user + 1);
    }
    if (request, user) in audience {
      AscendingMore(first, rest);
      forall k | k in From(audience, user) ensures Notice(k.1, event, k.0) in [first] + rest {
        if k.1 > user {
          assert k in From(audience, user + 1);
        }
      }
    } else {
      assert From(audience, user) == From(audience, user + 1);
    }
  }

  lemma NobodyHears(audience: set<(nat, nat)>, user: nat, event: Event)
    requires forall k | k in audience :: k.1 < user
    ensures Hear([], From(audience, user), event)
  {
  }

  lemma {:induction false} NoticesAreHeard(db: Db, request: nat, event: Event, user: nat)
    requires Resolved(db)
    ensures Hear(Notices(db, request, event, user), From(Listeners(db, {request}), user), event)
    decreases db.nextUser - user
  {
    hide Hear;
    if user >= db.nextUser {
      NobodyHears(Listeners(db, {request}), user, event);
    } else {
      NoticesAreHeard(db, request, event, user + 1);
      HearMore(Listeners(db, {request}), request, user, Notices(db, request, event, user + 1), event);
    }
  }

  lemma AllOf(audience: set<(nat, nat)>)
    ensures From(audience, 0) == audience
  {
  }

  lemma NotifyInterestedTells(db: Db, request: nat, event: Event, linked: bool)
    requires Inv(db)
    ensures var next := NotifyInterested(db, request, event, linked);
      && OnlyTold(db, next)
      && Tells(db, next, Listeners(db, {request}), event, linked)
  {
    NotifyFromStores(db, request, event, linked, 0);
    NoticesAreHeard(db, request, event, 0);
    AllOf(Listeners(db, {request}));
    StoredIsTold(db, NotifyInterested(db, request, event, linked), Notices(db, request, event, 0),
      Listeners(db, {request}), event, linked);
  }

  lemma {:induction false} NotifyAdminsStores(db: Db, request: nat, author: nat, user: nat) returns (added: seq<Notice>)
    requires forall n | n in db.notes :: n < db.nextNote
    requires forall u | u in db.users :: u < db.nextUser
    ensures var next := NotifyAdmins(db, request, author, user);
      && Stored(db, next, added, true)
      && OnlyTold(db, next)
    ensures Hear(added, From(Administrators(db, request, author), user), NewRequest)
    decreases db.nextUser - user
  {
    hide Stored, Hear, Notify;
    if user >= db.nextUser {
      added := [];
      NothingIsStored(db, true);
      NobodyHears(Administrators(db, request, author), user, NewRequest);
    } else {
      var told := user in db.users && db.users[user].admin && db.users[user].active && user != author;
      var next := if told then Notify(db, user, AdminNewRequest, NewRequest, request, true) else db;
      var first := if told && (user, AdminNewRequest) !in db.muted then [Notice(user, NewRequest, request)] else [];
      NotifyStores(db, user, AdminNewRequest, NewRequest, request, true);
      NothingIsStored(db, true);
      var rest := NotifyAdminsStores(next, request, author, user + 1);
      added := first + rest;
      StoredTwice(db, next, NotifyAdmins(db, request, author, user), first, rest, true);
      assert Administrators(next, request, author) == Administrators(db, request, author);
      HearMore(Administrators(db, request, author), request, user, rest, NewRequest);
      assert first == [] ==> first + rest == rest;
    }
  }

  // ---- The calls ------------------------------------------------------------

  lemma SameMediaClashes(a: Media, b: Media)
    ensures SameMedia(a, b) ==> Clash(a, b)
    ensures Clash(a, b) ==> SameMedia(a, b)
  {
  }

  lemma ExistingIsFound(db: Db, media: Media)
    requires Resolved(db)
    ensures FindMedia(db, media, db.nextRequest).Some? <==>
      exists r | r in db.requests :: Clash(db.requests[r].media, media)
    ensures var found := FindMedia(db, media, db.nextRequest);
      found.Some? ==> found.value in db.requests && Clash(db.requests[found.value].media, media)
  {
  }

  lemma SameAdministrators(db: Db, next: Db, request: nat, author: nat)
    requires next.users == db.users && next.muted == db.muted
    ensures Administrators(next, request, author) == Administrators(db, request, author)
  {
  }

  lemma InsertingTells(db: Db, media: Media, user: nat, today: int, now: int)
    requires Resolved(db) && user in db.users && FindMedia(db, media, db.nextRequest).None?
    ensures var r := CreateRequest(db, media, user, today, now); Created(db, r.0, media, user, today, now, r.1)
  {
    hide Tells, Stored, Hear, Inv, Administrators, NotifyAdmins, Clash, FindMedia;
    var after := CreateRequest(db, media, user, today, now).0;
    var request, inserted := db.nextRequest, Inserted(db, media, user, today, now);
    ExistingIsFound(db, media);
    var added := NotifyAdminsStores(inserted, request, user, 0);
    SameAdministrators(db, inserted, request, user);
    AllOf(Administrators(db, request, user));
    StoredIsTold(inserted, after, added, Administrators(db, request, user), NewRequest, true);
    TellsFrom(inserted, db, after, Administrators(db, request, user), NewRequest, true);
  }

  lemma OldRequestIsCreated(db: Db, media: Media, user: nat, today: int, now: int)
    requires Resolved(db) && !(user in db.users && FindMedia(db, media, db.nextRequest).None?)
    ensures var r := CreateRequest(db, media, user, today, now); Created(db, r.0, media, user, today, now, r.1)
  {
    ExistingIsFound(db, media);
    hide Resolved, Clash, Inserted, NotifyAdmins, Tells;
  }

  lemma CreateIsCreated(db: Db, media: Media, user: nat, today: int, now: int)
    requires Inv(db)
    ensures var r := CreateRequest(db, media, user, today, now); Created(db, r.0, media, user, today, now, r.1)
  {
    hide Created, Clash, Inserted, NotifyAdmins;
    if user in db.users && FindMedia(db, media, db.nextRequest).None? {
      InsertingTells(db, media, user, today, now);
    } else {
      OldRequestIsCreated(db, media, user, today, now);
    }
  }

  lemma LikeIsOneMore(db: Db, request: nat, user: nat, now: int)
    requires (request, user) !in db.likes
    ensures |LikesOf(db.(likes := db.likes[(request, user) := now]), request)|
         == |set k | k in db.likes && k.0 == request| + 1
  {
    assert LikesOf(db.(likes := db.likes[(request, user) := now]), request)
      == (set k | k in db.likes && k.0 == request) + {(request, user)};
  }

  lemma OldNotes(db: Db)
    requires Inv(db)
    ensures forall n | n in db.notes :: n < db.nextNote
  {
  }

  lemma NothingIsTold(db: Db, event: Event, linked: bool)
    ensures Tells(db, db, {}, event, linked) && OnlyTold(db, db)
  {
    NothingIsStored(db, linked);
    StoredIsTold(db, db, [], {}, event, linked);
  }

  lemma OneIsTold(db: Db, to: nat, preference: Preference, event: Event, request: nat, linked: bool)
    requires forall n | n in db.notes :: n < db.nextNote
    ensures var next := Notify(db, to, preference, event, request, linked);
      && OnlyTold(db, next)
      && Tells(db, next, if (to, preference) in db.muted then {} else {(request, to)}, event, linked)
  {
    hide Stored;
    NotifyStores(db, to, preference, event, request, linked);
    var added := if (to, preference) in db.muted then [] else [Notice(to, event, request)];
    assert Notice(to, event, request) in [Notice(to, event, request)];
    StoredIsTold(db, Notify(db, to, preference, event, request, linked), added,
      if (to, preference) in db.muted then {} else {(request, to)}, event, linked);
  }

  lemma TellsInto(a: Db, b: Db, c: Db, audience: set<(nat, nat)>, event: Event)
    requires (b.notes, b.nextNote, b.log) == (c.notes, c.nextNote, c.log)
    requires Tells(a, b, audience, event, true)
    ensures Tells(a, c, audience, event, true)
  {
    hide Hear;
  }

  lemma AuthorIsTold(db: Db, request: nat, liker: nat)
    requires Inv(db) && request in db.requests
    ensures var after, tells := TellAuthor(db, request, liker), TellsAuthor(db, request, liker);
      var author := db.requests[request].author;
      && after.history == (if tells then db.history + {(request, liker)} else db.history)
      && OnlyTold(db.(history := after.history), after)
      && Tells(db, after,
               if tells && (author.value, OwnRequestLiked) !in db.muted then {(request, author.value)} else {},
               Liked(liker), true)
  {
    hide Tells, Inv;
    OldNotes(db);
    NothingIsTold(db, Liked(liker), true);
    if TellsAuthor(db, request, liker) {
      var author := db.requests[request].author.value;
      OneIsTold(db, author, OwnRequestLiked, Liked(liker), request, true);
      var told := Notify(db, author, OwnRequestLiked, Liked(liker), request, true);
      TellsInto(db, told, told.(history := db.history + {(request, liker)}),
        if (author, OwnRequestLiked) in db.muted then {} else {(request, author)}, Liked(liker));
    }
  }

  lemma LikeIsToggled(db: Db, request: nat, user: nat, now: int)
    requires Inv(db) && request in db.requests && user in db.users
    requires (request, user) !in db.likes && (request, user) !in db.withdrawals
    ensures var r := ToggleLike(db, request, user, now); Toggled(db, r.0, request, user, now, r.1)
  {
    hide Tells, TellAuthor, Inv;
    var after := ToggleLike(db, request, user, now).0;
    var liked := db.(likes := db.likes[(request, user) := now]);
    LikeIsOneMore(db, request, user, now);
    MoreLikesKeepInv(db, request, user, now);
    AuthorIsTold(liked, request, user);
    var author := db.requests[request].author;
    assert TellsAuthor(liked, request, user) == TellsAuthor(db, request, user);
    TellsFrom(liked, db, after,
      if TellsAuthor(db, request, user) && (author.value, OwnRequestLiked) !in db.muted
      then {(request, author.value)} else {}, Liked(user), true);
  }

  lemma ToggleIsToggled(db: Db, request: nat, user: nat, now: int)
    requires Inv(db)
    ensures var r := ToggleLike(db, request, user, now); Toggled(db, r.0, request, user, now, r.1)
  {
    hide Tells, TellAuthor, Inv;
    var after, result := ToggleLike(db, request, user, now).0, ToggleLike(db, request, user, now).1;
    if result.Ok? && result.value.liked {
      LikeIsToggled(db, request, user, now);
    } else if result.Ok? {
      assert LikesOf(after, request) == (set k | k in db.likes && k.0 == request && k.1 != user);
    }
  }

  /** The only notice about one pair. */
  lemma OneHears(added: seq<Notice>, request: nat, user: nat, event: Event)
    requires Hear(added, {(request, user)}, event)
    ensures added == [Notice(user, event, request)]
  {
    assert Notice(user, event, request) in added;
    forall i | 0 <= i < |added| ensures added[i] == Notice(user, event, request) {
      assert (added[i].request, added[i].to) in {(request, user)};
    }
    var last := added[|added| - 1];
    assert added[0] == last;
  }

  lemma SomebodyHears(added: seq<Notice>, audience: set<(nat, nat)>, event: Event)
    requires Hear(added, audience, event)
    ensures added != [] ==> audience != {}
  {
    if added != [] {
      assert (added[0].request, added[0].to) in audience;
    }
  }

  lemma StoredOne(before: Db, after: Db, notice: Notice)
    requires Stored(before, after, [notice], true)
    ensures after.notes == before.notes[before.nextNote := Note(notice.to, notice.event, Some(notice.request))]
    ensures after.log == before.log + [notice] && after.nextNote == before.nextNote + 1
  {
  }

  lemma TellsOne(before: Db, after: Db, request: nat, user: nat, event: Event)
    requires Tells(before, after, {(request, user)}, event, true)
    ensures after.log == before.log + [Notice(user, event, request)]
    ensures after.notes == before.notes[before.nextNote := Note(user, event, Some(request))]
    ensures after.nextNote == before.nextNote + 1
  {
    hide Hear, Stored;
    OneHears(after.log[|before.log|..], request, user, event);
    StoredOne(before, after, Notice(user, event, request));
  }

  lemma TellsNobody(before: Db, after: Db, event: Event)
    requires Tells(before, after, {}, event, true)
    ensures after.log == before.log && after.notes == before.notes && after.nextNote == before.nextNote
  {
    SomebodyHears(after.log[|before.log|..], {}, event);
    hide Hear;
    assert before.log + [] == before.log;
  }

  /** A like is told to the author with one linked note, unless it is his own, he
      withdrew, it was told before or he switched the preference off; nothing else
      that a toggle does is told. */
  lemma LikeIsTold(before: Db, after: Db, request: nat, user: nat, now: int, result: Result<LikeState>)
    requires Toggled(before, after, request, user, now, result)
    ensures result.Ok? ==> request in before.requests && (result.value.liked <==> (request, user) in after.likes)
    ensures if result.Ok? && result.value.liked && before.requests[request].author.Some?
        && before.requests[request].author.value != user
        && (request, before.requests[request].author.value) !in before.withdrawals
        && (request, user) !in before.history
        && (before.requests[request].author.value, OwnRequestLiked) !in before.muted
      then
        var author := before.requests[request].author.value;
        && after.log == before.log + [Notice(author, Liked(user), request)]
        && after.notes == before.notes[before.nextNote := Note(author, Liked(user), Some(request))]
        && after.nextNote == before.nextNote + 1
      else after.log == before.log && after.notes == before.notes && after.nextNote == before.nextNote
  {
    hide Tells;
    if result.Ok? && result.value.liked {
      var author := before.requests[request].author;
      if TellsAuthor(before, request, user) && (author.value, OwnRequestLiked) !in before.muted {
        TellsOne(before, after, request, author.value, Liked(user));
      } else {
        TellsNobody(before, after, Liked(user));
      }
    }
  }

  lemma DropIsRemoved(db: Db, request: nat)
    ensures Removed(db, DropRequest(db, request), {request})
  {
  }

  lemma WithdrawIsWithdrawn(db: Db, request: nat, user: nat)
    requires Inv(db)
    ensures var r := Withdraw(db, request, user); WithdrawnFrom(db, r.0, request, user, r.1)
  {
    hide Removed, DropRequest, Inv;
    DropIsRemoved(db, request);
    if !OthersLike(db, request, user) {
      assert forall k | k in db.likes && k.0 == request :: k.1 == user;
    } else {
      var k :| k in db.likes && k.0 == request && k.1 != user;
    }
  }

  lemma SameListeners(db: Db, next: Db, requests: set<nat>)
    requires (next.users, next.likes, next.withdrawals, next.muted) == (db.users, db.likes, db.withdrawals, db.muted)
    requires next.requests.Keys == db.requests.Keys
    requires forall r | r in requests && r in db.requests :: next.requests[r].author == db.requests[r].author
    ensures Listeners(next, requests) == Listeners(db, requests)
  {
  }

  lemma ChangeIsReplaced(db: Db, request: nat, row: Request, event: Event)
    requires Inv(db) && request in db.requests && ShapedRow(row)
    requires row.author == db.requests[request].author && row.media == db.requests[request].media
    requires row.completedBy.Some? ==> row.completedBy.value in db.users
    ensures Replaced(db, NotifyInterested(WithRow(db, request, row), request, event, true), request, row, event)
  {
    hide Tells, Inv, Listeners, NotifyInterested;
    var changed := WithRow(db, request, row);
    WithRowKeepsInv(db, request, row);
    NotifyInterestedTells(changed, request, event, true);
    SameListeners(db, changed, {request});
    TellsFrom(changed, db, NotifyInterested(changed, request, event, true), Listeners(db, {request}), event, true);
  }

  lemma StatusIsSet(db: Db, request: nat, status: Status)
    requires Inv(db)
    ensures var r := SetStatus(db, request, status); StatusSet(db, r.0, request, status, r.1)
  {
    hide Replaced, NotifyInterested;
    if IsActive(db, request) {
      ChangeIsReplaced(db, request, db.requests[request].(status := status), StatusChanged(status));
    }
  }

  lemma CompletionIsRecorded(db: Db, request: nat, admin: nat, now: int)
    requires Inv(db)
    ensures var r := Complete(db, request, admin, now); CompletedBy(db, r.0, request, admin, now, r.1)
  {
    hide Replaced, NotifyInterested;
    if IsActive(db, request) && admin in db.users {
      var row := db.requests[request].(state := Completed, completedAt := Some(now), completedBy := Some(admin));
      ChangeIsReplaced(db, request, row, Done);
    }
  }

  lemma RestoreBringsBack(db: Db, request: nat)
    requires Inv(db)
    ensures var r := Restore(db, request); BroughtBack(db, r.0, request, r.1)
  {
    hide Replaced, NotifyInterested;
    if request in db.requests && db.requests[request].state.Completed? {
      var row := db.requests[request].(state := Active, status := Waiting, completedAt := None, completedBy := None);
      ChangeIsReplaced(db, request, row, Restored);
    }
  }

  lemma DeletionIsTold(db: Db, request: nat, reason: string)
    requires Inv(db)
    ensures var r := DeleteRequest(db, request, reason); DeletedFor(db, r.0, request, reason, r.1)
  {
    hide Tells, Removed, NotifyInterested, DropRequest;
    var told := NotifyInterested(db, request, Deleted(reason), false);
    NotifyInterestedTells(db, request, Deleted(reason), false);
    DropIsRemoved(told, request);
  }

  // ---- Promotions -----------------------------------------------------------

  /** The released requests with an id from `low` to below `high`. */
  function ReleasedIn(db: Db, today: int, low: nat, high: nat): (requests: set<nat>) {
    set r | r in Released(db, today) && low <= r < high
  }

  lemma AscendingBoth(first: seq<Notice>, rest: seq<Notice>, request: nat)
    requires Ascending(first) && Ascending(rest)
    requires forall i | 0 <= i < |first| :: first[i].request == request
    requires forall i | 0 <= i < |rest| :: request < rest[i].request
    ensures Ascending(first + rest)
  {
  }

  lemma HearBoth(a: set<(nat, nat)>, b: set<(nat, nat)>, first: seq<Notice>, rest: seq<Notice>, request: nat)
    requires Hear(first, a, Promoted) && Hear(rest, b, Promoted)
    requires forall k | k in a :: k.0 == request
    requires forall k | k in b :: request < k.0
    ensures Hear(first + rest, a + b, Promoted)
  {
    hide Ascending;
    forall i | 0 <= i < |first| ensures first[i].request == request {
      assert (first[i].request, first[i].to) in a;
    }
    forall i | 0 <= i < |rest| ensures request < rest[i].request {
      assert (rest[i].request, rest[i].to) in b;
    }
    AscendingBoth(first, rest, request);
  }

  lemma OneIsActivated(db: Db, request: nat) returns (added: seq<Notice>)
    requires Inv(db) && request in db.requests && db.requests[request].state == Upcoming
    ensures var next := Promote(db, request);
      && Inv(next)
      && Activated(db, next, {request})
      && Stored(db, next, added, true)
    ensures Hear(added, Listeners(db, {request}), Promoted)
  {
    hide Inv, Stored, Hear, Listeners;
    var row := db.requests[request].(state := Active, status := Waiting);
    PromoteKeepsInv(db, request);
    RowIsShaped(db, request, row);
    ChangeIsReplaced(db, request, row, Promoted);
    added := Promote(db, request).log[|db.log|..];
  }

  lemma RowIsShaped(db: Db, request: nat, row: Request)
    requires Inv(db) && request in db.requests && db.requests[request].state == Upcoming
    requires row == db.requests[request].(state := Active, status := Waiting)
    ensures ShapedRow(row)
    ensures row.completedBy.Some? ==> row.completedBy.value in db.users
  {
    assert ShapedRow(db.requests[request]);
  }

  lemma ActivatedTwice(a: Db, b: Db, c: Db, request: nat, rest: set<nat>)
    requires Activated(a, b, {request}) && Activated(b, c, rest) && request !in rest
    ensures Activated(a, c, {request} + rest)
  {
  }

  lemma StillReleased(a: Db, b: Db, today: int, request: nat, high: nat)
    requires Activated(a, b, {request})
    ensures ReleasedIn(b, today, request + 1, high) == ReleasedIn(a, today, request + 1, high)
    ensures forall requests :: Listeners(b, requests) == Listeners(a, requests)
  {
    forall requests: set<nat> ensures Listeners(b, requests) == Listeners(a, requests) {
      SameListeners(a, b, requests);
    }
  }

  lemma NothingIsActivated(db: Db)
    ensures Activated(db, db, {})
  {
  }

  lemma FirstReleased(db: Db, today: int, low: nat, high: nat)
    requires low < high
    ensures ReleasedIn(db, today, low, high)
         == (if low in Released(db, today) then {low} else {}) + ReleasedIn(db, today, low + 1, high)
    ensures Listeners(db, {low} + ReleasedIn(db, today, low + 1, high))
         == Listeners(db, {low}) + Listeners(db, ReleasedIn(db, today, low + 1, high))
  {
  }

  lemma {:induction false} PromotionsAreTold(db: Db, today: int, request: nat, bound: nat) returns (added: seq<Notice>)
    requires Inv(db)
    ensures var after := PromoteFrom(db, today, request, bound);
      && Activated(db, after, ReleasedIn(db, today, request, bound))
      && Stored(db, after, added, true)
    ensures Hear(added, Listeners(db, ReleasedIn(db, today, request, bound)), Promoted)
    decreases bound - request
  {
    hide Inv, Activated, Stored, Hear, Promote, Listeners, ReleasedIn;
    if request >= bound {
      added := [];
      NobodyIsReleased(db, today, request, bound);
      NothingIsActivated(db);
      NothingIsStored(db, true);
    } else if !Due(db, request, today) {
      FirstReleased(db, today, request, bound);
      added := PromotionsAreTold(db, today, request + 1, bound);
      assert {} + ReleasedIn(db, today, request + 1, bound) == ReleasedIn(db, today, request + 1, bound);
    } else {
      var next := Promote(db, request);
      var first := OneIsActivated(db, request);
      var rest := PromotionsAreTold(next, today, request + 1, bound);
      added := first + rest;
      StillReleased(db, next, today, request, bound);
      FirstReleased(db, today, request, bound);
      var later := ReleasedIn(db, today, request + 1, bound);
      ListenersAreOf(db, today, request, bound);
      ActivatedTwice(db, next, PromoteFrom(next, today, request + 1, bound), request, later);
      OldNotes(db);
      StoredTwice(db, next, PromoteFrom(next, today, request + 1, bound), first, rest, true);
      HearBoth(Listeners(db, {request}), Listeners(db, later), first, rest, request);
    }
  }

  lemma NobodyIsReleased(db: Db, today: int, low: nat, high: nat)
    requires low >= high
    ensures ReleasedIn(db, today, low, high) == {}
    ensures Hear([], Listeners(db, {}), Promoted)
  {
  }

  lemma ListenersAreOf(db: Db, today: int, low: nat, high: nat)
    ensures forall k | k in Listeners(db, {low}) :: k.0 == low
    ensures forall k | k in Listeners(db, ReleasedIn(db, today, low + 1, high)) :: low < k.0
    ensures low !in ReleasedIn(db, today, low + 1, high)
  {
  }

  lemma PromotionIsTold(db: Db, today: int)
    requires Inv(db)
    ensures PromotedAll(db, PromoteFrom(db, today, 0, db.nextRequest), today,
                        |set r | r in db.requests && Due(db, r, today)|)
  {
    hide Activated, Stored, Hear, Listeners;
    var after := PromoteFrom(db, today, 0, db.nextRequest);
    var added := PromotionsAreTold(db, today, 0, db.nextRequest);
    DueAreBelow(db, today);
    hide Inv;
    assert ReleasedIn(db, today, 0, db.nextRequest) == Released(db, today);
    assert Released(db, today) == set r | r in db.requests && Due(db, r, today);
    StoredIsTold(db, after, added, Listeners(db, Released(db, today)), Promoted, true);
  }

  // ---- Leaving --------------------------------------------------------------

  lemma RemovedTwice(a: Db, b: Db, c: Db, request: nat, rest: set<nat>)
    requires Removed(a, b, {request}) && Removed(b, c, rest)
    ensures Removed(a, c, {request} + rest)
  {
  }

  lemma NothingIsRemoved(db: Db)
    ensures Removed(db, db, {})
  {
  }

  /** The ids of `doomed` from `low` to below `high`. */
  function DoomedIn(doomed: set<nat>, low: nat, high: nat): (ids: set<nat>) {
    set r | r in doomed && low <= r < high
  }

  lemma {:induction false} DoomedAreRemoved(db: Db, doomed: set<nat>, request: nat)
    ensures var after := DropAll(db, doomed, request);
      && Removed(db, after, DoomedIn(doomed, request, db.nextRequest))
      && after.nextRequest == db.nextRequest
    decreases db.nextRequest - request
  {
    hide Removed, DropRequest;
    var high := db.nextRequest;
    if request >= high {
      NothingIsRemoved(db);
      assert DoomedIn(doomed, request, high) == {};
    } else {
      var next := DropDoomed(db, doomed, request);
      DropDoomedKeepsCounter(db, doomed, request);
      DoomedAreRemoved(next, doomed, request + 1);
      if request in doomed {
        DropIsRemoved(db, request);
        assert DoomedIn(doomed, request, high) == {request} + DoomedIn(doomed, request + 1, high);
        RemovedTwice(db, next, DropAll(next, doomed, request + 1), request, DoomedIn(doomed, request + 1, high));
      } else {
        assert DoomedIn(doomed, request, high) == DoomedIn(doomed, request + 1, high);
      }
    }
  }

  lemma OrphansAreLikedAlone(db: Db, user: nat)
    requires Resolved(db)
    ensures Orphans(db, user) == LikedAlone(db, user)
    ensures DoomedIn(Orphans(db, user), 0, db.nextRequest) == Orphans(db, user)
  {
    forall r | r in Orphans(db, user) ensures r in LikedAlone(db, user) {
      assert (r, user) in db.likes && !OthersLike(db, r, user);
    }
    forall r | r in LikedAlone(db, user) ensures r in Orphans(db, user) {
      assert (r, user) in db.likes && (r, user).0 == r;
      assert !OthersLike(db, r, user);
    }
  }

  lemma DropVanishes(db: Db, user: nat)
    ensures Vanished(db, DropUser(db, user), user)
  {
  }

  lemma DeletionIsOfAccount(db: Db, user: nat)
    requires Inv(db)
    ensures var r := DeleteUser(db, user); AccountDeleted(db, r.0, user, r.1)
  {
    hide Removed, Vanished, DropUser, DropAll;
    OrphansAreLikedAlone(db, user);
    DoomedAreRemoved(db, Orphans(db, user), 0);
    DropVanishes(DropAll(db, Orphans(db, user), 0), user);
  }

  // ---- Roles ----------------------------------------------------------------

  /** Without an administrator the preferred account becomes one, active, or is created
      as one; with one nothing changes. */
  ghost predicate RolesEnforced(before: Db, after: Db, preferred: string, valid: bool, result: Result<()>) {
    if exists u | u in before.users :: before.users[u].admin then after == before && result == Ok(())
    else if exists u | u in before.users :: before.users[u].name == preferred then
      && result == Ok(())
      && after == before.(users := after.users)
      && after.users.Keys == before.users.Keys
      && forall u | u in before.users ::
           after.users[u] == if before.users[u].name == preferred then User(preferred, true, true) else before.users[u]
    else if valid then
      && result == Ok(())
      && before.nextUser !in before.users
      && after == before.(users := before.users[before.nextUser := User(preferred, true, true)],
                          nextUser := before.nextUser + 1)
    else after == before && result == Err(BadCredentials)
  }

  lemma RolesAreEnforced(db: Db, preferred: string, valid: bool)
    requires Inv(db)
    ensures var r := EnforceRoles(db, preferred, valid); RolesEnforced(db, r.0, preferred, valid, r.1)
  {
    IdsAreBelow(db);
    if !HasAdmin(db) {
      var found := FindName(db, preferred, db.nextUser);
      if found.Some? {
        NamesAreDistinct(db, found.value);
      }
      hide Inv;
    }
  }

  lemma NamesAreDistinct(db: Db, user: nat)
    requires Inv(db) && user in db.users
    ensures forall u | u in db.users && db.users[u].name == db.users[user].name :: u == user
  {
  }
}
