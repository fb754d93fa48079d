/**
 The joint invariant of all steps of the request repository, from an empty
 database on: keys, states, references, participation and roles.
 */
module RequestInvariants {
  import opened Wrappers
  import opened RequestStatus
  import opened Requests

  /** Every reference resolves, after every cascade. */
  ghost predicate Resolved(db: Db) {
    && (forall u | u in db.users :: u < db.nextUser)
    && (forall r | r in db.requests :: r < db.nextRequest)
    && (forall n | n in db.notes :: n < db.nextNote)
    && (forall r | r in db.requests && db.requests[r].author.Some? :: db.requests[r].author.value in db.users)
    && (forall r | r in db.requests && db.requests[r].completedBy.Some? :: db.requests[r].completedBy.value in db.users)
    && (forall k | k in db.likes :: k.0 in db.requests && k.1 in db.users)
    && (forall k | k in db.withdrawals :: k.0 in db.requests && k.1 in db.users)
    && (forall k | k in db.history :: k.0 in db.requests && k.1 in db.users)
    && (forall k | k in db.muted :: k.0 in db.users)
    && (forall n | n in db.notes :: db.notes[n].user in db.users)
    && (forall n | n in db.notes && db.notes[n].request.Some? :: db.notes[n].request.value in db.requests)
  }

  predicate ShapedRow(row: Request) {
    && (row.state.Completed? <==> row.completedAt.Some?)
    && (row.completedBy.Some? ==> row.state.Completed?)
    && (row.state.Upcoming? ==> row.status.Waiting?)
  }

  ghost predicate Shaped(db: Db) {
    forall r | r in db.requests :: ShapedRow(db.requests[r])
  }

  ghost predicate UniqueMedia(db: Db) {
    forall r, q | r in db.requests && q in db.requests
      && SameMedia(db.requests[r].media, db.requests[q].media) :: r == q
  }

  /** An author has a like or a withdrawal; only an author can have a withdrawal. */
  ghost predicate Participating(db: Db) {
    && (forall r | r in db.requests && db.requests[r].author.Some? ::
          (r, db.requests[r].author.value) in db.likes || (r, db.requests[r].author.value) in db.withdrawals)
    && (forall k | k in db.withdrawals :: k.0 in db.requests && db.requests[k.0].author == Some(k.1))
  }

  ghost predicate Roles(db: Db) {
    && (forall u, v | u in db.users && v in db.users && db.users[u].name == db.users[v].name :: u == v)
    && (forall u, v | u in db.users && v in db.users && db.users[u].admin && db.users[v].admin :: u == v)
    && (forall u | u in db.users && db.users[u].admin :: db.users[u].active)
  }

  ghost predicate Inv(db: Db) {
    Resolved(db) && Shaped(db) && UniqueMedia(db) && Participating(db) && Roles(db)
  }

  // ---- Notifying ------------------------------------------------------------

  /** Every notice goes to an existing user about an existing request. */
  ghost predicate Addressed(db: Db, notices: seq<Notice>) {
    forall notice | notice in notices :: notice.to in db.users && notice.request in db.requests
  }

  lemma NotifiedKeepsInv(before: Db, after: Db, added: seq<Notice>)
    requires Inv(before) && Notified(before, after, added) && Addressed(before, added)
    ensures Inv(after)
  {
    forall n | n in after.notes
      ensures n < after.nextNote && after.notes[n].user in after.users
      ensures after.notes[n].request.Some? ==> after.notes[n].request.value in after.requests
    {
      if n !in before.notes {
        var notice :| notice in added && Records(after.notes[n], notice);
      }
    }
  }

  lemma {:induction false} NoticesAreAddressed(db: Db, request: nat, event: Event, user: nat)
    requires Resolved(db)
    ensures Addressed(db, Notices(db, request, event, user))
    ensures forall notice | notice in Notices(db, request, event, user) ::
      && notice.to >= user && notice.request == request && notice.event == event && Interested(db, request, notice.to)
    decreases db.nextUser - user
  {
    if user < db.nextUser {
      NoticesAreAddressed(db, request, event, user + 1);
    }
  }

  lemma NotifyInterestedKeepsInv(db: Db, request: nat, event: Event, linked: bool)
    requires Inv(db)
    ensures Inv(NotifyInterested(db, request, event, linked))
    ensures Notified(db, NotifyInterested(db, request, event, linked), Notices(db, request, event, 0))
  {
    NotifyFromIsNotified(db, request, event, linked, 0);
    NoticesAreAddressed(db, request, event, 0);
    NotifiedKeepsInv(db, NotifyInterested(db, request, event, linked), Notices(db, request, event, 0));
  }

  lemma NothingIsNotified(db: Db)
    ensures Notified(db, db, [])
  {
    assert db.log + [] == db.log;
  }

  /** The administrator notice of one account. */
  lemma OneAdminIsTold(db: Db, request: nat, author: nat, user: nat) returns (next: Db, first: seq<Notice>)
    requires forall n | n in db.notes :: n < db.nextNote
    ensures next == if user in db.users && db.users[user].admin && db.users[user].active && user != author
      then Notify(db, user, AdminNewRequest, NewRequest, request, true) else db
    ensures Notified(db, next, first) && forall n | n in next.notes :: n < next.nextNote
    ensures next.users == db.users && next.nextUser == db.nextUser
    ensures first == [] || first == [Notice(user, NewRequest, request)]
    ensures first != [] ==> user != author && user in db.users && db.users[user].admin && db.users[user].active
  {
    var told := user in db.users && db.users[user].admin && db.users[user].active && user != author;
    next := if told then Notify(db, user, AdminNewRequest, NewRequest, request, true) else db;
    first := if told && (user, AdminNewRequest) !in db.muted then [Notice(user, NewRequest, request)] else [];
    NotifyIsNotified(db, user, AdminNewRequest, NewRequest, request, true);
  }

  /** The notices of a new request go to active administrators other than its author. */
  lemma {:induction false} NotifyAdminsIsNotified(
    db: Db, request: nat, author: nat, user: nat)
    returns (added: seq<Notice>)
    requires forall n | n in db.notes :: n < db.nextNote
    ensures Notified(db, NotifyAdmins(db, request, author, user), added)
    ensures forall i, j | 0 <= i < j < |added| :: added[i] != added[j]
    ensures forall notice | notice in added ::
      && notice.event == NewRequest && notice.request == request && notice.to != author && notice.to >= user
      && notice.to in db.users && db.users[notice.to].admin && db.users[notice.to].active
    decreases db.nextUser - user
  {
    hide Notified, Notify;
    if user >= db.nextUser {
      added := [];
      NothingIsNotified(db);
    } else {
      var next, first := OneAdminIsTold(db, request, author, user);
      var rest := NotifyAdminsIsNotified(next, request, author, user + 1);
      NotifiedTwice(db, next, NotifyAdmins(db, request, author, user), first, rest);
      added := first + rest;
    }
  }

  // ---- Steps ----------------------------------------------------------------

  lemma DropRequestIsResolved(db: Db, request: nat)
    requires Resolved(db)
    ensures Resolved(DropRequest(db, request))
  {
  }

  lemma DropRequestIsParticipating(db: Db, request: nat)
    requires Participating(db)
    ensures Participating(DropRequest(db, request))
  {
  }

  lemma DropRequestKeepsRows(db: Db, request: nat)
    requires UniqueMedia(db) && Shaped(db) && Roles(db)
    ensures UniqueMedia(DropRequest(db, request)) && Shaped(DropRequest(db, request)) && Roles(DropRequest(db, request))
  {
    RowsStayUnique(db, DropRequest(db, request));
  }

  lemma DropRequestKeepsInv(db: Db, request: nat)
    requires Inv(db)
    ensures Inv(DropRequest(db, request))
  {
    DropRequestIsResolved(db, request);
    DropRequestIsParticipating(db, request);
    DropRequestKeepsRows(db, request);
    hide Resolved, Participating, UniqueMedia, Shaped, Roles;
  }

  lemma RowsStayUnique(before: Db, after: Db)
    requires UniqueMedia(before)
    requires forall r | r in after.requests ::
      r in before.requests && SameMedia(after.requests[r].media, before.requests[r].media)
    ensures UniqueMedia(after)
  {
    forall r, q | r in after.requests && q in after.requests
      && SameMedia(after.requests[r].media, after.requests[q].media)
      ensures r == q
    {
      assert SameMedia(before.requests[r].media, before.requests[q].media);
    }
  }

  lemma OthersRemain(db: Db, user: nat)
    ensures var next := DropUser(db, user);
      && (forall k | k in next.likes :: k in db.likes && k.1 != user)
      && (forall k | k in next.withdrawals :: k in db.withdrawals && k.1 != user)
      && (forall k | k in next.history :: k in db.history && k.1 != user)
      && (forall k | k in next.muted :: k in db.muted && k.0 != user)
      && (forall n | n in next.notes :: n in db.notes && next.notes[n] == db.notes[n] && db.notes[n].user != user)
      && next.requests.Keys == db.requests.Keys
      && (forall r | r in next.requests ::
            && next.requests[r].author == Forget(db.requests[r].author, user)
            && next.requests[r].completedBy == Forget(db.requests[r].completedBy, user))
  {
  }

  lemma DropUserIsResolved(db: Db, user: nat)
    requires Resolved(db)
    ensures Resolved(DropUser(db, user))
  {
    OthersRemain(db, user);
    hide LikesByOthers, OfOthers, NotesToOthers, Anonymised;
    assert DropUser(db, user).users == db.users - {user};
  }

  lemma DropUserIsParticipating(db: Db, user: nat)
    requires Participating(db)
    ensures Participating(DropUser(db, user))
  {
  }

  lemma DropUserKeepsRows(db: Db, user: nat)
    requires UniqueMedia(db) && Shaped(db) && Roles(db)
    ensures UniqueMedia(DropUser(db, user)) && Shaped(DropUser(db, user)) && Roles(DropUser(db, user))
  {
    RowsStayUnique(db, DropUser(db, user));
  }

  lemma DropUserKeepsInv(db: Db, user: nat)
    requires Inv(db)
    ensures Inv(DropUser(db, user))
  {
    DropUserIsResolved(db, user);
    DropUserIsParticipating(db, user);
    DropUserKeepsRows(db, user);
  }

  lemma WithRowIsResolved(db: Db, request: nat, row: Request)
    requires Resolved(db) && request in db.requests && row.author == db.requests[request].author
    requires row.completedBy.Some? ==> row.completedBy.value in db.users
    ensures Resolved(WithRow(db, request, row))
  {
  }

  lemma WithRowIsParticipating(db: Db, request: nat, row: Request)
    requires Participating(db) && request in db.requests && row.author == db.requests[request].author
    ensures Participating(WithRow(db, request, row))
  {
  }

  lemma WithRowKeepsRows(db: Db, request: nat, row: Request)
    requires UniqueMedia(db) && Shaped(db) && request in db.requests && ShapedRow(row)
    requires SameMedia(row.media, db.requests[request].media)
    ensures UniqueMedia(WithRow(db, request, row)) && Shaped(WithRow(db, request, row))
  {
    RowsStayUnique(db, WithRow(db, request, row));
  }

  lemma WithRowKeepsInv(db: Db, request: nat, row: Request)
    requires Inv(db) && request in db.requests && ShapedRow(row)
    requires SameMedia(row.media, db.requests[request].media) && row.author == db.requests[request].author
    requires row.completedBy.Some? ==> row.completedBy.value in db.users
    ensures Inv(WithRow(db, request, row))
  {
    WithRowIsResolved(db, request, row);
    WithRowIsParticipating(db, request, row);
    WithRowKeepsRows(db, request, row);
    assert Roles(WithRow(db, request, row));
  }

  lemma InsertedIsResolved(db: Db, media: Media, user: nat, today: int, now: int)
    requires Resolved(db) && user in db.users
    ensures Resolved(Inserted(db, media, user, today, now))
  {
  }

  lemma InsertedIsUnique(db: Db, media: Media, user: nat, today: int, now: int)
    requires Resolved(db) && UniqueMedia(db) && FindMedia(db, media, db.nextRequest).None?
    ensures UniqueMedia(Inserted(db, media, user, today, now))
  {
  }

  lemma InsertedIsParticipating(db: Db, media: Media, user: nat, today: int, now: int)
    requires Resolved(db) && Participating(db)
    ensures Participating(Inserted(db, media, user, today, now))
  {
  }

  lemma InsertedIsShaped(db: Db, media: Media, user: nat, today: int, now: int)
    requires Shaped(db) && Roles(db)
    ensures Shaped(Inserted(db, media, user, today, now)) && Roles(Inserted(db, media, user, today, now))
  {
  }

  lemma InsertedKeepsInv(db: Db, media: Media, user: nat, today: int, now: int)
    requires Inv(db) && user in db.users && FindMedia(db, media, db.nextRequest).None?
    ensures Inv(Inserted(db, media, user, today, now))
  {
    InsertedIsResolved(db, media, user, today, now);
    InsertedIsUnique(db, media, user, today, now);
    InsertedIsParticipating(db, media, user, today, now);
    InsertedIsShaped(db, media, user, today, now);
  }

  /** Likes, withdrawals and first likes that resolve and still show who takes part. */
  lemma ParticipantsKeepInv(db: Db, next: Db)
    requires Inv(db) && next == db.(likes := next.likes, withdrawals := next.withdrawals, history := next.history)
    requires forall k | k in next.likes :: k.0 in db.requests && k.1 in db.users
    requires forall k | k in next.withdrawals :: k.0 in db.requests && k.1 in db.users
    requires forall k | k in next.history :: k.0 in db.requests && k.1 in db.users
    requires Participating(next)
    ensures Inv(next)
  {
    assert Resolved(next);
    assert UniqueMedia(next);
    assert Roles(next);
  }

  lemma AdminNoticesKeepInv(db: Db, request: nat, author: nat)
    requires Inv(db) && request in db.requests
    ensures Inv(NotifyAdmins(db, request, author, 0))
  {
    var added := NotifyAdminsIsNotified(db, request, author, 0);
    assert Addressed(db, added);
    NotifiedKeepsInv(db, NotifyAdmins(db, request, author, 0), added);
  }

  lemma CreateKeepsInv(db: Db, media: Media, user: nat, today: int, now: int)
    requires Inv(db)
    ensures Inv(CreateRequest(db, media, user, today, now).0)
  {
    if user in db.users {
      var found := FindMedia(db, media, db.nextRequest);
      if found.None? {
        InsertedKeepsInv(db, media, user, today, now);
        AdminNoticesKeepInv(Inserted(db, media, user, today, now), db.nextRequest, user);
      } else {
        MoreLikesKeepInv(db, found.value, user, now);
      }
    }
    hide Inv;
  }

  lemma MoreLikesKeepInv(db: Db, request: nat, user: nat, now: int)
    requires Inv(db) && request in db.requests && user in db.users
    ensures Inv(db.(likes := db.likes[(request, user) := now]))
  {
    ParticipantsKeepInv(db, db.(likes := db.likes[(request, user) := now]));
  }

  lemma RememberingKeepsInv(db: Db, request: nat, liker: nat)
    requires Inv(db) && request in db.requests && liker in db.users
    ensures Inv(db.(history := db.history + {(request, liker)}))
  {
    ParticipantsKeepInv(db, db.(history := db.history + {(request, liker)}));
  }

  lemma TellingKeepsInv(db: Db, to: nat, event: Event, request: nat)
    requires Inv(db) && request in db.requests && to in db.users
    ensures Inv(Notify(db, to, OwnRequestLiked, event, request, true))
  {
    NotifyIsNotified(db, to, OwnRequestLiked, event, request, true);
    var added := if (to, OwnRequestLiked) in db.muted then [] else [Notice(to, event, request)];
    NotifiedKeepsInv(db, Notify(db, to, OwnRequestLiked, event, request, true), added);
  }

  lemma FirstLikeKeepsInv(db: Db, to: nat, request: nat, liker: nat)
    requires Inv(db) && request in db.requests && to in db.users && liker in db.users
    ensures var told := Notify(db, to, OwnRequestLiked, Liked(liker), request, true);
      Inv(told.(history := db.history + {(request, liker)}))
  {
    TellingKeepsInv(db, to, Liked(liker), request);
    RememberingKeepsInv(Notify(db, to, OwnRequestLiked, Liked(liker), request, true), request, liker);
  }

  lemma TellAuthorKeepsInv(db: Db, request: nat, liker: nat)
    requires Inv(db) && request in db.requests && liker in db.users
    ensures Inv(TellAuthor(db, request, liker))
  {
    if db.requests[request].author.Some? {
      FirstLikeKeepsInv(db, db.requests[request].author.value, request, liker);
    }
  }

  lemma UnlikeIsParticipating(db: Db, request: nat, user: nat)
    requires Participating(db) && request in db.requests && db.requests[request].author != Some(user)
    ensures Participating(db.(likes := db.likes - {(request, user)}))
  {
  }

  lemma UnlikeKeepsInv(db: Db, request: nat, user: nat)
    requires Inv(db) && request in db.requests && db.requests[request].author != Some(user)
    ensures Inv(db.(likes := db.likes - {(request, user)}))
  {
    UnlikeIsParticipating(db, request, user);
    hide Participating, UniqueMedia, Roles, Shaped;
    ParticipantsKeepInv(db, db.(likes := db.likes - {(request, user)}));
  }

  lemma ToggleKeepsInv(db: Db, request: nat, user: nat, now: int)
    requires Inv(db)
    ensures Inv(ToggleLike(db, request, user, now).0)
  {
    hide Inv, TellAuthor, LikesOf;
    var outcome := ToggleLike(db, request, user, now).1;
    if outcome.Ok? && outcome.value.liked {
      MoreLikesKeepInv(db, request, user, now);
      TellAuthorKeepsInv(db.(likes := db.likes[(request, user) := now]), request, user);
    } else if outcome.Ok? {
      UnlikeKeepsInv(db, request, user);
    }
  }

  lemma LeavingKeepsInv(db: Db, request: nat, user: nat)
    requires Inv(db) && request in db.requests && db.requests[request].author == Some(user)
    ensures Inv(db.(likes := db.likes - {(request, user)}, withdrawals := db.withdrawals + {(request, user)}))
  {
    var key := (request, user);
    ParticipantsKeepInv(db, db.(likes := db.likes - {key}, withdrawals := db.withdrawals + {key}));
  }

  lemma WithdrawKeepsInv(db: Db, request: nat, user: nat)
    requires Inv(db)
    ensures Inv(Withdraw(db, request, user).0)
  {
    hide Inv;
    var outcome := Withdraw(db, request, user).1;
    if outcome == Ok(RequestDeleted) {
      DropRequestKeepsInv(db, request);
    } else if outcome == Ok(ParticipationRemoved) {
      LeavingKeepsInv(db, request, user);
    }
  }

  lemma PromoteKeepsInv(db: Db, request: nat)
    requires Inv(db) && request in db.requests && db.requests[request].state.Upcoming?
    ensures Inv(Promote(db, request))
  {
    var row := db.requests[request].(state := Active, status := Waiting);
    WithRowKeepsInv(db, request, row);
    NotifyInterestedKeepsInv(WithRow(db, request, row), request, Promoted, true);
  }

  lemma {:induction false} PromoteFromKeepsInv(db: Db, today: int, request: nat, bound: nat)
    requires Inv(db)
    ensures Inv(PromoteFrom(db, today, request, bound))
    decreases bound - request
  {
    if request < bound {
      if Due(db, request, today) {
        PromoteKeepsInv(db, request);
        PromoteFromKeepsInv(Promote(db, request), today, request + 1, bound);
      } else {
        PromoteFromKeepsInv(db, today, request + 1, bound);
      }
    }
  }

  lemma DueAreBelow(db: Db, today: int)
    requires Inv(db)
    ensures DueBelow(db, today, db.nextRequest) == set r | r in db.requests && Due(db, r, today)
    ensures forall r | r in db.requests :: r < db.nextRequest
  {
  }

  lemma IdsAreBelow(db: Db)
    requires Inv(db)
    ensures forall u | u in db.users :: u < db.nextUser
  {
  }

  lemma DueCountGrows(db: Db, today: int, request: nat)
    ensures |DueBelow(db, today, request + 1)|
         == |DueBelow(db, today, request)| + if Due(db, request, today) then 1 else 0
  {
    if Due(db, request, today) {
      assert DueBelow(db, today, request + 1) == DueBelow(db, today, request) + {request};
    } else {
      assert DueBelow(db, today, request + 1) == DueBelow(db, today, request);
    }
  }

  /** A new row of a request, announced to the interested users. */
  lemma ChangeKeepsInv(db: Db, request: nat, row: Request, event: Event)
    requires Inv(db) && request in db.requests && ShapedRow(row)
    requires SameMedia(row.media, db.requests[request].media) && row.author == db.requests[request].author
    requires row.completedBy.Some? ==> row.completedBy.value in db.users
    ensures Inv(NotifyInterested(WithRow(db, request, row), request, event, true))
  {
    WithRowKeepsInv(db, request, row);
    NotifyInterestedKeepsInv(WithRow(db, request, row), request, event, true);
  }

  lemma SetStatusKeepsInv(db: Db, request: nat, status: Status)
    requires Inv(db)
    ensures Inv(SetStatus(db, request, status).0)
  {
    if IsActive(db, request) {
      ChangeKeepsInv(db, request, db.requests[request].(status := status), StatusChanged(status));
    }
  }

  lemma CompleteKeepsInv(db: Db, request: nat, admin: nat, now: int)
    requires Inv(db)
    ensures Inv(Complete(db, request, admin, now).0)
  {
    if IsActive(db, request) && admin in db.users {
      var row := db.requests[request];
      ChangeKeepsInv(db, request, row.(state := Completed, completedAt := Some(now), completedBy := Some(admin)), Done);
    }
  }

  lemma RestoreKeepsInv(db: Db, request: nat)
    requires Inv(db)
    ensures Inv(Restore(db, request).0)
  {
    if request in db.requests {
      var row := db.requests[request];
      var restored := row.(state := Active, status := Waiting, completedAt := None, completedBy := None);
      ChangeKeepsInv(db, request, restored, Restored);
    }
  }

  lemma DeleteKeepsInv(db: Db, request: nat, reason: string)
    requires Inv(db)
    ensures Inv(DeleteRequest(db, request, reason).0)
  {
    hide Resolved, Shaped, UniqueMedia, Participating, Roles, DropRequest;
    NotifyInterestedKeepsInv(db, request, Deleted(reason), false);
    DropRequestKeepsInv(NotifyInterested(db, request, Deleted(reason), false), request);
  }

  lemma RefreshKeepsInv(db: Db, request: nat, release: Option<int>)
    requires Inv(db)
    ensures Inv(Refresh(db, request, release))
  {
    if request in db.requests {
      var row := db.requests[request];
      WithRowKeepsInv(db, request, row.(media := row.media.(release := release)));
    }
  }

  lemma DropDoomedKeepsInv(db: Db, doomed: set<nat>, request: nat)
    requires Inv(db)
    ensures Inv(DropDoomed(db, doomed, request))
  {
    DropRequestKeepsInv(db, request);
  }

  lemma DropDoomedKeepsCounter(db: Db, doomed: set<nat>, request: nat)
    ensures DropDoomed(db, doomed, request).nextRequest == db.nextRequest
  {
  }

  lemma {:induction false} DropAllKeepsInv(db: Db, doomed: set<nat>, request: nat)
    requires Inv(db)
    ensures Inv(DropAll(db, doomed, request))
    decreases db.nextRequest - request
  {
    hide Inv, DropDoomed;
    if request < db.nextRequest {
      DropDoomedKeepsInv(db, doomed, request);
      DropDoomedKeepsCounter(db, doomed, request);
      DropAllKeepsInv(DropDoomed(db, doomed, request), doomed, request + 1);
    }
  }

  /** Accounts whose names stay distinct and at most one of whom is an active admin. */
  lemma UsersKeepInv(db: Db, users: map<nat, User>, nextUser: nat)
    requires Inv(db) && db.users.Keys <= users.Keys && Roles(db.(users := users))
    requires forall u | u in users :: u < nextUser
    ensures Inv(db.(users := users, nextUser := nextUser))
  {
    var next := db.(users := users, nextUser := nextUser);
    assert Resolved(next);
    assert Participating(next);
  }

  lemma WithUserKeepsRoles(db: Db, user: nat, row: User)
    requires Roles(db)
    requires if user in db.users then row.name == db.users[user].name else !Named(db, row.name)
    requires row.admin ==> row.active && (HasAdmin(db) ==> user in db.users && db.users[user].admin)
    ensures Roles(WithUser(db, user, row))
  {
  }

  lemma ChangedUserKeepsInv(db: Db, user: nat, row: User)
    requires Inv(db) && user in db.users && row.name == db.users[user].name
    requires row.admin ==> row.active && (HasAdmin(db) ==> db.users[user].admin)
    ensures Inv(WithUser(db, user, row))
  {
    WithUserKeepsRoles(db, user, row);
    UsersKeepInv(db, db.users[user := row], db.nextUser);
  }

  lemma AddedUserKeepsInv(db: Db, row: User)
    requires Inv(db) && !Named(db, row.name) && (row.admin ==> row.active && !HasAdmin(db))
    ensures Inv(AddUser(db, row))
  {
    WithUserKeepsRoles(db, db.nextUser, row);
    UsersKeepInv(db, db.users[db.nextUser := row], db.nextUser + 1);
  }

  lemma EnforceKeepsInv(db: Db, preferred: string, valid: bool)
    requires Inv(db)
    ensures Inv(EnforceRoles(db, preferred, valid).0)
  {
    if !HasAdmin(db) {
      var found := FindName(db, preferred, db.nextUser);
      if found.Some? {
        ChangedUserKeepsInv(db, found.value, db.users[found.value].(admin := true, active := true));
      } else if valid {
        AddedUserKeepsInv(db, User(preferred, true, true));
      }
    }
  }

  lemma CreateUserKeepsInv(db: Db, name: string, valid: bool)
    requires Inv(db)
    ensures Inv(CreateUser(db, name, valid).0)
  {
    if valid && !Named(db, name) {
      AddedUserKeepsInv(db, User(name, false, true));
    }
  }

  lemma RenameKeepsRoles(db: Db, user: nat, name: string)
    requires Roles(db) && user in db.users
    requires forall u | u in db.users && u != user :: db.users[u].name != name
    ensures Roles(WithUser(db, user, db.users[user].(name := name)))
  {
  }

  lemma RenameKeepsInv(db: Db, user: nat, name: string, valid: bool)
    requires Inv(db)
    ensures Inv(Rename(db, user, name, valid).0)
  {
    if Rename(db, user, name, valid).1.Ok? {
      RenameKeepsRoles(db, user, name);
      UsersKeepInv(db, db.users[user := db.users[user].(name := name)], db.nextUser);
    }
  }

  lemma SetActiveKeepsInv(db: Db, user: nat, active: bool)
    requires Inv(db)
    ensures Inv(SetActive(db, user, active).0)
  {
    if SetActive(db, user, active).1.Ok? {
      ChangedUserKeepsInv(db, user, db.users[user].(active := active));
    }
  }

  lemma TransferKeepsInv(db: Db, user: nat)
    requires Inv(db)
    ensures Inv(TransferAdmin(db, user).0)
  {
    var next := TransferAdmin(db, user).0;
    UsersKeepInv(db, next.users, next.nextUser);
  }

  lemma DeleteUserKeepsInv(db: Db, user: nat)
    requires Inv(db)
    ensures Inv(DeleteUser(db, user).0)
  {
    DropAllKeepsInv(db, Orphans(db, user), 0);
    DropUserKeepsInv(DropAll(db, Orphans(db, user), 0), user);
  }

  lemma PreferenceKeepsInv(db: Db, user: nat, preference: Preference, enabled: bool)
    requires Inv(db)
    ensures Inv(SetPreference(db, user, preference, enabled))
  {
    var next := SetPreference(db, user, preference, enabled);
    assert Resolved(next);
    assert UniqueMedia(next);
    assert Participating(next);
  }

  lemma DeleteNoteKeepsInv(db: Db, note: nat)
    requires Inv(db)
    ensures Inv(db.(notes := db.notes - {note}))
  {
    var next := db.(notes := db.notes - {note});
    assert Resolved(next);
    assert UniqueMedia(next);
    assert Participating(next);
  }

  predicate AboutAccounts(op: Op) {
    || op.OpEnforceRoles? || op.OpCreateUser? || op.OpRename? || op.OpSetActive? || op.OpTransferAdmin?
    || op.OpDeleteUser? || op.OpSetPreference? || op.OpDeleteNote?
  }

  lemma AccountStepKeepsInv(db: Db, op: Op)
    requires Inv(db) && AboutAccounts(op)
    ensures Inv(Step(db, op))
  {
    hide Inv, EnforceRoles, CreateUser, Rename, SetActive, TransferAdmin, DeleteUser, SetPreference;
    hide CreateRequest, ToggleLike, Withdraw, SetStatus, Complete, Restore, DeleteRequest, Refresh, PromoteFrom;
    match op
    case OpEnforceRoles(preferred, valid) => EnforceKeepsInv(db, preferred, valid);
    case OpCreateUser(name, valid) => CreateUserKeepsInv(db, name, valid);
    case OpRename(user, name, valid) => RenameKeepsInv(db, user, name, valid);
    case OpSetActive(user, active) => SetActiveKeepsInv(db, user, active);
    case OpTransferAdmin(user) => TransferKeepsInv(db, user);
    case OpDeleteUser(user) => DeleteUserKeepsInv(db, user);
    case OpSetPreference(user, preference, enabled) => PreferenceKeepsInv(db, user, preference, enabled);
    case OpDeleteNote(note) => DeleteNoteKeepsInv(db, note);
  }

  /** The joint invariant: every step keeps it. */
  lemma StepKeepsInv(db: Db, op: Op)
    requires Inv(db)
    ensures Inv(Step(db, op))
  {
    hide Inv, EnforceRoles, CreateUser, Rename, SetActive, TransferAdmin, DeleteUser, SetPreference;
    hide CreateRequest, ToggleLike, Withdraw, SetStatus, Complete, Restore, DeleteRequest, Refresh, PromoteFrom;
    match op
    case OpCreate(media, user, today, now) => CreateKeepsInv(db, media, user, today, now);
    case OpToggle(request, user, now) => ToggleKeepsInv(db, request, user, now);
    case OpWithdraw(request, user) => WithdrawKeepsInv(db, request, user);
    case OpSetStatus(request, status) => SetStatusKeepsInv(db, request, status);
    case OpComplete(request, admin, now) => CompleteKeepsInv(db, request, admin, now);
    case OpRestore(request) => RestoreKeepsInv(db, request);
    case OpDelete(request, reason) => DeleteKeepsInv(db, request, reason);
    case OpPromote(today) => PromoteFromKeepsInv(db, today, 0, db.nextRequest);
    case OpRefresh(request, release) => RefreshKeepsInv(db, request, release);
    case _ => AccountStepKeepsInv(db, op);
  }
}
