/**
 What a step of the request repository may change, whom it may tell and what, and
 that the joint invariant holds after every run.
 */
module RequestHistory {
  import opened Wrappers
  import opened RequestStatus
  import opened Requests
  import opened RequestInvariants

  // ---- The invariant over runs ----------------------------------------------

  lemma {:induction false} RunKeepsInv(db: Db, ops: seq<Op>)
    requires Inv(db)
    ensures Inv(Run(db, ops))
    decreases |ops|
  {
    if ops != [] {
      StepKeepsInv(db, ops[0]);
      RunKeepsInv(Step(db, ops[0]), ops[1..]);
    }
  }

  /** From an empty database every run keeps keys unique, states consistent,
      references resolved, participation recorded and roles proper. */
  lemma EveryRunKeepsInv(ops: seq<Op>)
    ensures Inv(Run(EMPTY_DB, ops))
  {
    RunKeepsInv(EMPTY_DB, ops);
  }

  // ---- One step -------------------------------------------------------------

  /** How the rows of a request may differ after a step. */
  predicate RowEvolves(before: Request, after: Request) {
    && (after.state.Upcoming? ==> before.state.Upcoming?)
    && (after.author == before.author || after.author.None?)
    && SameMedia(after.media, before.media)
    && after.createdAt == before.createdAt
  }

  /** What no step undoes: ids are never reused, a withdrawal or a told like stays
      as long as its request and account, an administrator stays. */
  ghost predicate Evolves(before: Db, after: Db) {
    && before.nextUser <= after.nextUser
    && before.nextRequest <= after.nextRequest
    && (forall u | u in after.users && u !in before.users :: before.nextUser <= u)
    && (forall r | r in after.requests && r !in before.requests :: before.nextRequest <= r)
    && (forall r | r in after.requests && r in before.requests :: RowEvolves(before.requests[r], after.requests[r]))
    && (forall k | k in before.withdrawals && k.0 in after.requests && k.1 in after.users :: k in after.withdrawals)
    && (forall k | k in before.history && k.0 in after.requests && k.1 in after.users :: k in after.history)
    && (after.users == before.users || (HasAdmin(before) ==> HasAdmin(after)))
  }

  /** Whom a step may tell what. */
  ghost predicate Told(before: Db, after: Db, notice: Notice) {
    match notice.event
    case NewRequest => notice.request == before.nextRequest < after.nextRequest
    case Liked(liker) =>
      && notice.request in before.requests
      && before.requests[notice.request].author == Some(notice.to)
      && notice.to != liker
      && (notice.request, notice.to) !in before.withdrawals
      && liker in before.users
      && (notice.request, liker) !in before.history
      && (notice.request, liker) in after.history
    case Promoted =>
      && Interested(before, notice.request, notice.to)
      && before.requests[notice.request].state.Upcoming?
      && notice.request in after.requests
      && !after.requests[notice.request].state.Upcoming?
    case _ => Interested(before, notice.request, notice.to)
  }

  /** A step changes the tables within `Evolves` and adds `added` to the log. */
  ghost predicate Moves(before: Db, after: Db, added: seq<Notice>) {
    && Evolves(before, after)
    && after.log == before.log + added
    && (forall notice | notice in added :: Told(before, after, notice))
    && (forall i, j | 0 <= i < j < |added| :: added[i] != added[j])
    && (forall notice | notice in added && notice.event.Liked? :: |added| == 1)
  }

  lemma {:induction false} NoticesAreDistinct(db: Db, request: nat, event: Event, user: nat)
    requires Resolved(db)
    ensures forall i, j | 0 <= i < j < |Notices(db, request, event, user)| ::
      Notices(db, request, event, user)[i] != Notices(db, request, event, user)[j]
    decreases db.nextUser - user
  {
    if user < db.nextUser {
      NoticesAreDistinct(db, request, event, user + 1);
      NoticesAreAddressed(db, request, event, user + 1);
    }
  }

  /** A silent step. */
  lemma QuietMove(before: Db, after: Db)
    requires Evolves(before, after) && after.log == before.log
    ensures Moves(before, after, [])
  {
  }

  lemma WithRowEvolves(db: Db, request: nat, row: Request, after: Db, added: seq<Notice>)
    requires request in db.requests && RowEvolves(db.requests[request], row)
    requires Notified(WithRow(db, request, row), after, added)
    ensures Evolves(db, after) && after.log == db.log + added
  {
  }

  /** A new row of a request, announced to the interested users. */
  lemma ChangeMoves(db: Db, request: nat, row: Request, event: Event) returns (added: seq<Notice>)
    requires Inv(db) && request in db.requests && RowEvolves(db.requests[request], row) && ShapedRow(row)
    requires row.author == db.requests[request].author && !event.NewRequest? && !event.Liked?
    requires row.completedBy.Some? ==> row.completedBy.value in db.users
    requires event.Promoted? ==> db.requests[request].state.Upcoming? && !row.state.Upcoming?
    ensures Moves(db, NotifyInterested(WithRow(db, request, row), request, event, true), added)
    ensures forall notice | notice in added :: notice.event == event && notice.request == request
  {
    var middle := WithRow(db, request, row);
    WithRowKeepsInv(db, request, row);
    NotifyInterestedKeepsInv(middle, request, event, true);
    added := Notices(middle, request, event, 0);
    NoticesAreAddressed(middle, request, event, 0);
    NoticesAreDistinct(middle, request, event, 0);
    WithRowEvolves(db, request, row, NotifyInterested(middle, request, event, true), added);
    forall notice | notice in added ensures Interested(db, request, notice.to) {
      assert Interested(middle, request, notice.to);
    }
  }

  lemma NotifiedEvolves(a: Db, b: Db, c: Db, added: seq<Notice>)
    requires Evolves(a, b) && a.log == b.log && Notified(b, c, added)
    ensures Evolves(a, c) && c.log == a.log + added
  {
  }

  lemma InsertedEvolves(db: Db, media: Media, user: nat, today: int, now: int)
    requires Resolved(db)
    ensures Evolves(db, Inserted(db, media, user, today, now))
  {
  }

  lemma CreateMoves(db: Db, media: Media, user: nat, today: int, now: int) returns (added: seq<Notice>)
    requires Resolved(db)
    ensures Moves(db, CreateRequest(db, media, user, today, now).0, added)
  {
    added := [];
    var next := CreateRequest(db, media, user, today, now).0;
    if user in db.users && FindMedia(db, media, db.nextRequest).None? {
      var inserted := Inserted(db, media, user, today, now);
      InsertedEvolves(db, media, user, today, now);
      added := NotifyAdminsIsNotified(inserted, db.nextRequest, user, 0);
      NotifiedEvolves(db, inserted, next, added);
    } else {
      QuietMove(db, next);
    }
  }

  lemma TellAuthorMoves(db: Db, request: nat, liker: nat) returns (added: seq<Notice>)
    requires request in db.requests && liker in db.users
    ensures Moves(db, TellAuthor(db, request, liker), added)
    ensures forall notice | notice in added :: notice.event.Liked?
  {
    added := [];
    if TellAuthor(db, request, liker).log != db.log {
      added := [Notice(db.requests[request].author.value, Liked(liker), request)];
    }
  }

  /** What a first like tells does not depend on the likes. */
  lemma LikeMoves(db: Db, likes: map<(nat, nat), int>, after: Db, added: seq<Notice>)
    requires Moves(db.(likes := likes), after, added)
    requires forall notice | notice in added :: notice.event.Liked?
    ensures Moves(db, after, added)
  {
  }

  lemma ToggleMoves(db: Db, request: nat, user: nat, now: int) returns (added: seq<Notice>)
    ensures Moves(db, ToggleLike(db, request, user, now).0, added)
  {
    var next, outcome := ToggleLike(db, request, user, now).0, ToggleLike(db, request, user, now).1;
    if outcome.Ok? && outcome.value.liked {
      var likes := db.likes[(request, user) := now];
      added := TellAuthorMoves(db.(likes := likes), request, user);
      hide Moves, TellAuthor;
      LikeMoves(db, likes, next, added);
    } else {
      added := [];
      hide Moves;
      QuietMove(db, next);
    }
  }

  lemma DropRequestEvolves(db: Db, request: nat)
    ensures Evolves(db, DropRequest(db, request)) && DropRequest(db, request).log == db.log
  {
  }

  lemma LeavingEvolves(db: Db, request: nat, user: nat)
    ensures Evolves(db, db.(likes := db.likes - {(request, user)}, withdrawals := db.withdrawals + {(request, user)}))
  {
  }

  lemma WithdrawMoves(db: Db, request: nat, user: nat)
    ensures Moves(db, Withdraw(db, request, user).0, [])
  {
    hide Moves;
    var outcome := Withdraw(db, request, user).1;
    if outcome == Ok(RequestDeleted) {
      DropRequestEvolves(db, request);
    } else if outcome == Ok(ParticipationRemoved) {
      LeavingEvolves(db, request, user);
    } else {
      NoMove(db);
    }
    hide DropRequest, Evolves;
    if outcome.Ok? {
      QuietMove(db, Withdraw(db, request, user).0);
    }
  }

  lemma DeleteMoves(db: Db, request: nat, reason: string) returns (added: seq<Notice>)
    requires Resolved(db)
    ensures Moves(db, DeleteRequest(db, request, reason).0, added)
  {
    var next := DeleteRequest(db, request, reason);
    if next.1.Ok? {
      added := Notices(db, request, Deleted(reason), 0);
      var told := NotifyInterested(db, request, Deleted(reason), false);
      NotifyFromIsNotified(db, request, Deleted(reason), false, 0);
      NoticesAreAddressed(db, request, Deleted(reason), 0);
      NoticesAreDistinct(db, request, Deleted(reason), 0);
      NotifiedEvolves(db, db, told, added);
      DropRequestEvolves(told, request);
      EvolvesFurther(db, told, next.0);
    } else {
      added := [];
      QuietMove(db, next.0);
    }
  }

  lemma EvolvesFurther(a: Db, b: Db, c: Db)
    requires Resolved(a) && Evolves(a, b) && Evolves(b, c)
    ensures Evolves(a, c)
  {
  }

  /** `after` differs from `before` in the row of one request and in what was told. */
  ghost predicate OneRow(before: Db, after: Db, request: nat) {
    && request in before.requests
    && request in after.requests
    && after == before.(requests := before.requests[request := after.requests[request]],
                        notes := after.notes, nextNote := after.nextNote, log := after.log)
    && after.requests[request].author == before.requests[request].author
  }

  lemma PromoteMoves(db: Db, request: nat) returns (added: seq<Notice>)
    requires Inv(db) && request in db.requests && db.requests[request].state.Upcoming?
    ensures Moves(db, Promote(db, request), added) && Inv(Promote(db, request))
    ensures OneRow(db, Promote(db, request), request)
    ensures forall notice | notice in added :: notice.event == Promoted && notice.request == request
  {
    var row := db.requests[request].(state := Active, status := Waiting);
    PromoteKeepsInv(db, request);
    NotifyFromIsNotified(WithRow(db, request, row), request, Promoted, true, 0);
    added := ChangeMoves(db, request, row, Promoted);
  }

  lemma NoMove(db: Db)
    ensures Moves(db, db, [])
  {
    QuietMove(db, db);
  }

  lemma {:induction false} PromoteFromMoves(db: Db, today: int, request: nat, bound: nat) returns (added: seq<Notice>)
    requires Inv(db)
    ensures var after := PromoteFrom(db, today, request, bound);
      && Moves(db, after, added)
      && after.requests.Keys == db.requests.Keys
    ensures forall notice | notice in added :: notice.event == Promoted && notice.request >= request
    decreases bound - request
  {
    hide Moves, Resolved, Shaped, UniqueMedia, Participating, Roles, OneRow, Promote;
    if request >= bound {
      added := [];
      NoMove(db);
    } else if !Due(db, request, today) {
      added := PromoteFromMoves(db, today, request + 1, bound);
    } else {
      var mid := Promote(db, request);
      var first := PromoteMoves(db, request);
      var rest := PromoteFromMoves(mid, today, request + 1, bound);
      added := first + rest;
      var after := PromoteFrom(mid, today, request + 1, bound);
      assert Moves(db, after, added) by {
        PromotionsCompose(db, mid, after, request, first, rest);
      }
    }
  }

  lemma ToldBefore(a: Db, b: Db, c: Db, request: nat, notice: Notice)
    requires OneRow(a, b, request) && Evolves(a, b) && c.requests.Keys == b.requests.Keys && Evolves(b, c)
    requires notice.event == Promoted
    requires if notice.request == request then Told(a, b, notice) else Told(b, c, notice)
    ensures Told(a, c, notice)
  {
    assert Interested(a, notice.request, notice.to) by {
      assert Interested(if notice.request == request then a else b, notice.request, notice.to);
    }
    assert RowEvolves(b.requests[notice.request], c.requests[notice.request]);
  }

  lemma DistinctParts(request: nat, first: seq<Notice>, rest: seq<Notice>)
    requires forall i, j | 0 <= i < j < |first| :: first[i] != first[j]
    requires forall i, j | 0 <= i < j < |rest| :: rest[i] != rest[j]
    requires forall notice | notice in first :: notice.request == request
    requires forall notice | notice in rest :: notice.request > request
    ensures forall i, j | 0 <= i < j < |first + rest| :: (first + rest)[i] != (first + rest)[j]
  {
    var added: seq<Notice> := first + rest;
    forall i, j | 0 <= i < j < |added| ensures added[i] != added[j] {
      if i < |first| <= j {
        assert first[i] in first && rest[j - |first|] in rest;
      }
    }
  }

  lemma AllToldBefore(a: Db, b: Db, c: Db, request: nat, first: seq<Notice>, rest: seq<Notice>)
    requires OneRow(a, b, request) && Evolves(a, b) && c.requests.Keys == b.requests.Keys && Evolves(b, c)
    requires forall notice | notice in first ::
      notice.event == Promoted && notice.request == request && Told(a, b, notice)
    requires forall notice | notice in rest ::
      notice.event == Promoted && notice.request > request && Told(b, c, notice)
    ensures forall notice | notice in first + rest :: notice.event == Promoted && Told(a, c, notice)
  {
    hide Told, Evolves, OneRow;
    forall notice | notice in first + rest ensures notice.event == Promoted && Told(a, c, notice) {
      ToldBefore(a, b, c, request, notice);
    }
  }

  lemma PromotionsCompose(a: Db, b: Db, c: Db, request: nat, first: seq<Notice>, rest: seq<Notice>)
    requires Resolved(a) && Moves(a, b, first) && Moves(b, c, rest)
    requires OneRow(a, b, request) && c.requests.Keys == b.requests.Keys
    requires forall notice | notice in first :: notice.event == Promoted && notice.request == request
    requires forall notice | notice in rest :: notice.event == Promoted && notice.request > request
    ensures Moves(a, c, first + rest)
  {
    hide Told, Resolved, OneRow;
    EvolvesFurther(a, b, c);
    DistinctParts(request, first, rest);
    AllToldBefore(a, b, c, request, first, rest);
    hide Evolves;
    assert a.log + (first + rest) == a.log + first + rest;
  }

  lemma {:induction false} DropAllEvolves(db: Db, doomed: set<nat>, request: nat)
    requires Inv(db)
    ensures var after := DropAll(db, doomed, request); Evolves(db, after) && after.log == db.log
    decreases db.nextRequest - request
  {
    if request < db.nextRequest {
      var next := DropDoomed(db, doomed, request);
      assert Evolves(db, next) by {
        DropRequestEvolves(db, request);
      }
      DropDoomedKeepsInv(db, doomed, request);
      DropAllEvolves(next, doomed, request + 1);
      EvolvesFurther(db, next, DropAll(next, doomed, request + 1));
    }
  }

  lemma DeleteUserMoves(db: Db, user: nat)
    requires Inv(db)
    ensures Moves(db, DeleteUser(db, user).0, [])
  {
    if DeleteUser(db, user).1.Ok? {
      var rest := DropAll(db, Orphans(db, user), 0);
      DropAllEvolves(db, Orphans(db, user), 0);
      DropAllKeepsUsers(db, Orphans(db, user), 0);
      DropUserEvolves(rest, user);
      EvolvesFurther(db, rest, DropUser(rest, user));
    }
  }

  lemma {:induction false} DropAllKeepsUsers(db: Db, doomed: set<nat>, request: nat)
    ensures DropAll(db, doomed, request).users == db.users
    decreases db.nextRequest - request
  {
    if request < db.nextRequest {
      DropAllKeepsUsers(DropDoomed(db, doomed, request), doomed, request + 1);
    }
  }

  lemma DropUserEvolves(db: Db, user: nat)
    requires user in db.users && !db.users[user].admin
    ensures Evolves(db, DropUser(db, user)) && DropUser(db, user).log == db.log
  {
    if HasAdmin(db) {
      var admin :| admin in db.users && db.users[admin].admin;
      assert admin in DropUser(db, user).users;
    }
  }

  /** Only accounts differ: new ids are fresh and an administrator stays. */
  lemma UsersMove(db: Db, next: Db)
    requires next == db.(users := next.users, nextUser := next.nextUser) && db.nextUser <= next.nextUser
    requires forall u | u in next.users && u !in db.users :: db.nextUser <= u
    requires next.users == db.users || (HasAdmin(db) ==> HasAdmin(next))
    ensures Moves(db, next, [])
  {
    QuietMove(db, next);
  }

  lemma WithUserKeepsAdmin(db: Db, user: nat, row: User)
    requires user in db.users ==> row.admin == db.users[user].admin
    ensures HasAdmin(db) ==> HasAdmin(WithUser(db, user, row))
  {
    if HasAdmin(db) {
      var admin :| admin in db.users && db.users[admin].admin;
      assert admin in WithUser(db, user, row).users && WithUser(db, user, row).users[admin].admin;
    }
  }

  lemma TransferKeepsAdmin(db: Db, user: nat)
    requires TransferAdmin(db, user).1.Ok?
    ensures HasAdmin(TransferAdmin(db, user).0)
  {
    var next := TransferAdmin(db, user).0;
    assert user in next.users && next.users[user].admin;
  }

  lemma AdminStays(db: Db, op: Op)
    requires op.OpEnforceRoles? || op.OpCreateUser? || op.OpRename? || op.OpSetActive? || op.OpTransferAdmin?
    requires forall u | u in db.users :: u < db.nextUser
    ensures Step(db, op).users == db.users || (HasAdmin(db) ==> HasAdmin(Step(db, op)))
  {
    hide CreateRequest, ToggleLike, Withdraw, SetStatus, Complete, Restore, DeleteRequest, Refresh, PromoteFrom;
    hide DeleteUser, SetPreference;
    match op
    case OpEnforceRoles(_, _) =>
    case OpCreateUser(name, _) => WithUserKeepsAdmin(db, db.nextUser, User(name, false, true));
    case OpRename(user, name, valid) =>
      if Rename(db, user, name, valid).1.Ok? {
        WithUserKeepsAdmin(db, user, db.users[user].(name := name));
      }
    case OpSetActive(user, active) =>
      if user in db.users {
        WithUserKeepsAdmin(db, user, db.users[user].(active := active));
      }
    case OpTransferAdmin(user) =>
      if TransferAdmin(db, user).1.Ok? {
        TransferKeepsAdmin(db, user);
      }
  }

  lemma OnlyUsersChange(db: Db, op: Op)
    requires op.OpEnforceRoles? || op.OpCreateUser? || op.OpRename? || op.OpSetActive? || op.OpTransferAdmin?
    requires forall u | u in db.users :: u < db.nextUser
    ensures var next := Step(db, op);
      && next == db.(users := next.users, nextUser := next.nextUser) && db.nextUser <= next.nextUser
      && forall u | u in next.users && u !in db.users :: db.nextUser <= u
  {
    hide CreateRequest, ToggleLike, Withdraw, SetStatus, Complete, Restore, DeleteRequest, Refresh, PromoteFrom;
    hide DeleteUser, SetPreference;
  }

  lemma AccountMoves(db: Db, op: Op)
    requires op.OpEnforceRoles? || op.OpCreateUser? || op.OpRename? || op.OpSetActive? || op.OpTransferAdmin?
    requires forall u | u in db.users :: u < db.nextUser
    ensures Moves(db, Step(db, op), [])
  {
    OnlyUsersChange(db, op);
    AdminStays(db, op);
    hide Moves, Step;
    UsersMove(db, Step(db, op));
  }

  lemma SetStatusMoves(db: Db, request: nat, status: Status) returns (added: seq<Notice>)
    requires Inv(db)
    ensures Moves(db, SetStatus(db, request, status).0, added)
  {
    added := [];
    if IsActive(db, request) && db.requests[request].status != status {
      added := ChangeMoves(db, request, db.requests[request].(status := status), StatusChanged(status));
    } else {
      QuietMove(db, db);
    }
  }

  lemma CompleteMoves(db: Db, request: nat, admin: nat, now: int) returns (added: seq<Notice>)
    requires Inv(db)
    ensures Moves(db, Complete(db, request, admin, now).0, added)
  {
    added := [];
    if IsActive(db, request) && admin in db.users {
      var row := db.requests[request].(state := Completed, completedAt := Some(now), completedBy := Some(admin));
      added := ChangeMoves(db, request, row, Done);
    } else {
      QuietMove(db, db);
    }
  }

  lemma RestoreMoves(db: Db, request: nat) returns (added: seq<Notice>)
    requires Inv(db)
    ensures Moves(db, Restore(db, request).0, added)
  {
    added := [];
    if request in db.requests && db.requests[request].state.Completed? {
      var row := db.requests[request].(state := Active, status := Waiting, completedAt := None, completedBy := None);
      added := ChangeMoves(db, request, row, Restored);
    } else {
      QuietMove(db, db);
    }
  }

  lemma SettingsMove(db: Db, op: Op)
    requires op.OpRefresh? || op.OpSetPreference? || op.OpDeleteNote?
    ensures Moves(db, Step(db, op), [])
  {
    hide Moves, CreateRequest, ToggleLike, Withdraw, SetStatus, Complete, Restore, DeleteRequest, PromoteFrom;
    hide EnforceRoles, CreateUser, Rename, SetActive, TransferAdmin, DeleteUser;
    QuietMove(db, Step(db, op));
  }

  /** Every step stays within `Evolves` and tells only whom it may tell, once. */
  lemma StepMoves(db: Db, op: Op) returns (added: seq<Notice>)
    requires Inv(db)
    ensures Moves(db, Step(db, op), added)
  {
    IdsAreBelow(db);
    hide Moves, Resolved, Shaped, UniqueMedia, Participating, Roles;
    hide CreateRequest, ToggleLike, Withdraw, SetStatus, Complete, Restore, DeleteRequest, Refresh, PromoteFrom;
    hide EnforceRoles, CreateUser, Rename, SetActive, TransferAdmin, DeleteUser, SetPreference;
    added := [];
    match op
    case OpCreate(media, user, today, now) => added := CreateMoves(db, media, user, today, now);
    case OpToggle(request, user, now) => added := ToggleMoves(db, request, user, now);
    case OpWithdraw(request, user) => WithdrawMoves(db, request, user);
    case OpSetStatus(request, status) => added := SetStatusMoves(db, request, status);
    case OpComplete(request, admin, now) => added := CompleteMoves(db, request, admin, now);
    case OpRestore(request) => added := RestoreMoves(db, request);
    case OpDelete(request, reason) => added := DeleteMoves(db, request, reason);
    case OpPromote(today) => added := PromoteFromMoves(db, today, 0, db.nextRequest);
    case OpDeleteUser(user) => DeleteUserMoves(db, user);
    case OpRefresh(_, _) => SettingsMove(db, op);
    case OpSetPreference(_, _, _) => SettingsMove(db, op);
    case OpDeleteNote(_) => SettingsMove(db, op);
    case _ => AccountMoves(db, op);
  }
}
