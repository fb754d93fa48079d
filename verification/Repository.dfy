/**
 The repository object of request_app/repository.py, updating its tables in place.
 Every public method keeps the joint invariant.
 */
module RepositoryObject {
  import opened Wrappers
  import opened RequestStatus
  import opened Requests
  import opened RequestInvariants
  import opened RequestContracts
  import opened RequestTheorems

  class Repository {
    var users: map<nat, User>
    var nextUser: nat
    var requests: map<nat, Request>
    var nextRequest: nat
    var likes: map<(nat, nat), int>
    var withdrawals: set<(nat, nat)>
    var history: set<(nat, nat)>
    var muted: set<(nat, Preference)>
    var notes: map<nat, Note>
    var nextNote: nat
    ghost var log: seq<Notice>

    constructor ()
      ensures Contents() == EMPTY_DB && Valid()
    {
      users, nextUser, requests, nextRequest := map[], 1, map[], 1;
      likes, withdrawals, history, muted := map[], {}, {}, {};
      notes, nextNote, log := map[], 1, [];
    }

    ghost function Contents(): (db: Db)
      reads this
    {
      Db(users, nextUser, requests, nextRequest, likes, withdrawals, history, muted, notes, nextNote, log)
    }

    ghost predicate Valid()
      reads this
    {
      Inv(Contents())
    }

    // ---- Cascades -----------------------------------------------------------

    method DeleteRequestRow(request: nat)
      modifies this
      ensures Contents() == DropRequest(old(Contents()), request)
    {
      requests := requests - {request};
      likes := LikesElsewhere(likes, request);
      withdrawals := OfOtherRequests(withdrawals, request);
      history := OfOtherRequests(history, request);
      notes := Unlinked(notes, request);
    }

    method DeleteUserRow(user: nat)
      modifies this
      ensures Contents() == DropUser(old(Contents()), user)
    {
      users := users - {user};
      requests := Anonymised(requests, user);
      likes := LikesByOthers(likes, user);
      withdrawals := OfOthers(withdrawals, user);
      history := OfOthers(history, user);
      muted := set k | k in muted && k.0 != user;
      notes := NotesToOthers(notes, user);
    }

    // ---- Notifications ------------------------------------------------------

    method NotifyUser(to: nat, preference: Preference, event: Event, request: nat, linked: bool)
      modifies this`notes, this`nextNote, this`log
      ensures Contents() == Notify(old(Contents()), to, preference, event, request, linked)
    {
      if (to, preference) in muted {
        return;
      }
      notes := notes[nextNote := Note(to, event, if linked then Some(request) else None)];
      nextNote := nextNote + 1;
      log := log + [Notice(to, event, request)];
    }

    method NotifyRequestChange(request: nat, event: Event, linked: bool)
      modifies this`notes, this`nextNote, this`log
      ensures Contents() == NotifyInterested(old(Contents()), request, event, linked)
      ensures old(Valid()) ==>
        && OnlyTold(old(Contents()), Contents())
        && Tells(old(Contents()), Contents(), Listeners(old(Contents()), {request}), event, linked)
    {
      if Valid() {
        NotifyInterestedTells(Contents(), request, event, linked);
      }
      hide Inv, OnlyTold, Tells, Listeners;
      var user := 0;
      while user < nextUser
        invariant 0 <= user
        invariant NotifyInterested(old(Contents()), request, event, linked)
          == NotifyFrom(Contents(), request, event, linked, user)
      {
        if request in requests && (requests[request].author == Some(user) || (request, user) in likes)
          && (request, user) !in withdrawals {
          NotifyUser(user, RequestChanges, event, request, linked);
        }
        user := user + 1;
      }
    }

    method NotifyOtherAdmins(request: nat, author: nat)
      modifies this`notes, this`nextNote, this`log
      ensures Contents() == NotifyAdmins(old(Contents()), request, author, 0)
    {
      var user := 0;
      while user < nextUser
        invariant 0 <= user
        invariant NotifyAdmins(old(Contents()), request, author, 0) == NotifyAdmins(Contents(), request, author, user)
      {
        if user in users && users[user].admin && users[user].active && user != author {
          NotifyUser(user, AdminNewRequest, NewRequest, request, true);
        }
        user := user + 1;
      }
    }

    // ---- Requests -----------------------------------------------------------

    method FindRequest(media: Media) returns (request: Option<nat>)
      ensures request == FindMedia(Contents(), media, nextRequest)
    {
      var id: nat := nextRequest;
      while id > 0 && !(id - 1 in requests && SameMedia(requests[id - 1].media, media))
        invariant 0 <= id <= nextRequest
        invariant FindMedia(Contents(), media, nextRequest) == FindMedia(Contents(), media, id)
      {
        id := id - 1;
      }
      request := if id > 0 then Some(id - 1) else None;
    }

    /** The id of the request, whether it existed already, and its state. */
    method Create(media: Media, user: nat, today: int, now: int) returns (result: Result<(nat, bool, RequestState)>)
      requires Valid()
      modifies this
      ensures (Contents(), result) == CreateRequest(old(Contents()), media, user, today, now)
      ensures Created(old(Contents()), Contents(), media, user, today, now, result)
      ensures Valid()
    {
      hide Inv, Created;
      CreateIsCreated(Contents(), media, user, today, now);
      CreateKeepsInv(Contents(), media, user, today, now);
      if user !in users {
        return Err(UnknownUser);
      }
      var existing := FindRequest(media);
      if existing.Some? {
        if (existing.value, user) !in likes {
          likes := likes[(existing.value, user) := now];
        }
        return Ok((existing.value, true, requests[existing.value].state));
      }
      var request := nextRequest;
      var state := if media.release.Some? && media.release.value <= today then Active else Upcoming;
      requests := requests[request := Request(media, state, Waiting, Some(user), now, None, None)];
      nextRequest := nextRequest + 1;
      likes := likes[(request, user) := now];
      NotifyOtherAdmins(request, user);
      result := Ok((request, false, state));
    }

    method CountLikes(request: nat) returns (count: nat)
      ensures count == |LikesOf(Contents(), request)|
    {
      count := |set k | k in likes && k.0 == request|;
      assert (set k | k in likes && k.0 == request) == LikesOf(Contents(), request);
    }

    method Toggle(request: nat, user: nat, now: int) returns (result: Result<LikeState>)
      requires Valid()
      modifies this
      ensures (Contents(), result) == ToggleLike(old(Contents()), request, user, now)
      ensures Toggled(old(Contents()), Contents(), request, user, now, result)
      ensures result.Ok? ==> (result.value.liked <==> (request, user) in likes)
      ensures if result.Ok? && result.value.liked && old(requests)[request].author.Some?
          && old(requests)[request].author.value != user
          && (request, old(requests)[request].author.value) !in old(withdrawals)
          && (request, user) !in old(history)
          && (old(requests)[request].author.value, OwnRequestLiked) !in old(muted)
        then
          var author := old(requests)[request].author.value;
          && log == old(log) + [Notice(author, Liked(user), request)]
          && notes == old(notes)[old(nextNote) := Note(author, Liked(user), Some(request))]
        else log == old(log) && notes == old(notes)
      ensures Valid()
    {
      hide Inv, Toggled;
      ToggleIsToggled(Contents(), request, user, now);
      LikeIsTold(Contents(), ToggleLike(Contents(), request, user, now).0, request, user, now,
        ToggleLike(Contents(), request, user, now).1);
      ToggleKeepsInv(Contents(), request, user, now);
      if request !in requests {
        return Err(NotFound);
      }
      if (request, user) in likes {
        if requests[request].author == Some(user) {
          return Err(AuthorLike);
        }
        if now > likes[(request, user)] + LIKE_UNDO_SECONDS {
          return Err(TooLate);
        }
        likes := likes - {(request, user)};
        var count := CountLikes(request);
        return Ok(LikeState(false, count, None));
      }
      if (request, user) in withdrawals {
        return Err(Withdrawn);
      }
      if user !in users {
        return Err(UnknownUser);
      }
      likes := likes[(request, user) := now];
      var count := CountLikes(request);
      var author := requests[request].author;
      if author.Some? && author.value != user
        && (request, author.value) !in withdrawals && (request, user) !in history {
        NotifyUser(author.value, OwnRequestLiked, Liked(user), request, true);
        history := history + {(request, user)};
      }
      result := Ok(LikeState(true, count, Some(now + LIKE_UNDO_SECONDS)));
    }

    method WithdrawRequest(request: nat, user: nat) returns (result: Result<WithdrawOutcome>)
      requires Valid()
      modifies this
      ensures (Contents(), result) == Withdraw(old(Contents()), request, user)
      ensures WithdrawnFrom(old(Contents()), Contents(), request, user, result)
      ensures Valid()
      ensures result == Ok(RequestDeleted) ==>
        forall other | other != user :: !Interested(old(Contents()), request, other)
    {
      hide Inv, WithdrawnFrom;
      WithdrawIsWithdrawn(Contents(), request, user);
      WithdrawKeepsInv(Contents(), request, user);
      if request !in requests || requests[request].state.Completed? {
        return Err(NotFound);
      }
      if requests[request].author != Some(user) {
        return Err(NotYours);
      }
      if (request, user) !in likes {
        return Err(AlreadyWithdrawn);
      }
      var others := set k | k in likes && k.0 == request && k.1 != user;
      assert OthersLike(Contents(), request, user) <==> others != {} by {
        if OthersLike(Contents(), request, user) {
          var k :| k in likes && k.0 == request && k.1 != user;
          assert k in others;
        }
        if others != {} {
          var k :| k in others;
          assert k in likes;
        }
      }
      if |others| == 0 {
        DeleteRequestRow(request);
        return Ok(RequestDeleted);
      }
      likes := likes - {(request, user)};
      withdrawals := withdrawals + {(request, user)};
      result := Ok(ParticipationRemoved);
    }

    method SetRequestStatus(request: nat, status: Status) returns (result: Result<()>)
      requires Valid()
      modifies this
      ensures (Contents(), result) == SetStatus(old(Contents()), request, status)
      ensures StatusSet(old(Contents()), Contents(), request, status, result)
      ensures Valid()
    {
      hide Inv, StatusSet;
      StatusIsSet(Contents(), request, status);
      SetStatusKeepsInv(Contents(), request, status);
      if request !in requests || !requests[request].state.Active? {
        return Err(NotFound);
      }
      if requests[request].status != status {
        requests := requests[request := requests[request].(status := status)];
        NotifyRequestChange(request, StatusChanged(status), true);
      }
      result := Ok(());
    }

    method CompleteRequest(request: nat, admin: nat, now: int) returns (result: Result<()>)
      requires Valid()
      modifies this
      ensures (Contents(), result) == Complete(old(Contents()), request, admin, now)
      ensures CompletedBy(old(Contents()), Contents(), request, admin, now, result)
      ensures Valid()
    {
      hide Inv, CompletedBy;
      CompletionIsRecorded(Contents(), request, admin, now);
      CompleteKeepsInv(Contents(), request, admin, now);
      if request !in requests || !requests[request].state.Active? {
        return Err(NotFound);
      }
      if admin !in users {
        return Err(UnknownUser);
      }
      requests := requests[request := requests[request].(
        state := Completed, completedAt := Some(now), completedBy := Some(admin))];
      NotifyRequestChange(request, Done, true);
      result := Ok(());
    }

    method RestoreRequest(request: nat) returns (result: Result<()>)
      requires Valid()
      modifies this
      ensures (Contents(), result) == Restore(old(Contents()), request)
      ensures BroughtBack(old(Contents()), Contents(), request, result)
      ensures Valid()
    {
      hide Inv, BroughtBack;
      RestoreBringsBack(Contents(), request);
      RestoreKeepsInv(Contents(), request);
      if request !in requests || !requests[request].state.Completed? {
        return Err(NotFound);
      }
      requests := requests[request := requests[request].(
        state := Active, status := Waiting, completedAt := None, completedBy := None)];
      NotifyRequestChange(request, Restored, true);
      result := Ok(());
    }

    method DeleteActiveRequest(request: nat, reason: string) returns (result: Result<()>)
      requires Valid()
      modifies this
      ensures (Contents(), result) == DeleteRequest(old(Contents()), request, reason)
      ensures DeletedFor(old(Contents()), Contents(), request, reason, result)
      ensures Valid()
    {
      hide Inv, DeletedFor;
      DeletionIsTold(Contents(), request, reason);
      DeleteKeepsInv(Contents(), request, reason);
      if |reason| == 0 || |reason| > 500 {
        return Err(BadReason);
      }
      if request !in requests || !requests[request].state.Active? {
        return Err(NotFound);
      }
      NotifyRequestChange(request, Deleted(reason), false);
      DeleteRequestRow(request);
      result := Ok(());
    }

    /** The number of requests that were due. */
    method PromoteDueRequests(today: int) returns (promoted: nat)
      requires Valid()
      modifies this`requests, this`notes, this`nextNote, this`log
      ensures Contents() == PromoteFrom(old(Contents()), today, 0, old(nextRequest))
      ensures promoted == |set r | r in old(requests) && Due(old(Contents()), r, today)|
      ensures PromotedAll(old(Contents()), Contents(), today, promoted)
      ensures forall r | r in requests :: !Due(Contents(), r, today)
      ensures Valid()
    {
      hide Inv, NotifyInterested, PromotedAll;
      PromotionIsTold(Contents(), today);
      PromoteFromKeepsInv(Contents(), today, 0, nextRequest);
      ghost var before := Contents();
      DueAreBelow(before, today);
      promoted := 0;
      var request := 0;
      while request < nextRequest
        invariant 0 <= request <= nextRequest == before.nextRequest
        invariant promoted == |DueBelow(before, today, request)|
        invariant requests.Keys == before.requests.Keys
        invariant forall r | r in requests && request <= r :: requests[r] == before.requests[r]
        invariant forall r | r in requests && r < request :: !Due(Contents(), r, today)
        invariant PromoteFrom(old(Contents()), today, 0, nextRequest)
          == PromoteFrom(Contents(), today, request, nextRequest)
      {
        if request in requests && requests[request].state.Upcoming?
          && requests[request].media.release.Some? && requests[request].media.release.value <= today {
          requests := requests[request := requests[request].(state := Active, status := Waiting)];
          NotifyRequestChange(request, Promoted, true);
          promoted := promoted + 1;
        }
        DueCountGrows(before, today, request);
        request := request + 1;
      }
    }

    // ---- Accounts -----------------------------------------------------------

    method CreateAccount(name: string, valid: bool) returns (result: Result<nat>)
      requires Valid()
      modifies this`users, this`nextUser
      ensures (Contents(), result) == CreateUser(old(Contents()), name, valid)
      ensures result == Err(BadCredentials) <==> !valid
      ensures result == Err(NameTaken) <==> valid && exists u | u in old(users) :: old(users)[u].name == name
      ensures result.Ok? ==>
        && result.value == old(nextUser) == nextUser - 1
        && result.value !in old(users)
        && users == old(users)[result.value := User(name, false, true)]
      ensures result.Err? ==> users == old(users) && nextUser == old(nextUser)
      ensures Valid()
    {
      hide Inv;
      CreateUserKeepsInv(Contents(), name, valid);
      IdsAreBelow(Contents());
      if !valid {
        return Err(BadCredentials);
      }
      if exists u | u in users :: users[u].name == name {
        return Err(NameTaken);
      }
      users := users[nextUser := User(name, false, true)];
      nextUser := nextUser + 1;
      result := Ok(nextUser - 1);
    }

    method RenameUser(user: nat, name: string, valid: bool) returns (result: Result<()>)
      requires Valid()
      modifies this`users
      ensures (Contents(), result) == Rename(old(Contents()), user, name, valid)
      ensures result == Err(BadCredentials) <==> !valid
      ensures result == Err(NotFound) <==> valid && user !in old(users)
      ensures result == Err(NameTaken) <==>
        valid && user in old(users) && exists u | u in old(users) :: u != user && old(users)[u].name == name
      ensures result.Ok? ==> users == old(users)[user := User(name, old(users)[user].admin, old(users)[user].active)]
      ensures result.Err? ==> users == old(users)
      ensures Valid()
    {
      hide Inv;
      RenameKeepsInv(Contents(), user, name, valid);
      if !valid {
        return Err(BadCredentials);
      }
      if user !in users {
        return Err(NotFound);
      }
      if exists u | u in users :: u != user && users[u].name == name {
        return Err(NameTaken);
      }
      users := users[user := users[user].(name := name)];
      result := Ok(());
    }

    method SetUserActive(user: nat, active: bool) returns (result: Result<()>)
      requires Valid()
      modifies this`users
      ensures (Contents(), result) == SetActive(old(Contents()), user, active)
      ensures result == Err(NotFound) <==> user !in old(users)
      ensures result == Err(LastAdmin) <==>
        && user in old(users) && old(users)[user].admin && !active
        && forall u | u in old(users) && old(users)[u].admin && old(users)[u].active :: u == user
      ensures result.Ok? ==> users == old(users)[user := User(old(users)[user].name, old(users)[user].admin, active)]
      ensures result.Err? ==> users == old(users)
      ensures Valid()
    {
      hide Inv;
      SetActiveKeepsInv(Contents(), user, active);
      if user !in users {
        return Err(NotFound);
      }
      if users[user].admin && !active && !(exists u | u in users :: u != user && users[u].admin && users[u].active) {
        return Err(LastAdmin);
      }
      users := users[user := users[user].(active := active)];
      result := Ok(());
    }

    method TransferAdminRole(user: nat) returns (result: Result<()>)
      requires Valid()
      modifies this`users
      ensures (Contents(), result) == TransferAdmin(old(Contents()), user)
      ensures result == Err(NotFound) <==> user !in old(users)
      ensures result == Err(Inactive) <==> user in old(users) && !old(users)[user].active
      ensures result.Ok? ==>
        && users.Keys == old(users).Keys
        && forall u | u in users :: users[u] == User(old(users)[u].name, u == user, old(users)[u].active)
      ensures result.Err? ==> users == old(users)
      ensures Valid()
    {
      hide Inv;
      TransferKeepsInv(Contents(), user);
      if user !in users {
        return Err(NotFound);
      }
      if !users[user].active {
        return Err(Inactive);
      }
      users := map u | u in users :: if u != user then users[u].(admin := false) else users[u];
      users := users[user := users[user].(admin := true)];
      result := Ok(());
      assert users == TransferAdmin(old(Contents()), user).0.users;
    }

    method DeleteAccount(user: nat) returns (result: Result<()>)
      requires Valid()
      modifies this
      ensures (Contents(), result) == DeleteUser(old(Contents()), user)
      ensures AccountDeleted(old(Contents()), Contents(), user, result)
      ensures Valid()
      ensures forall request, other | request in old(requests) && request !in requests && other != user ::
        !Interested(old(Contents()), request, other)
    {
      hide Inv, AccountDeleted;
      DeletionIsOfAccount(Contents(), user);
      DeleteUserKeepsInv(Contents(), user);
      LeavingInterestsNobodyElse(Contents(), OpDeleteUser(user));
      if user !in users {
        return Err(NotFound);
      }
      if users[user].admin {
        return Err(IsAdmin);
      }
      ghost var before := Contents();
      var doomed := set k | k in likes && k.1 == user
        && (forall other | other in likes :: other.0 == k.0 ==> other.1 == user) :: k.0;
      assert doomed == Orphans(before, user);
      var request := 0;
      while request < nextRequest
        invariant 0 <= request && nextRequest == before.nextRequest
        invariant DropAll(before, doomed, 0) == DropAll(Contents(), doomed, request)
      {
        if request in doomed {
          DeleteRequestRow(request);
        }
        request := request + 1;
      }
      DeleteUserRow(user);
      result := Ok(());
    }
  }
}
