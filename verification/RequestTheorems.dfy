/**
 Whole runs of the request repository: states never go back to upcoming, one
 active administrator stays, nobody else is interested in a request that a
 withdrawal or an account deletion removes, a withdrawn author never hears of
 the request again, and likes and promotions are announced at most once.
 */
module RequestTheorems {
  import opened Wrappers
  import opened RequestStatus
  import opened Requests
  import opened RequestInvariants
  import opened RequestHistory
  import opened RequestContracts

  // ---- Rows and roles -------------------------------------------------------

  lemma {:induction false} RunEvolves(db: Db, ops: seq<Op>)
    requires Inv(db)
    ensures Evolves(db, Run(db, ops))
    decreases |ops|
  {
    if ops != [] {
      var added := StepMoves(db, ops[0]);
      StepKeepsInv(db, ops[0]);
      RunEvolves(Step(db, ops[0]), ops[1..]);
      EvolvesFurther(db, Step(db, ops[0]), Run(db, ops));
    }
  }

  /** A request that left the upcoming list never returns to it; its media key and
      creation time stay, and its author can only be forgotten. */
  lemma NothingReturnsToUpcoming(before: seq<Op>, ops: seq<Op>, request: nat)
    requires request in Run(EMPTY_DB, before).requests && request in Run(Run(EMPTY_DB, before), ops).requests
    ensures RowEvolves(Run(EMPTY_DB, before).requests[request], Run(Run(EMPTY_DB, before), ops).requests[request])
  {
    EveryRunKeepsInv(before);
    RunEvolves(Run(EMPTY_DB, before), ops);
  }

  /** Once there is an administrator, every later state has exactly one, active. */
  lemma OneActiveAdmin(before: seq<Op>, ops: seq<Op>) returns (admin: nat)
    requires HasAdmin(Run(EMPTY_DB, before))
    ensures var db := Run(Run(EMPTY_DB, before), ops);
      && admin in db.users && db.users[admin].admin && db.users[admin].active
      && forall u | u in db.users && db.users[u].admin :: u == admin
  {
    EveryRunKeepsInv(before);
    RunEvolves(Run(EMPTY_DB, before), ops);
    RunKeepsInv(Run(EMPTY_DB, before), ops);
    var db := Run(Run(EMPTY_DB, before), ops);
    assert HasAdmin(db);
    admin :| admin in db.users && db.users[admin].admin;
  }

  // ---- Removing a request ---------------------------------------------------

  lemma {:induction false} DropAllDropsDoomed(db: Db, doomed: set<nat>, from: nat, request: nat)
    requires request in db.requests && request !in doomed
    ensures request in DropAll(db, doomed, from).requests
    decreases db.nextRequest - from
  {
    if from < db.nextRequest {
      DropAllDropsDoomed(DropDoomed(db, doomed, from), doomed, from + 1, request);
    }
  }

  lemma OrphanInterestsNobodyElse(db: Db, request: nat, user: nat, other: nat)
    requires Participating(db) && request in db.requests && !OthersLike(db, request, user) && other != user
    ensures !Interested(db, request, other)
  {
    assert (request, other) !in db.likes by {
      if (request, other) in db.likes {
        assert OthersLike(db, request, user);
      }
    }
  }

  lemma RemovedRequestHasNoOtherLiker(db: Db, op: Op, request: nat)
    requires op.OpWithdraw? || op.OpDeleteUser?
    requires request in db.requests && request !in Step(db, op).requests
    ensures !OthersLike(db, request, op.user)
  {
    if op.OpDeleteUser? && request !in Orphans(db, op.user) {
      DropAllDropsDoomed(db, Orphans(db, op.user), 0, request);
    }
  }

  /** A request that a step of leaving removes interests nobody but the leaver. */
  lemma LeavingInterestsNobodyElse(db: Db, op: Op)
    requires Inv(db) && (op.OpWithdraw? || op.OpDeleteUser?)
    ensures forall request, other | request in db.requests && request !in Step(db, op).requests && other != op.user ::
      !Interested(db, request, other)
  {
    forall request, other | request in db.requests && request !in Step(db, op).requests && other != op.user
      ensures !Interested(db, request, other)
    {
      RemovedRequestHasNoOtherLiker(db, op, request);
      OrphanInterestsNobodyElse(db, request, op.user, other);
    }
  }

  /** A request that a withdrawal or an account deletion removes interests nobody but
      the account that leaves. */
  lemma RemovalLeavesNobodyBehind(ops: seq<Op>, op: Op, request: nat, other: nat)
    requires op.OpWithdraw? || op.OpDeleteUser?
    requires var db := Run(EMPTY_DB, ops); request in db.requests && request !in Step(db, op).requests
    requires other != op.user
    ensures !Interested(Run(EMPTY_DB, ops), request, other)
  {
    EveryRunKeepsInv(ops);
    RemovedRequestHasNoOtherLiker(Run(EMPTY_DB, ops), op, request);
    OrphanInterestsNobodyElse(Run(EMPTY_DB, ops), request, op.user, other);
  }

  // ---- A withdrawn author hears nothing -------------------------------------

  /** The account takes no part in the request, and never will. */
  predicate Silenced(db: Db, request: nat, user: nat) {
    && request < db.nextRequest
    && user < db.nextUser
    && ((request, user) in db.withdrawals || request !in db.requests || user !in db.users)
  }

  lemma StepStaysSilent(before: Db, after: Db, added: seq<Notice>, request: nat, user: nat)
    requires Inv(before) && Moves(before, after, added) && Silenced(before, request, user)
    ensures Silenced(after, request, user)
    ensures forall notice | notice in added :: !(notice.to == user && notice.request == request)
  {
    forall notice | notice in added ensures !(notice.to == user && notice.request == request) {
      assert Told(before, after, notice);
    }
  }

  /** Nothing in the log from position `from` on is for the user about the request. */
  ghost predicate Quiet(log: seq<Notice>, from: nat, request: nat, user: nat) {
    forall i | from <= i < |log| :: !(log[i].to == user && log[i].request == request)
  }

  lemma QuietFurther(log: seq<Notice>, added: seq<Notice>, all: seq<Notice>, request: nat, user: nat)
    requires forall notice | notice in added :: !(notice.to == user && notice.request == request)
    requires log + added <= all && Quiet(all, |log + added|, request, user)
    ensures log <= all && Quiet(all, |log|, request, user)
  {
    forall i | |log| <= i < |all| ensures !(all[i].to == user && all[i].request == request) {
      if i < |log + added| {
        assert all[i] == (log + added)[i] == added[i - |log|];
      }
    }
    assert log == (log + added)[..|log|] == all[..|log|];
  }

  lemma {:induction false} RunStaysSilent(db: Db, ops: seq<Op>, request: nat, user: nat)
    requires Inv(db) && Silenced(db, request, user)
    ensures db.log <= Run(db, ops).log && Quiet(Run(db, ops).log, |db.log|, request, user)
    decreases |ops|
  {
    if ops != [] {
      var next := Step(db, ops[0]);
      var added := StepMoves(db, ops[0]);
      assert Inv(next) by {
        StepKeepsInv(db, ops[0]);
      }
      StepStaysSilent(db, next, added, request, user);
      RunStaysSilent(next, ops[1..], request, user);
      QuietFurther(db.log, added, Run(next, ops[1..]).log, request, user);
    }
  }

  lemma WithdrawalSilences(db: Db, request: nat, author: nat)
    requires Inv(db) && Withdraw(db, request, author).1.Ok?
    ensures Silenced(Withdraw(db, request, author).0, request, author)
  {
  }

  /** After a withdrawal, no continuation ever notifies the author about the request
      again, not even one that adds the title again. */
  lemma WithdrawnAuthorHearsNothing(before: seq<Op>, request: nat, author: nat, ops: seq<Op>)
    requires Withdraw(Run(EMPTY_DB, before), request, author).1.Ok?
    ensures var db := Withdraw(Run(EMPTY_DB, before), request, author).0;
      var log := Run(db, ops).log;
      && |db.log| <= |log|
      && forall i | |db.log| <= i < |log| :: !(log[i].to == author && log[i].request == request)
  {
    hide Inv, Run;
    EveryRunKeepsInv(before);
    var db := Run(EMPTY_DB, before);
    WithdrawalSilences(db, request, author);
    StepKeepsInv(db, OpWithdraw(request, author));
    RunStaysSilent(Withdraw(db, request, author).0, ops, request, author);
  }

  const FILM := Media(Movie, 603, None, None)

  /** Two accounts before anything else happened. */
  const TWO_ACCOUNTS := EMPTY_DB.(users := map[1 := User("a", false, true), 2 := User("b", false, true)], nextUser := 3)

  const ADDED := Request(FILM, Upcoming, Waiting, Some(1), 0, None, None)

  lemma AccountsAreCreated()
    ensures Step(Step(EMPTY_DB, OpCreateUser("a", true)), OpCreateUser("b", true)) == TWO_ACCOUNTS
  {
    var first := EMPTY_DB.(users := map[1 := User("a", false, true)], nextUser := 2);
    assert Step(EMPTY_DB, OpCreateUser("a", true)) == first;
    assert first.users[1].name == "a" && "a" != "b";
    assert !Named(first, "b");
  }

  /** Without an administrator a new request tells nobody. */
  lemma {:induction false} NobodyIsToldWithoutAdmin(db: Db, request: nat, author: nat, user: nat)
    requires !HasAdmin(db)
    ensures NotifyAdmins(db, request, author, user) == db
    decreases db.nextUser - user
  {
    if user < db.nextUser {
      NobodyIsToldWithoutAdmin(db, request, author, user + 1);
    }
  }

  lemma FilmIsAdded()
    ensures Step(TWO_ACCOUNTS, OpCreate(FILM, 1, 0, 0))
         == TWO_ACCOUNTS.(requests := map[1 := ADDED], nextRequest := 2, likes := map[(1, 1) := 0])
  {
    var next := TWO_ACCOUNTS.(requests := map[1 := ADDED], nextRequest := 2, likes := map[(1, 1) := 0]);
    assert FindMedia(TWO_ACCOUNTS, FILM, 1) == None;
    assert Inserted(TWO_ACCOUNTS, FILM, 1, 0, 0) == next;
    NobodyIsToldWithoutAdmin(next, 1, 1, 0);
  }

  /** What a withdrawal of the author leaves when another account likes the request. */
  lemma SecondAccountLikes(db: Db)
    requires db.users.Keys == {1, 2} && db.requests == map[1 := ADDED]
    requires db.likes == map[(1, 1) := 0] && db.withdrawals == {}
    ensures var liked := Step(db, OpToggle(1, 2, 5));
      && liked.likes == map[(1, 1) := 0, (1, 2) := 5] && liked.withdrawals == {}
      && liked.users == db.users && liked.requests == db.requests && liked.nextRequest == db.nextRequest
  {
  }

  lemma FirstAccountWithdraws(liked: Db)
    requires liked.requests == map[1 := ADDED] && liked.likes == map[(1, 1) := 0, (1, 2) := 5]
    ensures var next := Step(liked, OpWithdraw(1, 1));
      && next.users == liked.users && next.requests == liked.requests && next.nextRequest == liked.nextRequest
      && (1, 1) in next.withdrawals && (1, 1) !in next.likes
  {
    assert (1, 2) in liked.likes && OthersLike(liked, 1, 1);
  }

  lemma LikedThenWithdrawn(db: Db) returns (next: Db)
    requires db.users.Keys == {1, 2} && db.requests == map[1 := ADDED] && db.nextRequest == 2
    requires db.likes == map[(1, 1) := 0] && db.withdrawals == {}
    ensures next == Step(Step(db, OpToggle(1, 2, 5)), OpWithdraw(1, 1))
    ensures next.users == db.users && next.requests == db.requests && next.nextRequest == 2
    ensures (1, 1) in next.withdrawals && (1, 1) !in next.likes
  {
    hide Step;
    SecondAccountLikes(db);
    var liked := Step(db, OpToggle(1, 2, 5));
    FirstAccountWithdraws(liked);
    next := Step(liked, OpWithdraw(1, 1));
  }

  lemma FirstStep(db: Db, op: Op, ops: seq<Op>)
    ensures Run(db, [op] + ops) == Run(Step(db, op), ops)
  {
    assert ([op] + ops)[1..] == ops;
  }

  lemma SixSteps(db: Db, a: Op, b: Op, c: Op, d: Op, e: Op, f: Op)
    ensures Run(db, [a, b, c, d, e, f]) == Step(Step(Step(Step(Step(Step(db, a), b), c), d), e), f)
  {
    hide Step;
    var db1, db2, db3 := Step(db, a), Step(Step(db, a), b), Step(Step(Step(db, a), b), c);
    FirstStep(db, a, [b, c, d, e, f]);
    FirstStep(db1, b, [c, d, e, f]);
    FirstStep(db2, c, [d, e, f]);
    FirstStep(db3, d, [e, f]);
    FirstStep(Step(db3, d), e, [f]);
    FirstStep(Step(Step(db3, d), e), f, []);
    assert [a] + [b, c, d, e, f] == [a, b, c, d, e, f];
    assert [b] + [c, d, e, f] == [b, c, d, e, f] && [c] + [d, e, f] == [c, d, e, f];
    assert [d] + [e, f] == [d, e, f] && [e] + [f] == [e, f] && [f] + [] == [f];
  }

  /** Two accounts; the first adds a film, the second likes it, the first withdraws
      and adds the film again: the author has a like and a withdrawal, and is not
      interested. */
  lemma WithdrawnAuthorRegainsLike() returns (ops: seq<Op>)
    ensures ops == [OpCreateUser("a", true), OpCreateUser("b", true), OpCreate(FILM, 1, 0, 0), OpToggle(1, 2, 5),
      OpWithdraw(1, 1), OpCreate(FILM, 1, 0, 9)]
    ensures var db := Run(EMPTY_DB, ops);
      && 1 in db.requests && db.requests[1].author == Some(1)
      && (1, 1) in db.likes && (1, 1) in db.withdrawals && !Interested(db, 1, 1)
  {
    AccountsAreCreated();
    FilmIsAdded();
    var left := LikedThenWithdrawn(Step(TWO_ACCOUNTS, OpCreate(FILM, 1, 0, 0)));
    assert FindMedia(left, FILM, 2) == Some(1);
    var again := OpCreate(FILM, 1, 0, 9);
    assert (1, 1) in Step(left, again).likes;
    SixSteps(EMPTY_DB, OpCreateUser("a", true), OpCreateUser("b", true), OpCreate(FILM, 1, 0, 0), OpToggle(1, 2, 5),
      OpWithdraw(1, 1), again);
    ops := [OpCreateUser("a", true), OpCreateUser("b", true), OpCreate(FILM, 1, 0, 0), OpToggle(1, 2, 5),
      OpWithdraw(1, 1), again];
  }

  // ---- At most one announcement ---------------------------------------------

  datatype Topic = LikeOf(request: nat, liker: nat) | PromotionOf(request: nat, user: nat)

  predicate About(notice: Notice, topic: Topic) {
    match topic
    case LikeOf(request, liker) => notice.request == request && notice.event == Liked(liker)
    case PromotionOf(request, user) => notice == Notice(user, Promoted, request)
  }

  function Announcements(log: seq<Notice>, topic: Topic): (n: nat) {
    if log == [] then 0
    else
      var rest := Announcements(log[1..], topic);
      if About(log[0], topic) then rest + 1 else rest
  }

  lemma {:induction false} AnnouncementsAdd(a: seq<Notice>, b: seq<Notice>, topic: Topic)
    ensures Announcements(a + b, topic) == Announcements(a, topic) + Announcements(b, topic)
  {
    if a == [] {
      assert a + b == b;
    } else {
      AnnouncementsAdd(a[1..], b, topic);
      assert (a + b)[1..] == a[1..] + b;
    }
  }

  lemma {:induction false} NotAbout(log: seq<Notice>, topic: Topic)
    requires forall i | 0 <= i < |log| :: !About(log[i], topic)
    ensures Announcements(log, topic) == 0
  {
    if log != [] {
      NotAbout(log[1..], topic);
    }
  }

  lemma {:induction false} AboutOnce(log: seq<Notice>, topic: Topic)
    requires forall i, j | 0 <= i < j < |log| && About(log[i], topic) :: !About(log[j], topic)
    ensures Announcements(log, topic) <= 1
    ensures Announcements(log, topic) > 0 ==> exists i | 0 <= i < |log| :: About(log[i], topic)
  {
    if log != [] {
      if About(log[0], topic) {
        NotAbout(log[1..], topic);
      } else {
        AboutOnce(log[1..], topic);
        if Announcements(log[1..], topic) > 0 {
          var i :| 0 <= i < |log[1..]| && About(log[1..][i], topic);
          assert About(log[i + 1], topic);
        }
      }
    }
  }

  /** Nothing about the topic will be announced any more. */
  predicate Closed(db: Db, topic: Topic) {
    match topic
    case LikeOf(request, liker) =>
      && request < db.nextRequest
      && liker < db.nextUser
      && ((request, liker) in db.history || request !in db.requests || liker !in db.users)
    case PromotionOf(request, user) =>
      request < db.nextRequest && (request in db.requests ==> !db.requests[request].state.Upcoming?)
  }

  ghost predicate AnnouncedOnce(db: Db) {
    forall topic ::
      && Announcements(db.log, topic) <= 1
      && (Announcements(db.log, topic) > 0 ==> Closed(db, topic))
  }

  lemma ClosedStaysClosed(before: Db, after: Db, added: seq<Notice>, topic: Topic)
    requires Inv(before) && Moves(before, after, added) && Closed(before, topic)
    ensures Closed(after, topic) && Announcements(added, topic) == 0
  {
    forall i | 0 <= i < |added| ensures !About(added[i], topic) {
      assert added[i] in added && Told(before, after, added[i]);
    }
    NotAbout(added, topic);
  }

  lemma AnnouncingCloses(before: Db, after: Db, added: seq<Notice>, topic: Topic)
    requires Inv(before) && Moves(before, after, added)
    ensures Announcements(added, topic) <= 1
    ensures Announcements(added, topic) > 0 ==> Closed(after, topic)
  {
    forall i, j | 0 <= i < j < |added| && About(added[i], topic) ensures !About(added[j], topic) {
      assert added[i] in added;
    }
    AboutOnce(added, topic);
    if Announcements(added, topic) > 0 {
      var i :| 0 <= i < |added| && About(added[i], topic);
      assert added[i] in added && Told(before, after, added[i]);
    }
  }

  lemma StepAnnouncesOnce(db: Db, op: Op)
    requires Inv(db) && AnnouncedOnce(db)
    ensures AnnouncedOnce(Step(db, op))
  {
    var after := Step(db, op);
    var added := StepMoves(db, op);
    forall topic
      ensures Announcements(after.log, topic) <= 1
      ensures Announcements(after.log, topic) > 0 ==> Closed(after, topic)
    {
      AnnouncementsAdd(db.log, added, topic);
      if Closed(db, topic) {
        ClosedStaysClosed(db, after, added, topic);
      } else {
        AnnouncingCloses(db, after, added, topic);
      }
    }
  }

  lemma {:induction false} RunAnnouncesOnce(db: Db, ops: seq<Op>)
    requires Inv(db) && AnnouncedOnce(db)
    ensures AnnouncedOnce(Run(db, ops))
    decreases |ops|
  {
    if ops != [] {
      StepKeepsInv(db, ops[0]);
      StepAnnouncesOnce(db, ops[0]);
      RunAnnouncesOnce(Step(db, ops[0]), ops[1..]);
    }
  }

  /** However often likes are toggled, each liker of a request is announced to its
      author at most once, and each account hears of a promotion at most once. */
  lemma AnnouncedAtMostOnce(ops: seq<Op>, request: nat, liker: nat, user: nat)
    ensures var log := Run(EMPTY_DB, ops).log;
      && Announcements(log, LikeOf(request, liker)) <= 1
      && Announcements(log, PromotionOf(request, user)) <= 1
  {
    hide Step;
    RunAnnouncesOnce(EMPTY_DB, ops);
  }

  // ---- Exactly one announcement ---------------------------------------------

  /** No later step announces the topic: it is closed, or the like has no author to
      hear of it. */
  predicate Over(db: Db, topic: Topic) {
    || Closed(db, topic)
    || (&& topic.LikeOf?
        && topic.request in db.requests
        && topic.liker in db.users
        && var author := db.requests[topic.request].author;
           author.None? || author.value == topic.liker || (topic.request, author.value) in db.withdrawals)
  }

  lemma LikeStaysOver(before: Db, after: Db, added: seq<Notice>, topic: Topic)
    requires Resolved(before) && Resolved(after) && Evolves(before, after)
    requires topic.LikeOf? && Over(before, topic) && !Closed(before, topic)
    requires forall notice | notice in added :: Told(before, after, notice)
    ensures Over(after, topic)
    ensures forall i | 0 <= i < |added| :: !About(added[i], topic)
  {
    forall i | 0 <= i < |added| ensures !About(added[i], topic) {
      assert Told(before, after, added[i]);
    }
  }

  lemma OverStaysOver(before: Db, after: Db, added: seq<Notice>, topic: Topic)
    requires Inv(before) && Inv(after) && Moves(before, after, added) && Over(before, topic)
    ensures Over(after, topic) && Announcements(added, topic) == 0
  {
    if Closed(before, topic) {
      ClosedStaysClosed(before, after, added, topic);
    } else {
      hide Resolved, Shaped, UniqueMedia, Participating, Roles, Evolves, Told;
      LikeStaysOver(before, after, added, topic);
      NotAbout(added, topic);
    }
  }

  lemma {:induction false} RunStaysOver(db: Db, ops: seq<Op>, topic: Topic)
    requires Inv(db) && Over(db, topic)
    ensures Announcements(Run(db, ops).log, topic) == Announcements(db.log, topic)
    decreases |ops|
  {
    if ops != [] {
      var next := Step(db, ops[0]);
      var added := StepMoves(db, ops[0]);
      StepKeepsInv(db, ops[0]);
      OverStaysOver(db, next, added, topic);
      AnnouncementsAdd(db.log, added, topic);
      RunStaysOver(next, ops[1..], topic);
    }
  }

  lemma OneAnnouncement(log: seq<Notice>, notice: Notice, topic: Topic)
    ensures Announcements(log + [notice], topic) == Announcements(log, topic) + if About(notice, topic) then 1 else 0
  {
    AnnouncementsAdd(log, [notice], topic);
    assert [notice][1..] == [];
  }

  /** A like that was not told before is told to the author exactly once, whatever
      follows, if somebody else is the author, takes part and listens; otherwise it
      is never told. */
  lemma FirstLikeDecides(before: seq<Op>, request: nat, liker: nat, now: int, ops: seq<Op>)
    requires var db := Run(EMPTY_DB, before);
      && request in db.requests && liker in db.users && (request, liker) !in db.likes
      && (request, liker) !in db.withdrawals && (request, liker) !in db.history
    ensures var db := Run(EMPTY_DB, before);
      var author := db.requests[request].author;
      Announcements(Run(Step(db, OpToggle(request, liker, now)), ops).log, LikeOf(request, liker))
      == if author.Some? && author.value != liker && (request, author.value) !in db.withdrawals
           && (author.value, OwnRequestLiked) !in db.muted then 1 else 0
  {
    hide Inv, Toggled, Step;
    var db, topic := Run(EMPTY_DB, before), LikeOf(request, liker);
    EveryRunKeepsInv(before);
    RunAnnouncesOnce(EMPTY_DB, before);
    LikeEnds(db, request, liker, now);
    StepKeepsInv(db, OpToggle(request, liker, now));
    RunStaysOver(Step(db, OpToggle(request, liker, now)), ops, topic);
  }

  lemma LikeEnds(db: Db, request: nat, liker: nat, now: int)
    requires Inv(db) && AnnouncedOnce(db)
    requires request in db.requests && liker in db.users && (request, liker) !in db.likes
    requires (request, liker) !in db.withdrawals && (request, liker) !in db.history
    ensures var next, author := Step(db, OpToggle(request, liker, now)), db.requests[request].author;
      && Over(next, LikeOf(request, liker))
      && Announcements(next.log, LikeOf(request, liker))
         == if author.Some? && author.value != liker && (request, author.value) !in db.withdrawals
              && (author.value, OwnRequestLiked) !in db.muted then 1 else 0
  {
    hide Inv, Toggled, Step, Over;
    var author, topic := db.requests[request].author, LikeOf(request, liker);
    NotAnnouncedYet(db, topic);
    LikeIsAStep(db, request, liker, now);
    var next, result := ToggleLike(db, request, liker, now).0, ToggleLike(db, request, liker, now).1;
    ToggleIsToggled(db, request, liker, now);
    LikeIsTold(db, next, request, liker, now, result);
    LikeIsOver(db, next, request, liker, now, result);
    if author.Some? {
      OneAnnouncement(db.log, Notice(author.value, Liked(liker), request), topic);
    }
  }

  lemma NotAnnouncedYet(db: Db, topic: Topic)
    requires AnnouncedOnce(db) && !Closed(db, topic)
    ensures Announcements(db.log, topic) == 0
  {
  }

  lemma LikeIsAStep(db: Db, request: nat, liker: nat, now: int)
    requires request in db.requests && liker in db.users && (request, liker) !in db.likes
    requires (request, liker) !in db.withdrawals
    ensures Step(db, OpToggle(request, liker, now)) == ToggleLike(db, request, liker, now).0
    ensures ToggleLike(db, request, liker, now).1.Ok? && ToggleLike(db, request, liker, now).1.value.liked
  {
  }

  lemma LikeIsOver(db: Db, next: Db, request: nat, liker: nat, now: int, result: Result<LikeState>)
    requires Toggled(db, next, request, liker, now, result) && Inv(db)
    requires request in db.requests && liker in db.users && (request, liker) !in db.likes
    requires (request, liker) !in db.withdrawals
    ensures Over(next, LikeOf(request, liker))
  {
    assert request < db.nextRequest && liker < db.nextUser;
    hide Inv, Tells;
  }

  /** When a request is promoted, exactly its listeners hear of its promotion, once,
      whatever follows. */
  lemma PromotionDecides(before: seq<Op>, today: int, request: nat, user: nat, ops: seq<Op>)
    requires var db := Run(EMPTY_DB, before);
      && request in db.requests && db.requests[request].state == Upcoming
      && db.requests[request].media.release.Some? && db.requests[request].media.release.value <= today
    ensures var db := Run(EMPTY_DB, before);
      Announcements(Run(Step(db, OpPromote(today)), ops).log, PromotionOf(request, user))
      == if user in db.users && (db.requests[request].author == Some(user) || (request, user) in db.likes)
           && (request, user) !in db.withdrawals && (user, RequestChanges) !in db.muted then 1 else 0
  {
    hide Inv, Step;
    var db, topic := Run(EMPTY_DB, before), PromotionOf(request, user);
    EveryRunKeepsInv(before);
    RunAnnouncesOnce(EMPTY_DB, before);
    StepKeepsInv(db, OpPromote(today));
    StepAnnouncesOnce(db, OpPromote(today));
    PromotionEnds(db, today, request, user);
    RunStaysOver(Step(db, OpPromote(today)), ops, topic);
  }

  lemma PromotionEnds(db: Db, today: int, request: nat, user: nat)
    requires Inv(db) && AnnouncedOnce(db) && AnnouncedOnce(Step(db, OpPromote(today)))
    requires request in Released(db, today)
    ensures var next := Step(db, OpPromote(today));
      && Closed(next, PromotionOf(request, user))
      && Announcements(next.log, PromotionOf(request, user))
         == if (request, user) in Listeners(db, {request}) then 1 else 0
  {
    hide Inv, Activated, Stored, Hear, Step, AnnouncedOnce;
    var next, topic := PromoteFrom(db, today, 0, db.nextRequest), PromotionOf(request, user);
    PromotionIsTold(db, today);
    PromotionIsAStep(db, today);
    NotAnnouncedYet(db, topic);
    AtMostOnce(next, topic);
    var added := next.log[|db.log|..];
    AddedIsLogged(db, next);
    AnnouncementsAdd(db.log, added, topic);
    assert (request, user) in Listeners(db, Released(db, today)) <==> (request, user) in Listeners(db, {request});
    HeardCounts(added, Listeners(db, Released(db, today)), request, user);
    PromotedIsClosed(db, next, today, request, user);
  }

  lemma PromotionIsAStep(db: Db, today: int)
    ensures Step(db, OpPromote(today)) == PromoteFrom(db, today, 0, db.nextRequest)
  {
  }

  lemma AtMostOnce(db: Db, topic: Topic)
    requires AnnouncedOnce(db)
    ensures Announcements(db.log, topic) <= 1
  {
  }

  lemma AddedIsLogged(before: Db, after: Db)
    requires |before.log| <= |after.log| && Stored(before, after, after.log[|before.log|..], true)
    ensures after.log == before.log + after.log[|before.log|..]
  {
  }

  lemma PromotedIsClosed(db: Db, next: Db, today: int, request: nat, user: nat)
    requires Inv(db) && Activated(db, next, Released(db, today)) && request in Released(db, today)
    ensures Closed(next, PromotionOf(request, user))
  {
  }

  lemma {:induction false} HeardCounts(added: seq<Notice>, audience: set<(nat, nat)>, request: nat, user: nat)
    requires Hear(added, audience, Promoted)
    ensures (request, user) in audience <==> Announcements(added, PromotionOf(request, user)) > 0
  {
    var topic := PromotionOf(request, user);
    if (request, user) in audience {
      SomeIsAbout(added, Notice(user, Promoted, request), topic);
    } else {
      NotAbout(added, topic);
    }
  }

  lemma {:induction false} SomeIsAbout(log: seq<Notice>, notice: Notice, topic: Topic)
    requires notice in log && About(notice, topic)
    ensures Announcements(log, topic) > 0
  {
    if log[0] != notice {
      SomeIsAbout(log[1..], notice, topic);
    }
  }
}
