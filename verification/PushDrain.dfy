/**
 The push queue drains: while nothing new arrives, every round at least 120 s
 after the previous one uses up attempts, so a bounded number of rounds empties
 the queue whatever the sender answers and although the limit is applied before
 the retry filter.
 */
module PushDrain {
  import opened Arithmetic
  import opened PushQueue
  import opened PushGuarantees

  const PAUSE := 120

  /** The attempts a pair has left. */
  function Left(db: Db, note: nat, sub: nat): (n: nat) {
    if Pending(db, note, sub) then MAX_DELIVERY_ATTEMPTS - Attempts(db, note, sub) else 0
  }

  function LeftSubs(db: Db, note: nat, sub: nat): (n: nat)
    decreases db.nextSub - sub
  {
    if sub >= db.nextSub then 0 else Left(db, note, sub) + LeftSubs(db, note, sub + 1)
  }

  function LeftFrom(db: Db, note: nat): (n: nat)
    decreases db.nextNote - note
  {
    if note >= db.nextNote then 0 else LeftSubs(db, note, 0) + LeftFrom(db, note + 1)
  }

  /** The attempts left over all pending pairs. */
  function AttemptsLeft(db: Db): (n: nat) {
    LeftFrom(db, 0)
  }

  lemma {:induction false} LeftFitsSubs(db: Db, note: nat, sub: nat)
    ensures |PendingSubs(db, note, sub)| <= LeftSubs(db, note, sub) <= 3 * |PendingSubs(db, note, sub)|
    decreases db.nextSub - sub
  {
    if sub < db.nextSub {
      LeftFitsSubs(db, note, sub + 1);
    }
  }

  lemma {:induction false} LeftFitsFrom(db: Db, note: nat)
    ensures |PendingFrom(db, note)| <= LeftFrom(db, note) <= 3 * |PendingFrom(db, note)|
    decreases db.nextNote - note
  {
    if note < db.nextNote {
      LeftFitsSubs(db, note, 0);
      LeftFitsFrom(db, note + 1);
    }
  }

  /** The same ids were handed out and no pair gained attempts. */
  ghost predicate Spent(before: Db, after: Db) {
    && after.nextNote == before.nextNote
    && after.nextSub == before.nextSub
    && forall n: nat, s: nat :: Left(after, n, s) <= Left(before, n, s)
  }

  lemma {:induction false} SpentSubs(before: Db, after: Db, note: nat, sub: nat, n: nat, s: nat)
    requires Spent(before, after)
    ensures LeftSubs(after, note, sub) <= LeftSubs(before, note, sub)
    ensures n == note && sub <= s < before.nextSub && Left(after, n, s) < Left(before, n, s) ==>
      LeftSubs(after, note, sub) < LeftSubs(before, note, sub)
    decreases before.nextSub - sub
  {
    if sub < before.nextSub {
      SpentSubs(before, after, note, sub + 1, n, s);
    }
  }

  lemma {:induction false} SpentFrom(before: Db, after: Db, note: nat, n: nat, s: nat)
    requires Spent(before, after)
    ensures LeftFrom(after, note) <= LeftFrom(before, note)
    ensures note <= n < before.nextNote && s < before.nextSub && Left(after, n, s) < Left(before, n, s) ==>
      LeftFrom(after, note) < LeftFrom(before, note)
    decreases before.nextNote - note
  {
    if note < before.nextNote {
      SpentSubs(before, after, note, 0, n, s);
      SpentFrom(before, after, note + 1, n, s);
    }
  }

  lemma HandleSparesPending(sys: System, item: Item, response: Response, now: int, n: nat, s: nat)
    requires (n, s) != (item.note, item.sub) && Pending(Handle(sys, item, response, now).0.db, n, s)
    ensures Pending(sys.db, n, s) && Attempts(Handle(sys, item, response, now).0.db, n, s) == Attempts(sys.db, n, s)
  {
  }

  lemma HandleSpends(sys: System, item: Item, response: Response, now: int)
    requires Inv(sys) && Batched(sys, [item])
    ensures var next := Handle(sys, item, response, now).0;
      && Spent(sys.db, next.db)
      && (item.sub in sys.db.subs && Pending(sys.db, item.note, item.sub) ==>
            Left(next.db, item.note, item.sub) < Left(sys.db, item.note, item.sub))
  {
    assert item == [item][0];
    var next := Handle(sys, item, response, now).0;
    forall n: nat, s: nat ensures Left(next.db, n, s) <= Left(sys.db, n, s) {
      if (n, s) != (item.note, item.sub) && Pending(next.db, n, s) {
        HandleSparesPending(sys, item, response, now, n, s);
      }
    }
  }

  lemma {:induction false} HandleAllSpends(sys: System, items: seq<Item>, sender: Item -> Response, now: int)
    requires Inv(sys) && Batched(sys, items)
    ensures var next := HandleAll(sys, items, sender, now).0;
      && Spent(sys.db, next.db)
      && (items != [] && Pending(sys.db, items[0].note, items[0].sub) ==>
            Left(next.db, items[0].note, items[0].sub) < Left(sys.db, items[0].note, items[0].sub))
    decreases |items|
  {
    if items != [] {
      assert Batched(sys, [items[0]]);
      HandleSpends(sys, items[0], sender(items[0]), now);
      var first := Handle(sys, items[0], sender(items[0]), now);
      if first.1 {
        HandleKeepsInv(sys, items[0], sender(items[0]), now);
        HandleKeepsBatch(sys, items, sender(items[0]), now);
        HandleAllSpends(first.0, items[1..], sender, now);
      }
    }
  }

  /** Every recorded attempt is at least a pause old. */
  predicate Rested(db: Db, now: int) {
    forall k | k in db.deliveries && db.deliveries[k].last.Some? :: db.deliveries[k].last.value + PAUSE <= now
  }

  lemma RestedIsReady(db: Db, row: (nat, nat), now: int)
    requires Rested(db, now) && Pending(db, row.0, row.1)
    ensures RetryReady(db, row, now)
  {
    assert Pow2(0) == 1 && Pow2(1) == 2;
  }

  /** Every round with something pending uses up at least one attempt. */
  lemma RoundSpends(sys: System, limit: int, sender: Item -> Response, now: int)
    requires Inv(sys) && Rested(sys.db, now) && PendingRows(sys.db) != []
    ensures AttemptsLeft(Deliver(sys, limit, sender, now).0.db) < AttemptsLeft(sys.db)
  {
    var rows := Limited(sys.db, limit);
    assert Pending(sys.db, rows[0].0, rows[0].1);
    RestedIsReady(sys.db, rows[0], now);
    var items := Batch(sys.db, limit, now);
    assert (items[0].note, items[0].sub) == rows[0];
    SnapshotIsBatched(sys, limit, now);
    HandleAllSpends(sys, items, sender, now);
    SpentFrom(sys.db, Deliver(sys, limit, sender, now).0.db, 0, rows[0].0, rows[0].1);
  }

  datatype Round = Round(limit: int, sender: Item -> Response, now: int)

  function RunRounds(sys: System, rounds: seq<Round>): (end: System)
    decreases |rounds|
  {
    if rounds == [] then sys
    else RunRounds(Deliver(sys, rounds[0].limit, rounds[0].sender, rounds[0].now).0, rounds[1..])
  }

  predicate Spaced(rounds: seq<Round>) {
    forall i :: 0 < i < |rounds| ==> rounds[i - 1].now + PAUSE <= rounds[i].now
  }

  /** No recorded attempt is later than `now`. */
  predicate Stamped(db: Db, now: int) {
    forall k | k in db.deliveries && db.deliveries[k].last.Some? :: db.deliveries[k].last.value <= now
  }

  lemma {:induction false} HandleAllStamps(
    sys: System, items: seq<Item>, sender: Item -> Response, now: int, later: int)
    requires Stamped(sys.db, later) && now <= later
    ensures Stamped(HandleAll(sys, items, sender, now).0.db, later)
    decreases |items|
  {
    if items != [] {
      var first := Handle(sys, items[0], sender(items[0]), now);
      assert Stamped(first.0.db, later);
      if first.1 {
        HandleAllStamps(first.0, items[1..], sender, now, later);
      }
    }
  }

  lemma RoundLeavesRested(sys: System, limit: int, sender: Item -> Response, now: int, later: int)
    requires Rested(sys.db, now) && now + PAUSE <= later
    ensures Rested(Deliver(sys, limit, sender, now).0.db, later)
  {
    HandleAllStamps(sys, Batch(sys.db, limit, now), sender, now, now);
  }

  lemma RestIsSpaced(rounds: seq<Round>)
    requires rounds != [] && Spaced(rounds)
    ensures Spaced(rounds[1..])
    ensures |rounds| > 1 ==> rounds[0].now + PAUSE <= rounds[1..][0].now
  {
    forall i | 0 < i < |rounds[1..]| ensures rounds[1..][i - 1].now + PAUSE <= rounds[1..][i].now {
      assert rounds[1..][i] == rounds[i + 1] && rounds[1..][i - 1] == rounds[i];
    }
  }

  lemma {:induction false} EmptyStaysEmpty(sys: System, rounds: seq<Round>)
    requires PendingRows(sys.db) == []
    ensures PendingRows(RunRounds(sys, rounds).db) == []
    decreases |rounds|
  {
    if rounds != [] {
      assert Deliver(sys, rounds[0].limit, rounds[0].sender, rounds[0].now).0 == sys;
      EmptyStaysEmpty(sys, rounds[1..]);
    }
  }

  lemma {:induction false} EnoughRoundsEmpty(sys: System, rounds: seq<Round>)
    requires Inv(sys) && Spaced(rounds) && AttemptsLeft(sys.db) <= |rounds|
    requires rounds != [] ==> Rested(sys.db, rounds[0].now)
    ensures PendingRows(RunRounds(sys, rounds).db) == []
    decreases |rounds|
  {
    LeftFitsFrom(sys.db, 0);
    if PendingRows(sys.db) == [] {
      EmptyStaysEmpty(sys, rounds);
    } else {
      var round := rounds[0];
      var next := Deliver(sys, round.limit, round.sender, round.now).0;
      RoundSpends(sys, round.limit, round.sender, round.now);
      DeliverKeepsInv(sys, round.limit, round.sender, round.now);
      RestIsSpaced(rounds);
      if |rounds| > 1 {
        RoundLeavesRested(sys, round.limit, round.sender, round.now, rounds[1..][0].now);
      }
      EnoughRoundsEmpty(next, rounds[1..]);
    }
  }

  /** From any reachable system, three rounds per pair that was pending empty the queue. */
  lemma QueueDrains(ops: seq<Op>, rounds: seq<Round>)
    requires Spaced(rounds) && 3 * |PendingRows(Run(START, ops).db)| <= |rounds|
    requires rounds != [] ==> Rested(Run(START, ops).db, rounds[0].now)
    ensures PendingRows(RunRounds(Run(START, ops), rounds).db) == []
  {
    StartIsInv();
    RunKeepsInv(START, ops);
    LeftFitsFrom(Run(START, ops).db, 0);
    EnoughRoundsEmpty(Run(START, ops), rounds);
  }

  // ---- Draining by the clock ------------------------------------------------

  /** The clock does not go back. */
  predicate Ordered(from: int, rounds: seq<Round>)
    decreases |rounds|
  {
    rounds != [] ==> from <= rounds[0].now && Ordered(rounds[0].now, rounds[1..])
  }

  /** How many stretches of a pause, each ending in a round, fit one after the other
      into the rounds that follow `since`. */
  function Stretches(rounds: seq<Round>, since: int): (n: nat) {
    if rounds == [] then 0
    else if rounds[0].now >= since + PAUSE then 1 + Stretches(rounds[1..], rounds[0].now)
    else Stretches(rounds[1..], since)
  }

  /** A later start loses no more than one stretch, and gains none. */
  lemma {:induction false} LaterStretches(rounds: seq<Round>, since: int, later: int)
    requires since <= later
    ensures Stretches(rounds, later) <= Stretches(rounds, since)
    ensures later <= since + PAUSE ==> Stretches(rounds, since) <= 1 + Stretches(rounds, later)
    decreases |rounds|
  {
    if rounds != [] {
      var now, rest := rounds[0].now, rounds[1..];
      LaterStretches(rest, since, later);
      if now <= later {
        LaterStretches(rest, now, later);
      } else {
        LaterStretches(rest, later, now);
      }
    }
  }

  lemma BatchIsPending(db: Db, limit: int, now: int)
    ensures forall item | item in Batch(db, limit, now) :: Pending(db, item.note, item.sub)
  {
    PendingFromLists(db, 0);
    ReadyItemsAreRows(db, Limited(db, limit), now);
  }

  /** A round changes nothing or uses up an attempt. */
  lemma RoundSpendsOrSleeps(sys: System, limit: int, sender: Item -> Response, now: int)
    requires Inv(sys)
    ensures var next := Deliver(sys, limit, sender, now).0;
      next == sys || AttemptsLeft(next.db) < AttemptsLeft(sys.db)
  {
    var items := Batch(sys.db, limit, now);
    if items != [] {
      BatchIsPending(sys.db, limit, now);
      assert items[0] in items;
      SnapshotIsBatched(sys, limit, now);
      HandleAllSpends(sys, items, sender, now);
      SpentFrom(sys.db, Deliver(sys, limit, sender, now).0.db, 0, items[0].note, items[0].sub);
    }
  }

  lemma RoundStamps(sys: System, limit: int, sender: Item -> Response, now: int)
    requires Stamped(sys.db, now)
    ensures Stamped(Deliver(sys, limit, sender, now).0.db, now)
  {
    HandleAllStamps(sys, Batch(sys.db, limit, now), sender, now, now);
  }

  /** Every stretch spends an attempt, whatever the rounds in between, until the queue
      is empty. */
  lemma {:induction false} StretchesSpend(sys: System, rounds: seq<Round>, since: int)
    requires Inv(sys) && Stamped(sys.db, since) && Ordered(since, rounds)
    ensures var end := RunRounds(sys, rounds);
      PendingRows(end.db) == [] || AttemptsLeft(end.db) + Stretches(rounds, since) <= AttemptsLeft(sys.db)
    decreases |rounds|
  {
    if PendingRows(sys.db) == [] {
      EmptyStaysEmpty(sys, rounds);
    } else if rounds != [] {
      var round, rest := rounds[0], rounds[1..];
      var next := Deliver(sys, round.limit, round.sender, round.now).0;
      DeliverKeepsInv(sys, round.limit, round.sender, round.now);
      RoundSpendsOrSleeps(sys, round.limit, round.sender, round.now);
      RoundStamps(sys, round.limit, round.sender, round.now);
      hide Inv, PendingRows, AttemptsLeft, Deliver;
      if round.now >= since + PAUSE {
        RoundSpends(sys, round.limit, round.sender, round.now);
        StretchesSpend(next, rest, round.now);
      } else if next == sys {
        OrderedEarlier(rest, since, round.now);
        StretchesSpend(sys, rest, since);
      } else {
        StretchesSpend(next, rest, round.now);
        LaterStretches(rest, since, round.now);
      }
    }
  }

  lemma OrderedEarlier(rounds: seq<Round>, since: int, later: int)
    requires since <= later && Ordered(later, rounds)
    ensures Ordered(since, rounds)
  {
  }

  /** The recorded attempts of a run are no later than its last round. */
  lemma {:induction false} RunStamps(sys: System, ops: seq<Op>, now: int)
    requires Stamped(sys.db, now) && forall i :: 0 <= i < |ops| && ops[i].OpDeliver? ==> ops[i].now <= now
    ensures Stamped(Run(sys, ops).db, now)
    decreases |ops|
  {
    if ops != [] {
      StepStamps(sys, ops[0], now);
      RunStamps(Step(sys, ops[0]), ops[1..], now);
    }
  }

  lemma StepStamps(sys: System, op: Op, now: int)
    requires Stamped(sys.db, now) && (op.OpDeliver? ==> op.now <= now)
    ensures Stamped(Step(sys, op).db, now)
  {
    if op.OpDeliver? {
      HandleAllStamps(sys, Batch(sys.db, op.limit, op.now), op.sender, op.now, now);
    }
  }

  /** From any system reached by `start`, rounds of any spacing empty the queue as soon
      as three stretches of 120 seconds per pair that was pending have passed. */
  lemma QueueDrainsByTheClock(ops: seq<Op>, start: int, rounds: seq<Round>)
    requires forall i :: 0 <= i < |ops| && ops[i].OpDeliver? ==> ops[i].now <= start
    requires Ordered(start, rounds)
    requires 3 * |PendingRows(Run(START, ops).db)| <= Stretches(rounds, start)
    ensures PendingRows(RunRounds(Run(START, ops), rounds).db) == []
  {
    hide Inv;
    var sys := Run(START, ops);
    StartIsInv();
    RunKeepsInv(START, ops);
    RunStamps(START, ops, start);
    StretchesSpend(sys, rounds, start);
    LeftFitsFrom(sys.db, 0);
    LeftFitsFrom(RunRounds(sys, rounds).db, 0);
  }

  /** Each round comes at most `gap` seconds after the one before. */
  predicate Cadence(rounds: seq<Round>, from: int, gap: nat)
    decreases |rounds|
  {
    rounds != [] ==> from <= rounds[0].now <= from + gap && Cadence(rounds[1..], rounds[0].now, gap)
  }

  function LastRound(rounds: seq<Round>, start: int): (now: int) {
    if rounds == [] then start else LastRound(rounds[1..], rounds[0].now)
  }

  lemma {:induction false} CadenceStretches(rounds: seq<Round>, since: int, latest: int, gap: nat, n: nat)
    requires since <= latest < since + PAUSE && Cadence(rounds, latest, gap)
    requires LastRound(rounds, latest) >= since + n * (PAUSE + gap)
    ensures Stretches(rounds, since) >= n
    decreases |rounds|
  {
    if n > 0 {
      assert n * (PAUSE + gap) == (n - 1) * (PAUSE + gap) + (PAUSE + gap) && (n - 1) * (PAUSE + gap) >= 0;
      var now := rounds[0].now;
      if now >= since + PAUSE {
        CadenceStretches(rounds[1..], now, now, gap, n - 1);
      } else {
        CadenceStretches(rounds[1..], since, now, gap, n);
      }
    }
  }

  lemma {:induction false} CadenceIsOrdered(rounds: seq<Round>, from: int, gap: nat)
    requires Cadence(rounds, from, gap)
    ensures Ordered(from, rounds)
  {
    if rounds != [] {
      CadenceIsOrdered(rounds[1..], rounds[0].now, gap);
    }
  }

  /** A worker that comes round at least every `gap` seconds empties the queue within
      3 * (120 + gap) seconds per pair that was pending. */
  lemma WorkerDrains(ops: seq<Op>, start: int, rounds: seq<Round>, gap: nat)
    requires forall i :: 0 <= i < |ops| && ops[i].OpDeliver? ==> ops[i].now <= start
    requires Cadence(rounds, start, gap)
    requires LastRound(rounds, start) >= start + 3 * |PendingRows(Run(START, ops).db)| * (PAUSE + gap)
    ensures PendingRows(RunRounds(Run(START, ops), rounds).db) == []
  {
    CadenceStretches(rounds, start, start, gap, 3 * |PendingRows(Run(START, ops).db)|);
    CadenceIsOrdered(rounds, start, gap);
    QueueDrainsByTheClock(ops, start, rounds);
  }

  lemma NewNotificationIsPending(sys: System, user: nat, sub: nat)
    requires Inv(sys) && user in sys.db.users && sys.db.users[user]
    requires sub in sys.db.subs && sys.db.subs[sub].user == user
    ensures (sys.db.nextNote, sub) in PendingRows(Step(sys, OpNotify(user)).db)
  {
    var next := Step(sys, OpNotify(user)).db;
    assert Pending(next, sys.db.nextNote, sub);
    PendingFromLists(next, 0);
    assert sub < next.nextSub && sys.db.nextNote < next.nextNote;
    hide Inv, Pending, PendingFrom, Step;
  }

  /** A notification for an active account is queued for every endpoint it holds,
      so nothing newer than a grant is skipped. */
  lemma NewNotificationsArePending(ops: seq<Op>, user: nat, sub: nat)
    requires var db := Run(START, ops).db;
      user in db.users && db.users[user] && sub in db.subs && db.subs[sub].user == user
    ensures var sys := Run(START, ops);
      (sys.db.nextNote, sub) in PendingRows(Step(sys, OpNotify(user)).db)
  {
    hide Inv;
    StartIsInv();
    RunKeepsInv(START, ops);
    NewNotificationIsPending(Run(START, ops), user, sub);
  }
}
