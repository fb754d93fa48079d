/**
 What the answers of the push service do to a pair of a notification and an
 endpoint: which answers are retried, which end the pair, and that a pair is queued
 for as long as all its answers were passing ones and there were fewer than three.
 */
module PushRetries {
  import opened Wrappers
  import opened PushQueue
  import opened PushGuarantees

  // ---- Kinds of answers -----------------------------------------------------

  /** Worth another attempt: no status, a status outside 400..499, or 408, 425, 429. */
  predicate Passing(answer: Response) {
    || answer.OtherError?
    || (answer.PushError? &&
         match answer.status
         case None => true
         case Some(status) => status < 400 || status >= 500 || status == 408 || status == 425 || status == 429)
  }

  /** The subscription is gone: 404 or 410. */
  predicate Vanished(answer: Response) {
    answer.PushError? && (answer.status == Some(404) || answer.status == Some(410))
  }

  /** Any other 4xx: no attempt will help. */
  predicate Final(answer: Response) {
    !answer.Accepted? && !Passing(answer) && !Vanished(answer)
  }

  /** What handling one item leaves behind, by its answer. */
  ghost predicate Settled(before: Db, after: Db, completed: bool, item: Item, answer: Response, now: int) {
    var key := (item.note, item.sub);
    var stands := item.note in before.notes && item.sub in before.subs;
    var attempts := if key in before.deliveries then before.deliveries[key].attempts else 0;
    && after == before.(subs := after.subs, deliveries := after.deliveries)
    && (Vanished(answer) ==>
          && completed
          && after.subs == before.subs - {item.sub}
          && (forall k :: k in after.deliveries <==> k in before.deliveries && k.1 != item.sub)
          && (forall k | k in after.deliveries :: after.deliveries[k] == before.deliveries[k]))
    && (!Vanished(answer) ==> after.subs == before.subs && completed == stands)
    && (!Vanished(answer) && !stands ==> after.deliveries == before.deliveries)
    && (stands && answer.Accepted? ==>
          after.deliveries == before.deliveries[key := Delivery(attempts + 1, Some(now), Some(now))])
    && (stands && Passing(answer) ==>
          after.deliveries == before.deliveries[key := Delivery(attempts + 1, Some(now), None)])
    && (stands && Final(answer) ==>
          after.deliveries == before.deliveries[key := Delivery(3, Some(now), None)])
  }

  /** What a call of the browser to save its endpoint leaves behind. */
  ghost predicate Saving(before: System, after: System, user: nat, endpoint: string, result: SaveResult) {
    var was, now := before.db, after.db;
    var held := exists s | s in was.subs :: was.subs[s].user == user && was.subs[s].endpoint == endpoint;
    var full := |set s | s in was.subs && was.subs[s].user == user| >= 16;
    && (held ==> result.Saved?)
    && (result.LimitReached? <==> !held && full)
    && (result.UnknownUser? <==> !held && !full && user !in was.users)
    && (held || !result.Saved? ==> after == before)
    && (!held && result.Saved? ==> Granted(before, after, user, endpoint, result.id))
  }

  /** The row `id` now holds the endpoint for the user, from the next notification on;
      everything else is as before. */
  ghost predicate Granted(before: System, after: System, user: nat, endpoint: string, id: nat) {
    var was, now := before.db, after.db;
    && now == was.(subs := now.subs, nextSub := now.nextSub, deliveries := now.deliveries)
    && after.granted == before.granted[endpoint := (user, was.nextNote)] && after.log == before.log
    && id in now.subs && now.subs[id].user == user && now.subs[id].endpoint == endpoint
    && (if id in was.subs then was.subs[id].endpoint == endpoint && now.nextSub == was.nextSub
        else id == was.nextSub && now.nextSub == id + 1)
    && now.subs == was.subs[id := now.subs[id]]
    && (forall n | n in was.notes && was.notes[n] == user :: n <= now.subs[id].start)
    && (forall k :: k in now.deliveries <==> k in was.deliveries && k.1 != id)
    && (forall k | k in now.deliveries :: now.deliveries[k] == was.deliveries[k])
  }

  lemma SubscribeSaves(sys: System, user: nat, endpoint: string)
    requires Referential(sys.db)
    ensures var r := Subscribe(sys, user, endpoint); Saving(sys, r.0, user, endpoint, r.1)
  {
    var r := Subscribe(sys, user, endpoint);
    assert (set s | s in sys.db.subs && sys.db.subs[s].user == user) == SubsOf(sys.db, user);
    if r.1.Saved? && r.0 != sys {
      SubscribeMoves(sys, user, endpoint);
    }
  }

  lemma SubscribeMoves(sys: System, user: nat, endpoint: string)
    requires Referential(sys.db)
    requires Subscribe(sys, user, endpoint).1.Saved? && Subscribe(sys, user, endpoint).0 != sys
    ensures var r := Subscribe(sys, user, endpoint); Granted(sys, r.0, user, endpoint, r.1.id)
  {
  }

  lemma HandleSettles(sys: System, item: Item, answer: Response, now: int)
    ensures var r := Handle(sys, item, answer, now);
      && Settled(sys.db, r.0.db, r.1, item, answer, now)
      && |r.0.log| == |sys.log| + 1 && r.0.log[..|sys.log|] == sys.log
      && r.0.log[|sys.log|].note == item.note && r.0.log[|sys.log|].endpoint == item.endpoint
      && r.0.log[|sys.log|].answer == answer
  {
  }

  // ---- A whole round --------------------------------------------------------

  /** The sends of a round: the items of the snapshot in order, each with its answer,
      up to the first whose row or notification is missing. */
  ghost predicate SendsInOrder(
    before: seq<Send>, after: seq<Send>, items: seq<Item>, sender: Item -> Response, completed: bool)
  {
    && before <= after && |after| <= |before| + |items|
    && (completed ==> |after| == |before| + |items|)
    && (forall i | 0 <= i < |after| - |before| ::
          var send := after[|before| + i];
          send.note == items[i].note && send.endpoint == items[i].endpoint && send.answer == sender(items[i]))
  }

  lemma {:induction false} RoundSendsInOrder(sys: System, items: seq<Item>, sender: Item -> Response, now: int)
    ensures var r := HandleAll(sys, items, sender, now); SendsInOrder(sys.log, r.0.log, items, sender, r.1)
    decreases |items|
  {
    if items != [] {
      var first := Handle(sys, items[0], sender(items[0]), now);
      HandleSettles(sys, items[0], sender(items[0]), now);
      if first.1 {
        RoundSendsInOrder(first.0, items[1..], sender, now);
        var log := HandleAll(sys, items, sender, now).0.log;
        assert log[..|sys.log|] == first.0.log[..|sys.log|];
        forall i | 0 <= i < |log| - |sys.log|
          ensures log[|sys.log| + i].note == items[i].note && log[|sys.log| + i].endpoint == items[i].endpoint
          ensures log[|sys.log| + i].answer == sender(items[i])
        {
          if i == 0 {
            assert log[|sys.log|] == first.0.log[|sys.log|];
          } else {
            assert log[|first.0.log| + (i - 1)] == log[|sys.log| + i] && items[1..][i - 1] == items[i];
          }
        }
      }
    }
  }

  // ---- The snapshot ---------------------------------------------------------

  /** An attempt that failed once rests 60 seconds, one that failed twice 120. */
  predicate Rests(db: Db, note: nat, sub: nat, now: int) {
    var key := (note, sub);
    && key in db.deliveries && db.deliveries[key].last.Some?
    && now < db.deliveries[key].last.value + (if db.deliveries[key].attempts <= 1 then 60 else 120)
  }

  lemma PendingRests(db: Db, row: (nat, nat), now: int)
    requires Pending(db, row.0, row.1)
    ensures RetryReady(db, row, now) <==> !Rests(db, row.0, row.1, now)
  {
  }

  /** The rows a round looks at: the first `limit` pending ones, 1 to 500 of them. */
  function Looked(db: Db, limit: int): (rows: seq<(nat, nat)>) {
    var rows := PendingRows(db);
    var most := if limit < 1 then 1 else if limit > 500 then 500 else limit;
    if |rows| <= most then rows else rows[..most]
  }

  /** The item of a pair. */
  function ItemOf(db: Db, row: (nat, nat)): (item: Item)
    requires row.1 in db.subs
  {
    Item(row.0, row.1, db.subs[row.1].endpoint, db.subs[row.1].user)
  }

  /** By notification, then subscription. */
  ghost predicate Ordered(items: seq<Item>) {
    forall i, j | 0 <= i < j < |items| :: RowBefore((items[i].note, items[i].sub), (items[j].note, items[j].sub))
  }

  /** The items of the rows that do not rest, in order. */
  ghost predicate Snapshot(db: Db, rows: seq<(nat, nat)>, items: seq<Item>, now: int) {
    && (forall row | row in rows :: row.1 in db.subs)
    && (forall row | row in rows && !Rests(db, row.0, row.1, now) :: ItemOf(db, row) in items)
    && (forall item | item in items ::
          && (item.note, item.sub) in rows && !Rests(db, item.note, item.sub, now)
          && item == ItemOf(db, (item.note, item.sub)))
    && Ordered(items)
  }

  lemma OrderedMore(item: Item, later: seq<Item>)
    requires Ordered(later)
    requires forall other | other in later :: RowBefore((item.note, item.sub), (other.note, other.sub))
    ensures Ordered([item] + later)
  {
  }

  lemma {:induction false} ReadyItemsAreOrdered(db: Db, rows: seq<(nat, nat)>, now: int)
    requires forall i :: 0 <= i < |rows| ==> Linked(db, rows[i].0, rows[i].1)
    requires forall i, j :: 0 <= i < j < |rows| ==> RowBefore(rows[i], rows[j])
    ensures var items := ReadyItems(db, rows, now);
      (forall item | item in items :: (item.note, item.sub) in rows) && Ordered(items)
  {
    if rows != [] {
      hide Linked, RetryReady, RowBefore, Ordered;
      var rest := rows[1..];
      ReadyItemsAreOrdered(db, rest, now);
      assert forall row :: row in rest ==> row in rows && RowBefore(rows[0], row);
      var later := ReadyItems(db, rest, now);
      if RetryReady(db, rows[0], now) {
        assert rows[0].1 in db.subs by {
          LinkedIsHeld(db, rows[0].0, rows[0].1);
        }
        OrderedMore(ItemOf(db, rows[0]), later);
      } else {
        assert [] + later == later;
      }
    }
  }

  lemma LinkedIsHeld(db: Db, note: nat, sub: nat)
    requires Linked(db, note, sub)
    ensures sub in db.subs
  {
  }

  lemma {:induction false} ReadyItemsAreRested(db: Db, rows: seq<(nat, nat)>, now: int)
    requires forall i :: 0 <= i < |rows| ==> Linked(db, rows[i].0, rows[i].1)
    requires forall i :: 0 <= i < |rows| ==> Pending(db, rows[i].0, rows[i].1)
    ensures var items := ReadyItems(db, rows, now);
      && (forall row | row in rows :: row.1 in db.subs)
      && (forall row | row in rows && !Rests(db, row.0, row.1, now) :: ItemOf(db, row) in items)
      && (forall item | item in items ::
            && (item.note, item.sub) in rows && !Rests(db, item.note, item.sub, now)
            && item == ItemOf(db, (item.note, item.sub)))
  {
    if rows != [] {
      var rest := rows[1..];
      assert Linked(db, rows[0].0, rows[0].1) && Pending(db, rows[0].0, rows[0].1);
      PendingRests(db, rows[0], now);
      ReadyItemsAreRested(db, rest, now);
      assert forall row :: row in rows <==> row == rows[0] || row in rest;
      hide Pending, Rests, RetryReady, Linked;
    }
  }

  lemma ReadyItemsAreSnapshot(db: Db, rows: seq<(nat, nat)>, now: int)
    requires forall i :: 0 <= i < |rows| ==> Linked(db, rows[i].0, rows[i].1)
    requires forall i :: 0 <= i < |rows| ==> Pending(db, rows[i].0, rows[i].1)
    requires forall i, j :: 0 <= i < j < |rows| ==> RowBefore(rows[i], rows[j])
    ensures Snapshot(db, rows, ReadyItems(db, rows, now), now)
  {
    ReadyItemsAreOrdered(db, rows, now);
    ReadyItemsAreRested(db, rows, now);
  }

  /** A round works on exactly the rows it looks at that do not rest. */
  lemma BatchIsSnapshot(db: Db, limit: int, now: int)
    ensures Snapshot(db, Looked(db, limit), Batch(db, limit, now), now)
  {
    PendingFromLists(db, 0);
    ReadyItemsAreSnapshot(db, Limited(db, limit), now);
  }

  // ---- As long as all answers pass ------------------------------------------

  /** How many answers of a pair were not passing ones. */
  function Stops(log: seq<Send>, note: nat, endpoint: string): (n: nat) {
    if log == [] then 0
    else
      var before := Stops(log[..|log| - 1], note, endpoint);
      var last := log[|log| - 1];
      if Concerns(last, note, endpoint) && !Passing(last.answer) then before + 1 else before
  }

  lemma OneMoreStop(log: seq<Send>, send: Send, note: nat, endpoint: string)
    ensures Stops(log + [send], note, endpoint)
         == Stops(log, note, endpoint) + if Concerns(send, note, endpoint) && !Passing(send.answer) then 1 else 0
  {
    assert (log + [send])[..|log|] == log;
  }

  /** The delivery row of a linked pair counts its sends while all answers pass, and is
      closed by the first that does not. */
  ghost predicate Tells(db: Db, log: seq<Send>, note: nat, sub: nat)
    requires sub in db.subs
  {
    var e, key := db.subs[sub].endpoint, (note, sub);
    if Stops(log, note, e) == 0
    then Attempts(db, note, sub) == Sends(log, note, e)
      && (key in db.deliveries ==> db.deliveries[key].delivered.None?)
    else Attempts(db, note, sub) >= 3 || (key in db.deliveries && db.deliveries[key].delivered.Some?)
  }

  ghost predicate Exact(sys: System) {
    forall n: nat, s: nat | Linked(sys.db, n, s) :: Tells(sys.db, sys.log, n, s)
  }

  // ---- What no other call does ----------------------------------------------

  /** Another call links no pair that a running round could know: ids are not reused,
      endpoints stay on their rows, and an old pair is linked only if it was, and then
      keeps its delivery row. */
  ghost predicate LinksNothingOld(before: Db, after: Db) {
    && before.nextNote <= after.nextNote && before.nextSub <= after.nextSub
    && (forall s | s in after.subs ::
          if s in before.subs then after.subs[s].endpoint == before.subs[s].endpoint else before.nextSub <= s)
    && (forall n: nat, s: nat | n < before.nextNote && Linked(after, n, s) ::
          Linked(before, n, s) && ((n, s) in before.deliveries ==> (n, s) in after.deliveries))
    && (forall k | k in after.deliveries :: k in before.deliveries && after.deliveries[k] == before.deliveries[k])
  }

  lemma RemovalLinksNothing(db: Db, subs: set<nat>, notes: set<nat>, users: map<nat, bool>)
    requires Referential(db)
    ensures LinksNothingOld(db, WithoutNotes(WithoutSubs(db, subs), notes).(users := users))
  {
  }

  lemma NoteRemovalLinksNothing(db: Db, notes: set<nat>)
    requires Referential(db)
    ensures LinksNothingOld(db, WithoutNotes(db, notes))
  {
  }

  lemma SubRemovalLinksNothing(db: Db, subs: set<nat>, users: map<nat, bool>)
    requires Referential(db)
    ensures LinksNothingOld(db, WithoutSubs(db.(users := users), subs))
  {
  }

  lemma UsersLinkNothing(db: Db, users: map<nat, bool>, nextUser: nat)
    requires Referential(db)
    ensures LinksNothingOld(db, db.(users := users, nextUser := nextUser))
  {
  }

  lemma SubscribeLinksNothing(sys: System, user: nat, endpoint: string)
    requires Referential(sys.db)
    ensures LinksNothingOld(sys.db, Subscribe(sys, user, endpoint).0.db)
  {
    var r := Subscribe(sys, user, endpoint);
    if r.1.Saved? && r.0 != sys {
      var id := r.1.id;
      var after := r.0.db;
      forall n: nat, s: nat | n < sys.db.nextNote && Linked(after, n, s)
        ensures Linked(sys.db, n, s) && ((n, s) in sys.db.deliveries ==> (n, s) in after.deliveries)
      {
        assert s != id;
      }
    }
  }

  lemma NotifyLinksNothing(sys: System, user: nat)
    requires Referential(sys.db)
    ensures LinksNothingOld(sys.db, Step(sys, OpNotify(user)).db)
  {
  }

  lemma OtherStepLinksNothing(sys: System, op: Op)
    requires Referential(sys.db) && !op.OpDeliver?
    ensures LinksNothingOld(sys.db, Step(sys, op).db)
  {
    var db := sys.db;
    UsersLinkNothing(db, db.users, db.nextUser);
    assert db.(users := db.users, nextUser := db.nextUser) == db;
    assert db.(users := db.users) == db;
    hide LinksNothingOld, Referential;
    match op
    case OpAddUser => UsersLinkNothing(db, db.users[db.nextUser := true], db.nextUser + 1);
    case OpSetActive(user, active) =>
      UsersLinkNothing(db, db.users[user := active], db.nextUser);
      SubRemovalLinksNothing(db, SubsOf(db, user), db.users[user := active]);
    case OpRevoke(user) => SubRemovalLinksNothing(db, SubsOf(db, user), db.users);
    case OpDeleteUser(user) =>
      var notes := set n | n in db.notes && db.notes[n] == user;
      RemovalLinksNothing(db, SubsOf(db, user), notes, db.users - {user});
    case OpNotify(user) => NotifyLinksNothing(sys, user);
    case OpDeleteNote(note) => NoteRemovalLinksNothing(db, {note});
    case OpSubscribe(user, endpoint) => SubscribeLinksNothing(sys, user, endpoint);
    case OpUnsubscribe(user, endpoint) =>
      var gone := set s | s in db.subs && db.subs[s].user == user && db.subs[s].endpoint == endpoint;
      SubRemovalLinksNothing(db, gone, db.users);
  }

  // ---- Over every run of atomic rounds --------------------------------------

  lemma OtherStepKeepsExact(sys: System, op: Op)
    requires Referential(sys.db) && Accounted(sys.db, sys.log) && Exact(sys) && !op.OpDeliver?
    ensures Exact(Step(sys, op))
  {
    var next := Step(sys, op);
    OtherStepLinksNothing(sys, op);
    OtherStepKeepsLog(sys, op);
    forall n: nat, s: nat | Linked(next.db, n, s) ensures Tells(next.db, next.log, n, s) {
      if n >= sys.db.nextNote {
        NothingSent(sys.log, n, next.db.subs[s].endpoint);
      } else {
        assert Linked(sys.db, n, s) && Tells(sys.db, sys.log, n, s);
      }
    }
  }

  lemma OtherStepKeepsLog(sys: System, op: Op)
    requires !op.OpDeliver?
    ensures Step(sys, op).log == sys.log
  {
  }

  lemma {:induction false} NothingSent(log: seq<Send>, note: nat, endpoint: string)
    requires Sends(log, note, endpoint) == 0
    ensures Stops(log, note, endpoint) == 0
  {
    if log != [] {
      NothingSent(log[..|log| - 1], note, endpoint);
    }
  }

  /** Handling an item that is due keeps the row of every linked pair exact. */
  lemma HandleKeepsExact(sys: System, item: Item, answer: Response, now: int)
    requires Referential(sys.db) && Exact(sys) && Sendable(sys, item)
    ensures Exact(Handle(sys, item, answer, now).0)
  {
    var next := Handle(sys, item, answer, now).0;
    forall n: nat, s: nat | Linked(next.db, n, s) ensures Tells(next.db, next.log, n, s) {
      HandleKeepsLinks(sys, item, answer, now, n, s);
      assert Tells(sys.db, sys.log, n, s);
      HandleTells(sys, item, answer, now, n, s);
    }
  }

  lemma HandleKeepsLinks(sys: System, item: Item, answer: Response, now: int, n: nat, s: nat)
    requires Linked(Handle(sys, item, answer, now).0.db, n, s)
    ensures Linked(sys.db, n, s) && Handle(sys, item, answer, now).0.db.subs[s] == sys.db.subs[s]
    ensures s == item.sub ==> !Vanished(answer)
  {
  }

  lemma HandleTells(sys: System, item: Item, answer: Response, now: int, n: nat, s: nat)
    requires Referential(sys.db) && Sendable(sys, item) && Linked(sys.db, n, s) && Tells(sys.db, sys.log, n, s)
    requires Linked(Handle(sys, item, answer, now).0.db, n, s)
    ensures var next := Handle(sys, item, answer, now).0; Tells(next.db, next.log, n, s)
  {
    var next := Handle(sys, item, answer, now).0;
    var send := next.log[|sys.log|];
    var e := sys.db.subs[s].endpoint;
    HandleSettles(sys, item, answer, now);
    HandleKeepsLinks(sys, item, answer, now, n, s);
    assert next.log == sys.log + [send];
    OneMoreSend(sys.log, send, n, e);
    OneMoreStop(sys.log, send, n, e);
    hide Sends, Stops, Successes, Handle, Passing;
    assert Concerns(send, n, e) <==> (n, s) == (item.note, item.sub);
  }

  lemma {:induction false} HandleAllKeepsExact(sys: System, items: seq<Item>, sender: Item -> Response, now: int)
    requires Inv(sys) && Exact(sys) && Batched(sys, items)
    ensures Exact(HandleAll(sys, items, sender, now).0)
    decreases |items|
  {
    if items != [] {
      assert Batched(sys, [items[0]]);
      HandleKeepsInv(sys, items[0], sender(items[0]), now);
      HandleKeepsExact(sys, items[0], sender(items[0]), now);
      var first := Handle(sys, items[0], sender(items[0]), now);
      if first.1 {
        HandleKeepsBatch(sys, items, sender(items[0]), now);
        HandleAllKeepsExact(first.0, items[1..], sender, now);
      }
    }
  }

  lemma StepKeepsExact(sys: System, op: Op)
    requires Inv(sys) && Exact(sys)
    ensures Exact(Step(sys, op))
  {
    if op.OpDeliver? {
      SnapshotIsBatched(sys, op.limit, op.now);
      HandleAllKeepsExact(sys, Batch(sys.db, op.limit, op.now), op.sender, op.now);
    } else {
      OtherStepKeepsExact(sys, op);
    }
  }

  lemma {:induction false} RunKeepsExact(sys: System, ops: seq<Op>)
    requires Inv(sys) && Exact(sys)
    ensures Exact(Run(sys, ops))
    decreases |ops|
  {
    hide Inv, Exact;
    if ops != [] {
      StepKeepsInv(sys, ops[0]);
      StepKeepsExact(sys, ops[0]);
      RunKeepsExact(Step(sys, ops[0]), ops[1..]);
    }
  }

  lemma StartIsExact()
    ensures Exact(START)
  {
  }

  /** What an exact delivery row means for the queue. */
  lemma ExactMeans(sys: System, note: nat, sub: nat)
    requires Referential(sys.db) && Watermarked(sys) && note in sys.db.notes && sub in sys.db.subs
    requires Linked(sys.db, note, sub) ==> Tells(sys.db, sys.log, note, sub)
    ensures var row, user := sys.db.subs[sub], sys.db.notes[note];
      && row.endpoint in sys.granted
      && (Pending(sys.db, note, sub) <==>
            && user in sys.db.users && sys.db.users[user]
            && row.user == user && sys.granted[row.endpoint].1 <= note
            && Stops(sys.log, note, row.endpoint) == 0
            && Sends(sys.log, note, row.endpoint) < 3)
  {
    hide Stops, Sends;
    assert Linked(sys.db, note, sub) <==>
      sys.db.subs[sub].user == sys.db.notes[note] && sys.granted[sys.db.subs[sub].endpoint].1 <= note;
  }

  /** Over every run: a pair whose notification and row stand is queued if and only if
      the account is active and holds the endpoint by a grant not newer than the
      notification, all answers so far were passing ones, and there were fewer than
      three. */
  lemma QueuedUntilThreePass(ops: seq<Op>, note: nat, sub: nat)
    requires var db := Run(START, ops).db; note in db.notes && sub in db.subs
    ensures var sys := Run(START, ops);
      var row, user := sys.db.subs[sub], sys.db.notes[note];
      && row.endpoint in sys.granted
      && (Pending(sys.db, note, sub) <==>
            && user in sys.db.users && sys.db.users[user]
            && row.user == user && sys.granted[row.endpoint].1 <= note
            && (forall i | 0 <= i < |sys.log| && Concerns(sys.log[i], note, row.endpoint) :: Passing(sys.log[i].answer))
            && Sends(sys.log, note, row.endpoint) < 3)
  {
    hide Referential, Capped, Watermarked, Accounted, Proper, Tells;
    StartIsInv();
    RunKeepsInv(START, ops);
    StartIsExact();
    RunKeepsExact(START, ops);
    var sys := Run(START, ops);
    ExactMeans(sys, note, sub);
    StopsAreAnswers(sys.log, note, sys.db.subs[sub].endpoint);
  }

  lemma {:induction false} StopsAreAnswers(log: seq<Send>, note: nat, endpoint: string)
    ensures Stops(log, note, endpoint) == 0
      <==> forall i | 0 <= i < |log| && Concerns(log[i], note, endpoint) :: Passing(log[i].answer)
  {
    if log != [] {
      StopsAreAnswers(log[..|log| - 1], note, endpoint);
      assert forall i :: 0 <= i < |log| - 1 ==> log[i] == log[..|log| - 1][i];
    }
  }
}
