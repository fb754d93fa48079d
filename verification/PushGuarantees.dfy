/**
 What the push queue keeps over every run: at most three sends and one success
 per notification and endpoint, only to the account the endpoint was granted to
 before the notification existed, and at most sixteen endpoints per account.
 */
module PushGuarantees {
  import opened Wrappers
  import opened PushQueue

  predicate Concerns(send: Send, note: nat, endpoint: string) {
    send.note == note && send.endpoint == endpoint
  }

  function Sends(log: seq<Send>, note: nat, endpoint: string): (n: nat) {
    if log == [] then 0
    else
      var before := Sends(log[..|log| - 1], note, endpoint);
      if Concerns(log[|log| - 1], note, endpoint) then before + 1 else before
  }

  function Successes(log: seq<Send>, note: nat, endpoint: string): (n: nat) {
    if log == [] then 0
    else
      var before := Successes(log[..|log| - 1], note, endpoint);
      if Concerns(log[|log| - 1], note, endpoint) && log[|log| - 1].answer.Accepted? then before + 1 else before
  }

  lemma OneMoreSend(log: seq<Send>, send: Send, note: nat, endpoint: string)
    ensures Sends(log + [send], note, endpoint)
         == Sends(log, note, endpoint) + (if Concerns(send, note, endpoint) then 1 else 0)
    ensures Successes(log + [send], note, endpoint)
         == Successes(log, note, endpoint) + (if Concerns(send, note, endpoint) && send.answer.Accepted? then 1 else 0)
  {
    assert (log + [send])[..|log|] == log;
  }

  // ---- The invariant --------------------------------------------------------

  /** Every reference resolves and every id was handed out. */
  ghost predicate Referential(db: Db) {
    && 1 <= db.nextNote
    && (forall u | u in db.users :: u < db.nextUser)
    && (forall n | n in db.notes :: n < db.nextNote && db.notes[n] in db.users)
    && (forall s | s in db.subs :: s < db.nextSub && db.subs[s].user in db.users)
    && (forall k | k in db.deliveries :: k.0 in db.notes && k.1 in db.subs)
    && (forall s, t | s in db.subs && t in db.subs && db.subs[s].endpoint == db.subs[t].endpoint :: s == t)
  }

  ghost predicate Capped(db: Db) {
    forall user :: |SubsOf(db, user)| <= MAX_SUBSCRIPTIONS_PER_USER
  }

  /** A watermark separates exactly the notifications created before the endpoint
      was granted from those created after. */
  ghost predicate Watermarked(sys: System) {
    forall s | s in sys.db.subs ::
      var sub := sys.db.subs[s];
      && sub.endpoint in sys.granted
      && sys.granted[sub.endpoint].0 == sub.user
      && sub.start < sys.granted[sub.endpoint].1 <= sys.db.nextNote
      && (forall n | n in sys.db.notes && sys.db.notes[n] == sub.user ::
            n > sub.start <==> n >= sys.granted[sub.endpoint].1)
  }

  /** A pair of the queue that was neither delivered nor given up. */
  predicate Open(db: Db, note: nat, sub: nat) {
    && Linked(db, note, sub)
    && Attempts(db, note, sub) < MAX_DELIVERY_ATTEMPTS
    && ((note, sub) in db.deliveries ==> db.deliveries[(note, sub)].delivered.None?)
  }

  /** The log never shows more than three sends or one success of a pair, and the
      delivery row of a pair that can still be pushed covers what the log shows of it. */
  ghost predicate Accounted(db: Db, log: seq<Send>) {
    && (forall n: nat, e :: Sends(log, n, e) <= MAX_DELIVERY_ATTEMPTS)
    && (forall n: nat, e :: Successes(log, n, e) <= 1)
    && (forall n: nat, e :: n >= db.nextNote ==> Sends(log, n, e) == Successes(log, n, e) == 0)
    && (forall n: nat, s: nat | Open(db, n, s) ::
          && Sends(log, n, db.subs[s].endpoint) <= Attempts(db, n, s)
          && Successes(log, n, db.subs[s].endpoint) == 0)
  }

  /** Every send went to the account its endpoint was last granted to, about a
      notification created after that, and nothing follows a success of a pair. */
  ghost predicate Proper(log: seq<Send>) {
    && (forall i | 0 <= i < |log| :: log[i].granted.0 == log[i].user && log[i].granted.1 <= log[i].note)
    && (forall i, j | 0 <= i < j < |log| && Concerns(log[j], log[i].note, log[i].endpoint) :: !log[i].answer.Accepted?)
  }

  ghost predicate Inv(sys: System) {
    && Referential(sys.db)
    && Capped(sys.db)
    && Watermarked(sys)
    && Accounted(sys.db, sys.log)
    && Proper(sys.log)
  }

  // ---- Steps that send nothing ----------------------------------------------

  /** Fewer rows keep the accounts. */
  lemma FewerOpenPairs(before: Db, after: Db, log: seq<Send>)
    requires Accounted(before, log) && before.nextNote <= after.nextNote
    requires forall n: nat, s: nat | Open(after, n, s) ::
      || (Open(before, n, s) && Attempts(before, n, s) == Attempts(after, n, s)
          && before.subs[s].endpoint == after.subs[s].endpoint)
      || n >= before.nextNote
    ensures Accounted(after, log)
  {
  }

  lemma FewerSubs(before: Db, after: Db)
    requires Capped(before)
    requires forall s | s in after.subs :: s in before.subs && after.subs[s].user == before.subs[s].user
    ensures Capped(after)
  {
    forall user ensures |SubsOf(after, user)| <= MAX_SUBSCRIPTIONS_PER_USER {
      SubsetIsSmaller(SubsOf(after, user), SubsOf(before, user));
    }
  }

  lemma RemovalKeepsInv(sys: System, subs: set<nat>, notes: set<nat>)
    requires Inv(sys)
    ensures Inv(sys.(db := WithoutNotes(WithoutSubs(sys.db, subs), notes)))
  {
    var after := WithoutNotes(WithoutSubs(sys.db, subs), notes);
    FewerSubs(sys.db, after);
    FewerOpenPairs(sys.db, after, sys.log);
  }

  lemma UsersKeepInv(sys: System, users: map<nat, bool>, nextUser: nat)
    requires Inv(sys) && forall u | u in users :: u < nextUser
    requires forall n | n in sys.db.notes :: sys.db.notes[n] in users
    requires forall s | s in sys.db.subs :: sys.db.subs[s].user in users
    ensures Inv(sys.(db := sys.db.(users := users, nextUser := nextUser)))
  {
    var after := sys.db.(users := users, nextUser := nextUser);
    FewerSubs(sys.db, after);
    FewerOpenPairs(sys.db, after, sys.log);
  }

  lemma NotifyKeepsInv(sys: System, user: nat)
    requires Inv(sys) && user in sys.db.users
    ensures Inv(Step(sys, OpNotify(user)))
  {
    var after := Step(sys, OpNotify(user)).db;
    FewerSubs(sys.db, after);
    FewerOpenPairs(sys.db, after, sys.log);
  }

  /** `endpoint` is granted to `user` on row `id`: a new row, or the row that held it. */
  ghost predicate Grants(before: System, after: System, id: nat, user: nat, endpoint: string) {
    var db := before.db;
    && user in db.users
    && |SubsOf(db, user)| < MAX_SUBSCRIPTIONS_PER_USER
    && (if id in db.subs then db.subs[id].endpoint == endpoint
        else id == db.nextSub && forall s | s in db.subs :: db.subs[s].endpoint != endpoint)
    && after.db == db.(
         subs := db.subs[id := Subscription(user, endpoint, LastNote(db, user, db.nextNote))],
         nextSub := after.db.nextSub,
         deliveries := map k | k in db.deliveries && k.1 != id :: db.deliveries[k])
    && after.db.nextSub == (if id in db.subs then db.nextSub else id + 1)
    && after.granted == before.granted[endpoint := (user, db.nextNote)]
    && after.log == before.log
  }

  lemma GrantMovesOneRow(before: System, after: System, id: nat, user: nat, endpoint: string, u: nat)
    requires Grants(before, after, id, user, endpoint)
    ensures if u == user then SubsOf(after.db, u) == SubsOf(before.db, u) + {id}
      else SubsOf(after.db, u) <= SubsOf(before.db, u)
  {
  }

  lemma GrantIsCapped(before: System, after: System, id: nat, user: nat, endpoint: string)
    requires Capped(before.db) && Grants(before, after, id, user, endpoint)
    ensures Capped(after.db)
  {
    forall u ensures |SubsOf(after.db, u)| <= MAX_SUBSCRIPTIONS_PER_USER {
      GrantMovesOneRow(before, after, id, user, endpoint, u);
      hide SubsOf;
      if u != user {
        SubsetIsSmaller(SubsOf(after.db, u), SubsOf(before.db, u));
      }
    }
  }

  lemma GrantIsWatermarked(before: System, after: System, id: nat, user: nat, endpoint: string)
    requires Referential(before.db) && Watermarked(before) && Grants(before, after, id, user, endpoint)
    ensures Referential(after.db) && Watermarked(after)
  {
  }

  lemma GrantIsAccounted(before: System, after: System, id: nat, user: nat, endpoint: string)
    requires Referential(before.db) && Accounted(before.db, before.log) && Grants(before, after, id, user, endpoint)
    ensures Accounted(after.db, after.log)
  {
    assert forall n: nat | Linked(after.db, n, id) :: false;
    FewerOpenPairs(before.db, after.db, before.log);
  }

  lemma SubscribeKeepsInv(sys: System, user: nat, endpoint: string)
    requires Inv(sys)
    ensures Inv(Subscribe(sys, user, endpoint).0)
  {
    var r := Subscribe(sys, user, endpoint);
    if r.1.Saved? && r.0 != sys {
      var id := r.1.id;
      assert (map k | k in sys.db.deliveries && k.1 != id :: sys.db.deliveries[k]) == r.0.db.deliveries;
      assert Grants(sys, r.0, id, user, endpoint);
      GrantIsCapped(sys, r.0, id, user, endpoint);
      GrantIsWatermarked(sys, r.0, id, user, endpoint);
      GrantIsAccounted(sys, r.0, id, user, endpoint);
    }
  }

  // ---- A delivery round -----------------------------------------------------

  /** A send of the item is due: the pair has attempts left and no success, and the
      subscription, if it is still there, is open for it. */
  ghost predicate Sendable(sys: System, item: Item) {
    && item.note in sys.db.notes
    && item.endpoint in sys.granted
    && sys.granted[item.endpoint].0 == item.user
    && sys.granted[item.endpoint].1 <= item.note
    && Sends(sys.log, item.note, item.endpoint) < MAX_DELIVERY_ATTEMPTS
    && Successes(sys.log, item.note, item.endpoint) == 0
    && (item.sub in sys.db.subs ==>
          sys.db.subs[item.sub].endpoint == item.endpoint && Open(sys.db, item.note, item.sub))
    && (item.sub !in sys.db.subs ==> forall s | s in sys.db.subs :: sys.db.subs[s].endpoint != item.endpoint)
  }

  /** What the rest of a round's snapshot still guarantees, although subscriptions
      may have been dropped since it was taken. */
  ghost predicate Batched(sys: System, items: seq<Item>) {
    && (forall i | 0 <= i < |items| :: Sendable(sys, items[i]))
    && (forall i, j | 0 <= i < j < |items| :: (items[i].note, items[i].sub) != (items[j].note, items[j].sub))
    && (forall i, j | 0 <= i < j < |items| :: items[i].endpoint == items[j].endpoint <==> items[i].sub == items[j].sub)
  }

  lemma {:induction false} NoSuccessShown(log: seq<Send>, i: nat, note: nat, endpoint: string)
    requires i < |log| && Successes(log, note, endpoint) == 0 && Concerns(log[i], note, endpoint)
    ensures !log[i].answer.Accepted?
  {
    if i < |log| - 1 {
      NoSuccessShown(log[..|log| - 1], i, note, endpoint);
    }
  }

  lemma LoggedIsProper(sys: System, item: Item, response: Response)
    requires Proper(sys.log) && Batched(sys, [item])
    ensures Proper(Logged(sys, item, response))
  {
    var log := Logged(sys, item, response);
    assert item == [item][0];
    forall i, j | 0 <= i < j < |log| && Concerns(log[j], log[i].note, log[i].endpoint)
      ensures !log[i].answer.Accepted?
    {
      if j == |sys.log| {
        NoSuccessShown(sys.log, i, item.note, item.endpoint);
      } else {
        assert Concerns(sys.log[j], sys.log[i].note, sys.log[i].endpoint);
      }
    }
  }

  /** What one send adds to the counts of every pair. */
  lemma OneSend(log: seq<Send>, send: Send)
    ensures forall n: nat, e :: Sends(log + [send], n, e) == Sends(log, n, e) + (if Concerns(send, n, e) then 1 else 0)
    ensures forall n: nat, e ::
      Successes(log + [send], n, e)
        == Successes(log, n, e) + (if Concerns(send, n, e) && send.answer.Accepted? then 1 else 0)
  {
    forall n: nat, e
      ensures Sends(log + [send], n, e) == Sends(log, n, e) + (if Concerns(send, n, e) then 1 else 0)
      ensures Successes(log + [send], n, e)
        == Successes(log, n, e) + (if Concerns(send, n, e) && send.answer.Accepted? then 1 else 0)
    {
      OneMoreSend(log, send, n, e);
    }
  }

  /** Handling an item opens no pair. */
  lemma HandleOpensNothing(sys: System, item: Item, response: Response, now: int, n: nat, s: nat)
    requires Sendable(sys, item) && Open(Handle(sys, item, response, now).0.db, n, s)
    ensures Open(sys.db, n, s)
  {
  }

  /** The row a recording leaves covers one more send, and no success. */
  lemma RecordedCovers(sys: System, item: Item, response: Response, now: int)
    requires Sendable(sys, item) && Open(Handle(sys, item, response, now).0.db, item.note, item.sub)
    ensures var next := Handle(sys, item, response, now).0;
      Attempts(next.db, item.note, item.sub) > Attempts(sys.db, item.note, item.sub) && !OutcomeOf(response).Sent?
  {
  }

  lemma OthersKeepAttempts(sys: System, item: Item, response: Response, now: int, n: nat, s: nat)
    requires (n, s) != (item.note, item.sub) && Open(Handle(sys, item, response, now).0.db, n, s)
    ensures Attempts(Handle(sys, item, response, now).0.db, n, s) == Attempts(sys.db, n, s)
  {
  }

  lemma HandleKeepsEndpoints(sys: System, item: Item, response: Response, now: int, s: nat)
    requires s in Handle(sys, item, response, now).0.db.subs
    ensures s in sys.db.subs && Handle(sys, item, response, now).0.db.subs[s] == sys.db.subs[s]
  {
  }

  /** The delivery row covers the send it records. */
  lemma HandleCovers(sys: System, item: Item, response: Response, now: int, n: nat, s: nat)
    requires Referential(sys.db) && Accounted(sys.db, sys.log) && Sendable(sys, item)
    requires Open(Handle(sys, item, response, now).0.db, n, s)
    ensures var next := Handle(sys, item, response, now).0;
      var e := next.db.subs[s].endpoint;
      Sends(next.log, n, e) <= Attempts(next.db, n, s) && Successes(next.log, n, e) == 0
  {
    var next := Handle(sys, item, response, now).0;
    var send := next.log[|sys.log|];
    assert next.log == sys.log + [send] && send.answer == response;
    HandleOpensNothing(sys, item, response, now, n, s);
    HandleKeepsEndpoints(sys, item, response, now, s);
    OneMoreSend(sys.log, send, n, sys.db.subs[s].endpoint);
    if (n, s) == (item.note, item.sub) {
      RecordedCovers(sys, item, response, now);
    } else {
      OthersKeepAttempts(sys, item, response, now, n, s);
    }
    hide Sends, Successes, Handle, Attempts;
  }

  lemma HandleKeepsAccounts(sys: System, item: Item, response: Response, now: int)
    requires Referential(sys.db) && Accounted(sys.db, sys.log) && Batched(sys, [item])
    ensures var next := Handle(sys, item, response, now).0; Accounted(next.db, next.log)
  {
    var next := Handle(sys, item, response, now).0;
    assert Sendable(sys, [item][0]);
    OneSend(sys.log, next.log[|sys.log|]);
    assert next.log == sys.log + [next.log[|sys.log|]];
    hide Sends, Successes, Open, Attempts;
    forall n: nat, s: nat | Open(next.db, n, s)
      ensures Sends(next.log, n, next.db.subs[s].endpoint) <= Attempts(next.db, n, s)
      ensures Successes(next.log, n, next.db.subs[s].endpoint) == 0
    {
      HandleCovers(sys, item, response, now, n, s);
    }
  }

  lemma HandleIsReferential(sys: System, item: Item, response: Response, now: int)
    requires Referential(sys.db)
    ensures Referential(Handle(sys, item, response, now).0.db)
  {
  }

  lemma HandleKeepsWatermarks(sys: System, item: Item, response: Response, now: int)
    requires Watermarked(sys)
    ensures Watermarked(Handle(sys, item, response, now).0)
  {
  }

  lemma HandleKeepsInv(sys: System, item: Item, response: Response, now: int)
    requires Inv(sys) && Batched(sys, [item])
    ensures Inv(Handle(sys, item, response, now).0)
  {
    assert Sendable(sys, [item][0]);
    HandleKeepsAccounts(sys, item, response, now);
    LoggedIsProper(sys, item, response);
    HandleIsReferential(sys, item, response, now);
    HandleKeepsWatermarks(sys, item, response, now);
    FewerSubs(sys.db, Handle(sys, item, response, now).0.db);
    hide Capped, Referential, Accounted, Proper, Watermarked, Sendable;
  }

  lemma HandleSparesOthers(sys: System, item: Item, response: Response, now: int, other: Item)
    requires (item.note, item.endpoint) != (other.note, other.endpoint)
    ensures var next := Handle(sys, item, response, now).0;
      && Sends(next.log, other.note, other.endpoint) == Sends(sys.log, other.note, other.endpoint)
      && Successes(next.log, other.note, other.endpoint) == Successes(sys.log, other.note, other.endpoint)
  {
    var next := Handle(sys, item, response, now).0;
    var send := next.log[|sys.log|];
    assert next.log == sys.log + [send];
    OneMoreSend(sys.log, send, other.note, other.endpoint);
  }

  lemma HandleKeepsSendable(sys: System, item: Item, response: Response, now: int, other: Item)
    requires Inv(sys) && Sendable(sys, item) && Sendable(sys, other) && Handle(sys, item, response, now).1
    requires (item.note, item.sub) != (other.note, other.sub)
    requires item.endpoint == other.endpoint <==> item.sub == other.sub
    ensures Sendable(Handle(sys, item, response, now).0, other)
  {
    HandleSparesOthers(sys, item, response, now, other);
  }

  lemma HandleKeepsBatch(sys: System, items: seq<Item>, response: Response, now: int)
    requires items != [] && Inv(sys) && Batched(sys, items) && Handle(sys, items[0], response, now).1
    ensures Batched(Handle(sys, items[0], response, now).0, items[1..])
  {
    var rest := items[1..];
    forall i | 0 <= i < |rest| ensures Sendable(Handle(sys, items[0], response, now).0, rest[i]) {
      HandleKeepsSendable(sys, items[0], response, now, items[i + 1]);
    }
  }

  lemma {:induction false} HandleAllKeepsInv(sys: System, items: seq<Item>, sender: Item -> Response, now: int)
    requires Inv(sys) && Batched(sys, items)
    ensures Inv(HandleAll(sys, items, sender, now).0)
    decreases |items|
  {
    if items != [] {
      assert Batched(sys, [items[0]]);
      HandleKeepsInv(sys, items[0], sender(items[0]), now);
      var first := Handle(sys, items[0], sender(items[0]), now);
      if first.1 {
        HandleKeepsBatch(sys, items, sender(items[0]), now);
        HandleAllKeepsInv(first.0, items[1..], sender, now);
      }
    }
  }

  lemma {:induction false} ReadyItemsAreRows(db: Db, rows: seq<(nat, nat)>, now: int)
    requires forall i :: 0 <= i < |rows| ==> Linked(db, rows[i].0, rows[i].1)
    requires forall i, j :: 0 <= i < j < |rows| ==> rows[i] != rows[j]
    ensures forall item :: item in ReadyItems(db, rows, now) ==>
      && (item.note, item.sub) in rows
      && item.sub in db.subs
      && item.endpoint == db.subs[item.sub].endpoint
      && item.user == db.subs[item.sub].user
    ensures forall i, j :: 0 <= i < j < |ReadyItems(db, rows, now)| ==>
      (ReadyItems(db, rows, now)[i].note, ReadyItems(db, rows, now)[i].sub)
      != (ReadyItems(db, rows, now)[j].note, ReadyItems(db, rows, now)[j].sub)
  {
    if rows != [] {
      assert Linked(db, rows[0].0, rows[0].1);
      ReadyItemsAreRows(db, rows[1..], now);
    }
  }

  lemma CurrentIsSendable(sys: System, item: Item)
    requires Referential(sys.db) && Watermarked(sys) && Accounted(sys.db, sys.log)
    requires Open(sys.db, item.note, item.sub)
    requires item.endpoint == sys.db.subs[item.sub].endpoint && item.user == sys.db.notes[item.note]
    ensures Sendable(sys, item)
  {
  }

  lemma SnapshotIsCurrent(db: Db, limit: int, now: int)
    requires Referential(db)
    ensures forall item | item in Batch(db, limit, now) ::
      && Open(db, item.note, item.sub)
      && item.endpoint == db.subs[item.sub].endpoint && item.user == db.notes[item.note]
    ensures forall i, j | 0 <= i < j < |Batch(db, limit, now)| ::
      (Batch(db, limit, now)[i].note, Batch(db, limit, now)[i].sub)
      != (Batch(db, limit, now)[j].note, Batch(db, limit, now)[j].sub)
  {
    var rows := Limited(db, limit);
    PendingFromLists(db, 0);
    ReadyItemsAreRows(db, rows, now);
    forall item | item in Batch(db, limit, now)
      ensures Open(db, item.note, item.sub)
      ensures item.endpoint == db.subs[item.sub].endpoint && item.user == db.notes[item.note]
    {
      assert (item.note, item.sub) in rows;
    }
  }

  lemma SnapshotIsBatched(sys: System, limit: int, now: int)
    requires Referential(sys.db) && Watermarked(sys) && Accounted(sys.db, sys.log)
    ensures Batched(sys, Batch(sys.db, limit, now))
  {
    SnapshotIsCurrent(sys.db, limit, now);
    var items := Batch(sys.db, limit, now);
    hide Watermarked, Accounted, Sendable, Batch, Open;
    forall i | 0 <= i < |items| ensures Sendable(sys, items[i])
      && items[i].sub in sys.db.subs && items[i].endpoint == sys.db.subs[items[i].sub].endpoint
    {
      assert items[i] in items;
      CurrentIsSendable(sys, items[i]);
    }
  }

  lemma DeliverKeepsInv(sys: System, limit: int, sender: Item -> Response, now: int)
    requires Inv(sys)
    ensures Inv(Deliver(sys, limit, sender, now).0)
  {
    hide Capped, Watermarked, Accounted, Proper;
    SnapshotIsBatched(sys, limit, now);
    HandleAllKeepsInv(sys, Batch(sys.db, limit, now), sender, now);
  }

  lemma SubRemovalKeepsInv(sys: System, gone: set<nat>)
    requires Inv(sys)
    ensures Inv(sys.(db := WithoutSubs(sys.db, gone)))
  {
    hide Capped, Watermarked, Accounted, Proper;
    RemovalKeepsInv(sys, gone, {});
    assert WithoutNotes(WithoutSubs(sys.db, gone), {}) == WithoutSubs(sys.db, gone);
  }

  lemma SetActiveKeepsInv(sys: System, user: nat, active: bool)
    requires Inv(sys)
    ensures Inv(Step(sys, OpSetActive(user, active)))
  {
    var db := sys.db;
    if user in db.users {
      UsersKeepInv(sys, db.users[user := active], db.nextUser);
      SubRemovalKeepsInv(sys.(db := db.(users := db.users[user := active])), SubsOf(db, user));
    }
  }

  lemma DeleteUserKeepsInv(sys: System, user: nat)
    requires Inv(sys)
    ensures Inv(Step(sys, OpDeleteUser(user)))
  {
    hide Capped, Watermarked, Accounted, Proper;
    var db := sys.db;
    var notes := set n | n in db.notes && db.notes[n] == user;
    RemovalKeepsInv(sys, SubsOf(db, user), notes);
    UsersKeepInv(sys.(db := WithoutNotes(WithoutSubs(db, SubsOf(db, user)), notes)), db.users - {user}, db.nextUser);
  }

  lemma DeleteNoteKeepsInv(sys: System, note: nat)
    requires Inv(sys)
    ensures Inv(sys.(db := WithoutNotes(sys.db, {note})))
  {
    hide Capped, Watermarked, Accounted, Proper;
    RemovalKeepsInv(sys, {}, {note});
    assert WithoutNotes(WithoutSubs(sys.db, {}), {note}) == WithoutNotes(sys.db, {note});
  }

  lemma StepKeepsInv(sys: System, op: Op)
    requires Inv(sys)
    ensures Inv(Step(sys, op))
  {
    hide Capped, Watermarked, Accounted, Proper;
    match op
    case OpAddUser => UsersKeepInv(sys, sys.db.users[sys.db.nextUser := true], sys.db.nextUser + 1);
    case OpSetActive(user, active) => SetActiveKeepsInv(sys, user, active);
    case OpRevoke(user) => SubRemovalKeepsInv(sys, SubsOf(sys.db, user));
    case OpDeleteUser(user) => DeleteUserKeepsInv(sys, user);
    case OpNotify(user) => if user in sys.db.users { NotifyKeepsInv(sys, user); }
    case OpDeleteNote(note) => DeleteNoteKeepsInv(sys, note);
    case OpSubscribe(user, endpoint) => SubscribeKeepsInv(sys, user, endpoint);
    case OpUnsubscribe(user, endpoint) =>
      var gone := set s | s in sys.db.subs && sys.db.subs[s].user == user && sys.db.subs[s].endpoint == endpoint;
      SubRemovalKeepsInv(sys, gone);
    case OpDeliver(limit, sender, now) => DeliverKeepsInv(sys, limit, sender, now);
  }

  function Run(sys: System, ops: seq<Op>): (end: System)
    decreases |ops|
  {
    if ops == [] then sys else Run(Step(sys, ops[0]), ops[1..])
  }

  lemma {:induction false} RunKeepsInv(sys: System, ops: seq<Op>)
    requires Inv(sys)
    ensures Inv(Run(sys, ops))
    decreases |ops|
  {
    if ops != [] {
      StepKeepsInv(sys, ops[0]);
      RunKeepsInv(Step(sys, ops[0]), ops[1..]);
    }
  }

  lemma StartIsInv()
    ensures Inv(START)
  {
    forall user ensures SubsOf(EMPTY_DB, user) == {} {
    }
  }

  /** Over every run, however endpoints are dropped, removed, renewed or moved
      between accounts: at most three sends and one success per notification and
      endpoint, no send after a success, and only to the account the endpoint was
      last granted to, about a notification created after that. */
  lemma AtMostOnceDelivery(ops: seq<Op>, note: nat, endpoint: string)
    ensures var log := Run(START, ops).log;
      && Sends(log, note, endpoint) <= 3
      && Successes(log, note, endpoint) <= 1
      && Proper(log)
  {
    StartIsInv();
    RunKeepsInv(START, ops);
  }

  /** Over every run, references resolve and no account holds more than 16 endpoints. */
  lemma EndpointsAreCapped(ops: seq<Op>, user: nat)
    ensures var db := Run(START, ops).db; Referential(db) && |SubsOf(db, user)| <= 16
  {
    StartIsInv();
    RunKeepsInv(START, ops);
  }
}
