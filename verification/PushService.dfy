/**
 The service object of request_app/push.py, updating its tables in place. Every
 public method keeps the invariant of the queue.
 */
module PushServiceObject {
  import opened Wrappers
  import opened PushQueue
  import opened PushGuarantees
  import opened PushRetries

  /** The successful sends of a stretch of the log. */
  function OkSends(log: seq<Send>): (n: nat) {
    if log == [] then 0
    else OkSends(log[..|log| - 1]) + (if log[|log| - 1].answer.Accepted? then 1 else 0)
  }

  lemma OneMoreOk(log: seq<Send>, send: Send)
    ensures OkSends(log + [send]) == OkSends(log) + (if send.answer.Accepted? then 1 else 0)
  {
    assert (log + [send])[..|log|] == log;
  }

  lemma LogGrew(before: seq<Send>, after: seq<Send>, first: nat)
    requires first <= |before| && |after| == |before| + 1 && after[..|before|] == before
    ensures OkSends(after[first..]) == OkSends(before[first..]) + (if after[|before|].answer.Accepted? then 1 else 0)
  {
    OneMoreOk(before[first..], after[|before|]);
    assert after[first..] == before[first..] + [after[|before|]];
  }

  lemma RestOfBatch(sys: System, batch: seq<Item>, i: nat, sender: Item -> Response, now: int)
    requires i < |batch|
    ensures HandleAll(sys, batch[i..], sender, now)
         == (var first := Handle(sys, batch[i], sender(batch[i]), now);
             if first.1 then HandleAll(first.0, batch[i + 1..], sender, now) else first)
  {
    assert batch[i..][1..] == batch[i + 1..];
  }

  lemma SubscribeHolds(sys: System, user: nat, endpoint: string)
    ensures var r := Subscribe(sys, user, endpoint);
      r.1.Saved? ==>
        && r.1.id in r.0.db.subs
        && r.0.db.subs[r.1.id].user == user && r.0.db.subs[r.1.id].endpoint == endpoint
  {
  }

  lemma InvResolves(sys: System)
    requires Inv(sys)
    ensures Referential(sys.db)
  {
  }

  /** What the invariant promises to a caller. */
  lemma InvBounds(sys: System)
    requires Inv(sys)
    ensures forall user :: |SubsOf(sys.db, user)| <= MAX_SUBSCRIPTIONS_PER_USER
    ensures forall note: nat, endpoint ::
      Sends(sys.log, note, endpoint) <= MAX_DELIVERY_ATTEMPTS && Successes(sys.log, note, endpoint) <= 1
  {
  }

  class PushService {
    var users: map<nat, bool>
    var nextUser: nat
    var notes: map<nat, nat>
    var nextNote: nat
    var subs: map<nat, Subscription>
    var nextSub: nat
    var deliveries: map<(nat, nat), Delivery>
    ghost var granted: map<string, (nat, nat)>
    ghost var log: seq<Send>

    constructor ()
      ensures Contents() == START && Valid()
    {
      StartIsInv();
      users, nextUser, notes, nextNote := map[], 1, map[], 1;
      subs, nextSub, deliveries := map[], 1, map[];
      granted, log := map[], [];
    }

    function Tables(): (db: Db)
      reads this
    {
      Db(users, nextUser, notes, nextNote, subs, nextSub, deliveries)
    }

    ghost function Contents(): (sys: System)
      reads this
    {
      System(Tables(), granted, log)
    }

    ghost predicate Valid()
      reads this
    {
      Inv(Contents())
    }

    method FindEndpoint(endpoint: string) returns (holder: Option<nat>)
      ensures holder == Holder(Tables(), endpoint, nextSub)
    {
      var id: nat := nextSub;
      while id > 0 && !(id - 1 in subs && subs[id - 1].endpoint == endpoint)
        invariant 0 <= id <= nextSub
        invariant Holder(Tables(), endpoint, nextSub) == Holder(Tables(), endpoint, id)
      {
        id := id - 1;
      }
      holder := if id > 0 then Some(id - 1) else None;
    }

    method LastNotificationOf(user: nat) returns (id: nat)
      ensures id == LastNote(Tables(), user, nextNote)
    {
      var bound: nat := nextNote;
      while bound > 0 && !(bound - 1 in notes && notes[bound - 1] == user)
        invariant 0 <= bound <= nextNote
        invariant LastNote(Tables(), user, nextNote) == LastNote(Tables(), user, bound)
      {
        bound := bound - 1;
      }
      id := if bound > 0 then bound - 1 else 0;
    }

    method SaveSubscription(user: nat, endpoint: string) returns (result: SaveResult)
      requires Valid()
      modifies this
      ensures (Contents(), result) == Subscribe(old(Contents()), user, endpoint)
      ensures Valid()
      ensures result.Saved? ==>
        result.id in subs && subs[result.id].user == user && subs[result.id].endpoint == endpoint
      ensures |SubsOf(Tables(), user)| <= MAX_SUBSCRIPTIONS_PER_USER
      ensures Saving(old(Contents()), Contents(), user, endpoint, result)
    {
      hide Inv, Saving, Granted, Referential, Subscribe;
      InvResolves(Contents());
      SubscribeSaves(Contents(), user, endpoint);
      SubscribeKeepsInv(Contents(), user, endpoint);
      SubscribeHolds(Contents(), user, endpoint);
      InvBounds(Subscribe(Contents(), user, endpoint).0);
      result := PutSubscription(user, endpoint);
    }

    /** The rows that a saved endpoint writes. */
    method PutSubscription(user: nat, endpoint: string) returns (result: SaveResult)
      modifies this
      ensures (Contents(), result) == Subscribe(old(Contents()), user, endpoint)
    {
      var existing := FindEndpoint(endpoint);
      if existing.Some? && subs[existing.value].user == user {
        return Saved(existing.value);
      }
      if |SubsOf(Tables(), user)| >= MAX_SUBSCRIPTIONS_PER_USER {
        return LimitReached;
      }
      if user !in users {
        return UnknownUser;
      }
      var start := LastNotificationOf(user);
      var id := nextSub;
      if existing.Some? {
        id := existing.value;
        deliveries := map k | k in deliveries && k.1 != id :: deliveries[k];
      } else {
        nextSub := nextSub + 1;
      }
      subs := subs[id := Subscription(user, endpoint, start)];
      granted := granted[endpoint := (user, nextNote)];
      result := Saved(id);
    }

    method DropSubscriptions(gone: set<nat>)
      modifies this
      ensures Contents() == old(Contents()).(db := WithoutSubs(old(Tables()), gone))
    {
      subs := subs - gone;
      deliveries := map k | k in deliveries && k.1 !in gone :: deliveries[k];
    }

    method RemoveSubscription(user: nat, endpoint: string) returns (removed: bool)
      requires Valid()
      modifies this
      ensures Contents() == Step(old(Contents()), OpUnsubscribe(user, endpoint))
      ensures removed <==> exists s :: s in old(subs) && old(subs)[s].user == user && old(subs)[s].endpoint == endpoint
      ensures Valid()
      ensures forall s :: s in subs <==>
        s in old(subs) && !(old(subs)[s].user == user && old(subs)[s].endpoint == endpoint)
      ensures forall s | s in subs :: subs[s] == old(subs)[s]
      ensures deliveries == map k | k in old(deliveries) && (k.1 in old(subs) ==> k.1 in subs) :: old(deliveries)[k]
    {
      hide Inv;
      StepKeepsInv(Contents(), OpUnsubscribe(user, endpoint));
      var gone := set s | s in subs && subs[s].user == user && subs[s].endpoint == endpoint;
      removed := gone != {};
      assert forall s :: s in gone <==> s in subs && subs[s].user == user && subs[s].endpoint == endpoint;
      assert removed <==> exists s :: s in subs && subs[s].user == user && subs[s].endpoint == endpoint;
      DropSubscriptions(gone);
    }

    method CreateTestNotification(user: nat) returns (id: Option<nat>)
      requires Valid()
      modifies this
      ensures Contents() == Step(old(Contents()), OpNotify(user))
      ensures id == if user in old(users) then Some(old(nextNote)) else None
      ensures if id.Some? then notes == old(notes)[id.value := user] && nextNote == id.value + 1
              else notes == old(notes) && nextNote == old(nextNote)
      ensures Valid()
    {
      hide Inv;
      StepKeepsInv(Contents(), OpNotify(user));
      if user !in users {
        return None;
      }
      id := Some(nextNote);
      notes := notes[nextNote := user];
      nextNote := nextNote + 1;
    }

    /** One row of the snapshot, unless its last attempt is too recent. */
    method PendingDeliveries(limit: int, now: int) returns (items: seq<Item>)
      ensures items == Batch(Tables(), limit, now)
      ensures Snapshot(Tables(), Looked(Tables(), limit), items, now)
    {
      BatchIsSnapshot(Tables(), limit, now);
      var rows := Limited(Tables(), limit);
      items := [];
      var i := |rows|;
      while i > 0
        invariant 0 <= i <= |rows|
        invariant items == ReadyItems(Tables(), rows[i..], now)
      {
        i := i - 1;
        var row := rows[i];
        assert rows[i..][0] == row && rows[i..][1..] == rows[i + 1..];
        assert Pending(Tables(), row.0, row.1);
        if RetryReady(Tables(), row, now) {
          items := [Item(row.0, row.1, subs[row.1].endpoint, subs[row.1].user)] + items;
        }
      }
      assert rows[0..] == rows;
    }

    /** The upsert of a delivery row; false when a foreign key refuses it. */
    method RecordAttempt(item: Item, delivered: bool, now: int) returns (recorded: bool)
      modifies this`deliveries
      ensures recorded == CanRecord(old(Tables()), item)
      ensures deliveries == if recorded
        then old(deliveries)[
          (item.note, item.sub) := Recorded(old(Tables()), item, if delivered then Sent else Failed, now)]
        else old(deliveries)
      ensures recorded <==> item.note in notes && item.sub in subs
      ensures recorded ==>
        var key := (item.note, item.sub);
        var attempts := if key in old(deliveries) then old(deliveries)[key].attempts else 0;
        deliveries[key] == Delivery(attempts + 1, Some(now), if delivered then Some(now) else None)
    {
      recorded := item.note in notes && item.sub in subs;
      if recorded {
        var key := (item.note, item.sub);
        var attempts := if key in deliveries then deliveries[key].attempts + 1 else 1;
        deliveries := deliveries[key := Delivery(attempts, Some(now), if delivered then Some(now) else None)];
      }
    }

    method RecordTerminalFailure(item: Item, now: int) returns (recorded: bool)
      modifies this`deliveries
      ensures recorded == CanRecord(old(Tables()), item)
      ensures deliveries == if recorded
        then old(deliveries)[(item.note, item.sub) := Recorded(old(Tables()), item, Refused, now)]
        else old(deliveries)
      ensures recorded ==> deliveries[(item.note, item.sub)] == Delivery(3, Some(now), None)
    {
      recorded := item.note in notes && item.sub in subs;
      if recorded {
        deliveries := deliveries[(item.note, item.sub) := Delivery(MAX_DELIVERY_ATTEMPTS, Some(now), None)];
      }
    }

    /** One item: the sender's answer decides what is written; false aborts the batch. */
    method HandleItem(item: Item, response: Response, now: int) returns (completed: bool)
      modifies this
      ensures (Contents(), completed) == Handle(old(Contents()), item, response, now)
      ensures |log| == |old(log)| + 1 && log[..|old(log)|] == old(log)
      ensures log[|old(log)|].answer == response
      ensures Settled(old(Tables()), Tables(), completed, item, response, now)
    {
      HandleSettles(Contents(), item, response, now);
      log := Logged(Contents(), item, response);
      match response {
        case Accepted =>
          completed := RecordAttempt(item, true, now);
        case PushError(Some(status)) =>
          if status == 404 || status == 410 {
            DropSubscriptions({item.sub});
            completed := true;
          } else if 400 <= status < 500 && status !in {408, 425, 429} {
            completed := RecordTerminalFailure(item, now);
          } else {
            completed := RecordAttempt(item, false, now);
          }
        case _ =>
          completed := RecordAttempt(item, false, now);
      }
    }

    /** The number of successful sends; not `completed` when a dropped subscription's
        foreign key aborted the rest of the batch. */
    method DeliverPending(limit: int, sender: Item -> Response, now: int) returns (delivered: nat, completed: bool)
      requires Valid()
      modifies this
      ensures (Contents(), completed) == Deliver(old(Contents()), limit, sender, now)
      ensures |old(log)| <= |log| && (completed ==> delivered == OkSends(log[|old(log)|..]))
      ensures SendsInOrder(old(log), log, Batch(old(Tables()), limit, now), sender, completed)
      ensures Valid()
      ensures forall note: nat, endpoint ::
        Sends(log, note, endpoint) <= MAX_DELIVERY_ATTEMPTS && Successes(log, note, endpoint) <= 1
    {
      hide Inv, SendsInOrder, Settled, Snapshot, Looked;
      DeliverKeepsInv(Contents(), limit, sender, now);
      InvBounds(Deliver(Contents(), limit, sender, now).0);
      RoundSendsInOrder(Contents(), Batch(Tables(), limit, now), sender, now);
      hide HandleAll, OkSends, Batch;
      var batch := PendingDeliveries(limit, now);
      delivered, completed := HandleBatch(batch, sender, now);
    }

    /** The loop of a round over its snapshot. */
    method HandleBatch(batch: seq<Item>, sender: Item -> Response, now: int) returns (delivered: nat, completed: bool)
      modifies this
      ensures (Contents(), completed) == HandleAll(old(Contents()), batch, sender, now)
      ensures |old(log)| <= |log| && (completed ==> delivered == OkSends(log[|old(log)|..]))
    {
      assert OkSends([]) == 0;
      hide Handle, OkSends, Settled;
      delivered, completed := 0, true;
      var i := 0;
      ghost var first := |log|;
      ghost var end := HandleAll(Contents(), batch, sender, now);
      assert log[first..] == [] && batch[0..] == batch;
      while i < |batch| && completed
        invariant 0 <= i <= |batch| && first <= |log|
        invariant completed ==> delivered == OkSends(log[first..])
        invariant completed ==> end == HandleAll(Contents(), batch[i..], sender, now)
        invariant !completed ==> end == (Contents(), false)
        decreases |batch| - i
      {
        RestOfBatch(Contents(), batch, i, sender, now);
        ghost var before := log;
        var response := sender(batch[i]);
        completed := HandleItem(batch[i], response, now);
        LogGrew(before, log, first);
        delivered := if response.Accepted? then delivered + 1 else delivered;
        i := i + 1;
      }
      assert batch[|batch|..] == [];
    }
  }
}
