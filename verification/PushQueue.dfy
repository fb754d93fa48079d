/**
 The Web Push delivery queue of request_app/push.py with the tables and cascades
 it relies on (request_app/database.py). Rows are keyed by their AUTOINCREMENT
 ids, which are never handed out twice. The sender is an arbitrary answer per call.
 */
module PushQueue {
  import opened Wrappers
  import opened Arithmetic

  const MAX_DELIVERY_ATTEMPTS: nat := 3
  const MAX_SUBSCRIPTIONS_PER_USER: nat := 16

  /** `start` is start_notification_id: notifications up to it are never pushed. */
  datatype Subscription = Subscription(user: nat, endpoint: string, start: nat)

  datatype Delivery = Delivery(attempts: nat, last: Option<int>, delivered: Option<int>)

  datatype Db = Db(
    users: map<nat, bool>,
    nextUser: nat,
    notes: map<nat, nat>,
    nextNote: nat,
    subs: map<nat, Subscription>,
    nextSub: nat,
    deliveries: map<(nat, nat), Delivery>)

  const EMPTY_DB := Db(map[], 1, map[], 1, map[], 1, map[])

  /** What one call of the sender comes to. */
  datatype Response = Accepted | PushError(status: Option<int>) | OtherError

  datatype Outcome = Sent | Gone | Refused | Failed

  /** A row of the snapshot a delivery round works on. */
  datatype Item = Item(note: nat, sub: nat, endpoint: string, user: nat)

  /** One call of the sender; `granted` is the account that last received the
      endpoint and the first notification id created after that. */
  datatype Send = Send(note: nat, endpoint: string, user: nat, granted: (nat, nat), answer: Response)

  /** The tables with their history: who last received each endpoint, and every send. */
  datatype System = System(db: Db, granted: map<string, (nat, nat)>, log: seq<Send>)

  const START := System(EMPTY_DB, map[], [])

  datatype Op =
    | OpAddUser
    | OpSetActive(user: nat, active: bool)
    | OpRevoke(user: nat)
    | OpDeleteUser(user: nat)
    | OpNotify(user: nat)
    | OpDeleteNote(note: nat)
    | OpSubscribe(user: nat, endpoint: string)
    | OpUnsubscribe(user: nat, endpoint: string)
    | OpDeliver(limit: int, sender: Item -> Response, now: int)

  // ---- Subscriptions --------------------------------------------------------

  function SubsOf(db: Db, user: nat): (ids: set<nat>) {
    set s | s in db.subs && db.subs[s].user == user
  }

  /** The greatest id below `bound` among the notifications of `user`, or 0. */
  function LastNote(db: Db, user: nat, bound: nat): (id: nat)
    ensures id < bound || id == 0
    ensures id != 0 ==> id in db.notes && db.notes[id] == user
    ensures forall n :: n in db.notes && db.notes[n] == user && n < bound ==> n <= id
  {
    if bound == 0 then 0
    else if bound - 1 in db.notes && db.notes[bound - 1] == user then bound - 1
    else LastNote(db, user, bound - 1)
  }

  datatype SaveResult = Saved(id: nat) | LimitReached | UnknownUser

  /** The row of `endpoint` among the ids below `bound`; endpoints are unique. */
  function Holder(db: Db, endpoint: string, bound: nat): (id: Option<nat>)
    ensures id.Some? ==> id.value in db.subs && db.subs[id.value].endpoint == endpoint
    ensures id.None? ==> forall s :: s in db.subs && s < bound ==> db.subs[s].endpoint != endpoint
  {
    if bound == 0 then None
    else if bound - 1 in db.subs && db.subs[bound - 1].endpoint == endpoint then Some(bound - 1)
    else Holder(db, endpoint, bound - 1)
  }

  function WithoutSubs(db: Db, gone: set<nat>): (d: Db) {
    db.(subs := db.subs - gone,
        deliveries := map k | k in db.deliveries && k.1 !in gone :: db.deliveries[k])
  }

  function WithoutNotes(db: Db, gone: set<nat>): (d: Db) {
    db.(notes := db.notes - gone,
        deliveries := map k | k in db.deliveries && k.0 !in gone :: db.deliveries[k])
  }

  /** `save_subscription`: refresh, transfer or insert. */
  function Subscribe(sys: System, user: nat, endpoint: string): (r: (System, SaveResult)) {
    var db := sys.db;
    var holder := Holder(db, endpoint, db.nextSub);
    if holder.Some? && db.subs[holder.value].user == user then (sys, Saved(holder.value))
    else if |SubsOf(db, user)| >= MAX_SUBSCRIPTIONS_PER_USER then (sys, LimitReached)
    else if user !in db.users then (sys, UnknownUser)
    else
      var row := Subscription(user, endpoint, LastNote(db, user, db.nextNote));
      var granted := sys.granted[endpoint := (user, db.nextNote)];
      match holder
      case Some(id) =>
        var kept := map k | k in db.deliveries && k.1 != id :: db.deliveries[k];
        (System(db.(subs := db.subs[id := row], deliveries := kept), granted, sys.log), Saved(id))
      case None =>
        (System(db.(subs := db.subs[db.nextSub := row], nextSub := db.nextSub + 1), granted, sys.log),
         Saved(db.nextSub))
  }

  function Unsubscribe(db: Db, user: nat, endpoint: string): (d: Db) {
    WithoutSubs(db, set s | s in db.subs && db.subs[s].user == user && db.subs[s].endpoint == endpoint)
  }

  // ---- Delivery -------------------------------------------------------------

  function Attempts(db: Db, note: nat, sub: nat): (n: nat) {
    if (note, sub) in db.deliveries then db.deliveries[(note, sub)].attempts else 0
  }

  /** The notification is addressed to the subscription and newer than its watermark. */
  predicate Linked(db: Db, note: nat, sub: nat) {
    && note in db.notes
    && sub in db.subs
    && db.subs[sub].user == db.notes[note]
    && note > db.subs[sub].start
  }

  predicate Pending(db: Db, note: nat, sub: nat) {
    && Linked(db, note, sub)
    && db.notes[note] in db.users
    && db.users[db.notes[note]]
    && Attempts(db, note, sub) < MAX_DELIVERY_ATTEMPTS
    && ((note, sub) in db.deliveries ==> db.deliveries[(note, sub)].delivered.None?)
  }

  /** Pending pairs of one notification, by subscription id. */
  function PendingSubs(db: Db, note: nat, sub: nat): (rows: seq<(nat, nat)>)
    decreases db.nextSub - sub
  {
    if sub >= db.nextSub then []
    else (if Pending(db, note, sub) then [(note, sub)] else []) + PendingSubs(db, note, sub + 1)
  }

  function PendingFrom(db: Db, note: nat): (rows: seq<(nat, nat)>)
    decreases db.nextNote - note
  {
    if note >= db.nextNote then []
    else PendingSubs(db, note, 0) + PendingFrom(db, note + 1)
  }

  /** The pending pairs, ordered by notification and then subscription id. */
  function PendingRows(db: Db): (rows: seq<(nat, nat)>) {
    PendingFrom(db, 0)
  }

  function RetryDelay(attempts: nat): (seconds: nat) {
    var delay := 60 * Pow2(if attempts > 1 then attempts - 1 else 0);
    if delay < 900 then delay else 900
  }

  predicate RetryReady(db: Db, row: (nat, nat), now: int) {
    row in db.deliveries && db.deliveries[row].last.Some? ==>
      now >= db.deliveries[row].last.value + RetryDelay(db.deliveries[row].attempts)
  }

  function ReadyItems(db: Db, rows: seq<(nat, nat)>, now: int): (items: seq<Item>)
    requires forall i :: 0 <= i < |rows| ==> Linked(db, rows[i].0, rows[i].1)
  {
    if rows == [] then []
    else
      assert Linked(db, rows[0].0, rows[0].1);
      var item := Item(rows[0].0, rows[0].1, db.subs[rows[0].1].endpoint, db.subs[rows[0].1].user);
      (if RetryReady(db, rows[0], now) then [item] else []) + ReadyItems(db, rows[1..], now)
  }

  function Clamp(limit: int): (n: nat) {
    if limit < 1 then 1 else if limit > 500 then 500 else limit
  }

  /** The rows the limit lets through; the retry filter comes after it. */
  function Limited(db: Db, limit: int): (rows: seq<(nat, nat)>)
    ensures forall i :: 0 <= i < |rows| ==> Pending(db, rows[i].0, rows[i].1)
  {
    PendingRowsArePending(db);
    var rows := PendingRows(db);
    if |rows| <= Clamp(limit) then rows else rows[..Clamp(limit)]
  }

  function Batch(db: Db, limit: int, now: int): (items: seq<Item>) {
    ReadyItems(db, Limited(db, limit), now)
  }

  function OutcomeOf(response: Response): (outcome: Outcome) {
    match response
    case Accepted => Sent
    case OtherError => Failed
    case PushError(None) => Failed
    case PushError(Some(status)) =>
      if status == 404 || status == 410 then Gone
      else if 400 <= status < 500 && status !in {408, 425, 429} then Refused
      else Failed
  }

  /** The delivery row an outcome leaves behind. */
  function Recorded(db: Db, item: Item, outcome: Outcome, now: int): (row: Delivery) {
    match outcome
    case Sent => Delivery(Attempts(db, item.note, item.sub) + 1, Some(now), Some(now))
    case Refused => Delivery(MAX_DELIVERY_ATTEMPTS, Some(now), None)
    case _ => Delivery(Attempts(db, item.note, item.sub) + 1, Some(now), None)
  }

  /** The foreign keys a delivery row needs. */
  predicate CanRecord(db: Db, item: Item) {
    item.note in db.notes && item.sub in db.subs
  }

  function Logged(sys: System, item: Item, response: Response): (log: seq<Send>) {
    var granted := if item.endpoint in sys.granted then sys.granted[item.endpoint] else (0, 0);
    sys.log + [Send(item.note, item.endpoint, item.user, granted, response)]
  }

  /** One item: send it, then record the outcome, drop the subscription, or abort. */
  function Handle(sys: System, item: Item, response: Response, now: int): (r: (System, bool)) {
    var outcome := OutcomeOf(response);
    var log := Logged(sys, item, response);
    var db := sys.db;
    if outcome.Gone? then (System(WithoutSubs(db, {item.sub}), sys.granted, log), true)
    else if !CanRecord(db, item) then (System(db, sys.granted, log), false)
    else
      var row := Recorded(db, item, outcome, now);
      (System(db.(deliveries := db.deliveries[(item.note, item.sub) := row]), sys.granted, log), true)
  }

  function HandleAll(sys: System, items: seq<Item>, sender: Item -> Response, now: int): (r: (System, bool))
    decreases |items|
  {
    if items == [] then (sys, true)
    else
      var first := Handle(sys, items[0], sender(items[0]), now);
      if first.1 then HandleAll(first.0, items[1..], sender, now) else first
  }

  /** `deliver_pending`: the system after the round, and whether the round completed. */
  function Deliver(sys: System, limit: int, sender: Item -> Response, now: int): (r: (System, bool)) {
    HandleAll(sys, Batch(sys.db, limit, now), sender, now)
  }

  function Step(sys: System, op: Op): (next: System) {
    var db := sys.db;
    match op
    case OpAddUser => sys.(db := db.(users := db.users[db.nextUser := true], nextUser := db.nextUser + 1))
    case OpSetActive(user, active) =>
      if user !in db.users then sys
      else if active then sys.(db := db.(users := db.users[user := true]))
      else sys.(db := WithoutSubs(db.(users := db.users[user := false]), SubsOf(db, user)))
    case OpRevoke(user) => sys.(db := WithoutSubs(db, SubsOf(db, user)))
    case OpDeleteUser(user) =>
      var rest := WithoutNotes(WithoutSubs(db, SubsOf(db, user)), set n | n in db.notes && db.notes[n] == user);
      sys.(db := rest.(users := db.users - {user}))
    case OpNotify(user) =>
      if user !in db.users then sys
      else sys.(db := db.(notes := db.notes[db.nextNote := user], nextNote := db.nextNote + 1))
    case OpDeleteNote(note) => sys.(db := WithoutNotes(db, {note}))
    case OpSubscribe(user, endpoint) => Subscribe(sys, user, endpoint).0
    case OpUnsubscribe(user, endpoint) => sys.(db := Unsubscribe(db, user, endpoint))
    case OpDeliver(limit, sender, now) => Deliver(sys, limit, sender, now).0
  }

  // ---- What PendingRows lists ----------------------------------------------

  /** The order of the query: notification id, then subscription id. */
  predicate RowBefore(a: (nat, nat), b: (nat, nat)) {
    a.0 < b.0 || (a.0 == b.0 && a.1 < b.1)
  }

  lemma {:induction false} PendingSubsLists(db: Db, note: nat, sub: nat)
    ensures forall r :: r in PendingSubs(db, note, sub) <==>
      r.0 == note && sub <= r.1 < db.nextSub && Pending(db, r.0, r.1)
    ensures forall i, j :: 0 <= i < j < |PendingSubs(db, note, sub)| ==>
      RowBefore(PendingSubs(db, note, sub)[i], PendingSubs(db, note, sub)[j])
    decreases db.nextSub - sub
  {
    if sub < db.nextSub {
      PendingSubsLists(db, note, sub + 1);
      var here, rest := if Pending(db, note, sub) then [(note, sub)] else [], PendingSubs(db, note, sub + 1);
      var all := here + rest;
      forall i, j | 0 <= i < j < |all| ensures RowBefore(all[i], all[j]) {
        assert j >= |here| && rest[j - |here|] in rest;
      }
    }
  }

  lemma {:induction false} PendingFromLists(db: Db, note: nat)
    ensures forall r :: r in PendingFrom(db, note) <==>
      note <= r.0 < db.nextNote && r.1 < db.nextSub && Pending(db, r.0, r.1)
    ensures forall i, j :: 0 <= i < j < |PendingFrom(db, note)| ==>
      RowBefore(PendingFrom(db, note)[i], PendingFrom(db, note)[j])
    decreases db.nextNote - note
  {
    if note < db.nextNote {
      PendingSubsLists(db, note, 0);
      PendingFromLists(db, note + 1);
      var here, rest := PendingSubs(db, note, 0), PendingFrom(db, note + 1);
      var all := here + rest;
      assert PendingFrom(db, note) == all;
      forall i, j | 0 <= i < j < |all| ensures RowBefore(all[i], all[j]) {
        if i < |here| <= j {
          assert here[i] in here && rest[j - |here|] in rest;
        }
      }
    }
  }

  lemma PendingRowsArePending(db: Db)
    ensures forall i :: 0 <= i < |PendingRows(db)| ==> Pending(db, PendingRows(db)[i].0, PendingRows(db)[i].1)
  {
    PendingFromLists(db, 0);
    forall i | 0 <= i < |PendingRows(db)|
      ensures Pending(db, PendingRows(db)[i].0, PendingRows(db)[i].1)
    {
      assert PendingRows(db)[i] in PendingRows(db);
    }
  }
}
