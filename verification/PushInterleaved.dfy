/**
 Delivery as the worker really runs it: the snapshot, each send and each recording
 are separate steps, and any other call may come between them. There is one worker,
 so one round at a time (request_app/main.py:109-115).
 */
module PushInterleaved {
  import opened Wrappers
  import opened PushQueue
  import opened PushGuarantees
  import opened PushRetries

  /** The system, what is left of the round's snapshot, the answer to the send of its
      first item once that is made, the grants at the time of the snapshot, and the
      endpoints that were granted or removed since. */
  datatype Worker = Worker(
    sys: System,
    batch: seq<Item>,
    sent: Option<Response>,
    grants: map<string, (nat, nat)>,
    changed: set<string>)

  const IDLE := Worker(START, [], None, map[], {})

  datatype Move =
    | Other(op: Op)
    | Begin(limit: int, now: int)
    | SendNext(response: Response)
    | Record(now: int)

  /** The recording half of an item; None when a foreign key refuses it. */
  function Written(db: Db, item: Item, response: Response, now: int): (r: Option<Db>) {
    var outcome := OutcomeOf(response);
    if outcome.Gone? then Some(WithoutSubs(db, {item.sub}))
    else if !CanRecord(db, item) then None
    else Some(db.(deliveries := db.deliveries[(item.note, item.sub) := Recorded(db, item, outcome, now)]))
  }

  function EndpointsOf(db: Db, user: nat): (endpoints: set<string>) {
    set s | s in db.subs && db.subs[s].user == user :: db.subs[s].endpoint
  }

  /** A row of `user` holds the endpoint. */
  predicate Holds(db: Db, user: nat, endpoint: string) {
    exists s | s in db.subs :: db.subs[s].user == user && db.subs[s].endpoint == endpoint
  }

  /** The endpoints that a call grants or removes; a refresh does neither. */
  function Changes(sys: System, op: Op): (endpoints: set<string>) {
    match op
    case OpSetActive(user, active) => if user in sys.db.users && !active then EndpointsOf(sys.db, user) else {}
    case OpRevoke(user) => EndpointsOf(sys.db, user)
    case OpDeleteUser(user) => EndpointsOf(sys.db, user)
    case OpSubscribe(user, endpoint) =>
      if Subscribe(sys, user, endpoint).1.Saved? && !Holds(sys.db, user, endpoint) then {endpoint} else {}
    case OpUnsubscribe(user, endpoint) => if Holds(sys.db, user, endpoint) then {endpoint} else {}
    case _ => {}
  }

  /** The endpoint that recording an answer removes: a 404 or 410 drops the row. */
  function Dropped(db: Db, item: Item, response: Response): (endpoints: set<string>) {
    if OutcomeOf(response).Gone? && item.sub in db.subs then {db.subs[item.sub].endpoint} else {}
  }

  function Next(w: Worker, move: Move): (next: Worker) {
    match move
    case Other(op) =>
      if op.OpDeliver? then w else w.(sys := Step(w.sys, op), changed := w.changed + Changes(w.sys, op))
    case Begin(limit, now) =>
      if w.batch != [] then w
      else w.(batch := Batch(w.sys.db, limit, now), grants := w.sys.granted, changed := {})
    case SendNext(response) =>
      if w.batch == [] || w.sent.Some? then w
      else w.(sys := w.sys.(log := Logged(w.sys, w.batch[0], response)), sent := Some(response))
    case Record(now) =>
      if w.batch == [] || w.sent.None? then w
      else
        match Written(w.sys.db, w.batch[0], w.sent.value, now)
        case Some(db) =>
          var dropped := Dropped(w.sys.db, w.batch[0], w.sent.value);
          w.(sys := w.sys.(db := db), batch := w.batch[1..], sent := None, changed := w.changed + dropped)
        case None => w.(batch := [], sent := None)
  }

  function RunMoves(w: Worker, moves: seq<Move>): (end: Worker)
    decreases |moves|
  {
    if moves == [] then w else RunMoves(Next(w, moves[0]), moves[1..])
  }

  // ---- The atomic round is a special case -----------------------------------

  lemma HandleIsSendThenRecord(w: Worker, response: Response, now: int)
    requires w.batch != [] && w.sent.None?
    ensures var handled := Handle(w.sys, w.batch[0], response, now);
      Next(Next(w, SendNext(response)), Record(now))
        == w.(sys := handled.0, batch := if handled.1 then w.batch[1..] else [],
              changed := w.changed + Dropped(w.sys.db, w.batch[0], response))
  {
  }

  /** A round without interruptions is what `Deliver` describes. */
  lemma {:induction false} UninterruptedRound(w: Worker, sender: Item -> Response, now: int) returns (moves: seq<Move>)
    requires w.sent.None?
    ensures var end := RunMoves(w, moves);
      end.sys == HandleAll(w.sys, w.batch, sender, now).0 && end.batch == [] && end.sent.None?
    decreases |w.batch|
  {
    if w.batch == [] {
      moves := [];
    } else {
      var response := sender(w.batch[0]);
      HandleIsSendThenRecord(w, response, now);
      var rest := UninterruptedRound(Next(Next(w, SendNext(response)), Record(now)), sender, now);
      moves := [SendNext(response)] + ([Record(now)] + rest);
      assert moves[1..] == [Record(now)] + rest && ([Record(now)] + rest)[1..] == rest;
    }
  }

  lemma DeliverIsARound(w: Worker, limit: int, sender: Item -> Response, now: int) returns (moves: seq<Move>)
    requires w.batch == [] && w.sent.None?
    ensures RunMoves(w, moves).sys == Deliver(w.sys, limit, sender, now).0
  {
    var begun := Next(w, Begin(limit, now));
    var rest := UninterruptedRound(begun, sender, now);
    moves := [Begin(limit, now)] + rest;
    assert moves[1..] == rest;
  }

  // ---- The invariant --------------------------------------------------------

  /** The send of this pair is made and not yet recorded. */
  predicate InFlight(w: Worker, note: nat, endpoint: string) {
    w.sent.Some? && w.batch != [] && w.batch[0].note == note && w.batch[0].endpoint == endpoint
  }

  ghost predicate Counted(log: seq<Send>, nextNote: nat) {
    && (forall n: nat, e :: Sends(log, n, e) <= MAX_DELIVERY_ATTEMPTS && Successes(log, n, e) <= 1)
    && (forall n: nat, e :: n >= nextNote ==> Sends(log, n, e) == Successes(log, n, e) == 0)
  }

  /** The delivery row of an open pair covers what the log shows of it, but for the
      send in flight. */
  ghost predicate Covered(w: Worker) {
    forall n: nat, s: nat | Open(w.sys.db, n, s) ::
      var e := w.sys.db.subs[s].endpoint;
      if InFlight(w, n, e) then Sends(w.sys.log, n, e) <= Attempts(w.sys.db, n, s) + 1
      else Sends(w.sys.log, n, e) <= Attempts(w.sys.db, n, s) && Successes(w.sys.log, n, e) == 0
  }

  /** Only the item's own row can still be open for its notification and endpoint, and
      it is not delivered. */
  ghost predicate Placed(db: Db, item: Item) {
    && item.note < db.nextNote && item.sub < db.nextSub
    && (item.sub in db.subs ==> db.subs[item.sub].endpoint == item.endpoint)
    && ((item.note, item.sub) in db.deliveries ==> db.deliveries[(item.note, item.sub)].delivered.None?)
    && (forall s | s in db.subs && db.subs[s].endpoint == item.endpoint && Linked(db, item.note, s) :: s == item.sub)
  }

  /** The endpoint belonged to the item's account at the snapshot; a later grant is
      newer than the notification. */
  predicate Dated(w: Worker, item: Item) {
    && item.endpoint in w.grants && w.grants[item.endpoint].0 == item.user && w.grants[item.endpoint].1 <= item.note
    && item.endpoint in w.sys.granted
    && (w.sys.granted[item.endpoint] == w.grants[item.endpoint] || w.sys.granted[item.endpoint].1 > item.note)
  }

  /** The item was not sent in this round. */
  ghost predicate Waits(w: Worker, item: Item) {
    && Placed(w.sys.db, item) && Dated(w, item)
    && Sends(w.sys.log, item.note, item.endpoint) < MAX_DELIVERY_ATTEMPTS
    && Successes(w.sys.log, item.note, item.endpoint) == 0
  }

  ghost predicate SentHead(w: Worker) {
    w.sent.Some? ==>
      && w.batch != [] && Placed(w.sys.db, w.batch[0])
      && (!OutcomeOf(w.sent.value).Sent? ==> Successes(w.sys.log, w.batch[0].note, w.batch[0].endpoint) == 0)
  }

  predicate Distinct(items: seq<Item>) {
    && (forall i, j | 0 <= i < j < |items| :: (items[i].note, items[i].sub) != (items[j].note, items[j].sub))
    && (forall i, j | 0 <= i < j < |items| :: items[i].endpoint == items[j].endpoint <==> items[i].sub == items[j].sub)
  }

  ghost predicate Waiting(w: Worker) {
    forall i | (if w.sent.Some? then 1 else 0) <= i < |w.batch| :: Waits(w, w.batch[i])
  }

  ghost predicate Tables(sys: System) {
    Referential(sys.db) && Capped(sys.db) && Watermarked(sys)
  }

  /** Nothing follows a success of a pair, and a send about a notification at least as
      new as the endpoint's latest grant goes to the account of that grant. */
  ghost predicate Orderly(log: seq<Send>) {
    && (forall i, j | 0 <= i < j < |log| && Concerns(log[j], log[i].note, log[i].endpoint) :: !log[i].answer.Accepted?)
    && (forall i | 0 <= i < |log| && log[i].granted.1 <= log[i].note :: log[i].granted.0 == log[i].user)
  }

  ghost predicate Good(w: Worker) {
    && Tables(w.sys)
    && Counted(w.sys.log, w.sys.db.nextNote) && Orderly(w.sys.log)
    && Covered(w) && SentHead(w) && Waiting(w) && Distinct(w.batch)
  }

  // ---- Another call between two steps ---------------------------------------

  lemma StepIgnoresLog(sys: System, op: Op)
    requires !op.OpDeliver?
    ensures Step(sys.(log := []), op) == Step(sys, op).(log := []) && Step(sys, op).log == sys.log
  {
  }

  lemma OtherStepKeepsTables(sys: System, op: Op)
    requires Tables(sys) && !op.OpDeliver?
    ensures Tables(Step(sys, op))
  {
    var bare := sys.(log := []);
    StepIgnoresLog(sys, op);
    assert Inv(bare);
    StepKeepsInv(bare, op);
  }

  lemma OtherStepDatesGrants(sys: System, op: Op, endpoint: string)
    requires Referential(sys.db) && !op.OpDeliver? && endpoint in sys.granted
    ensures var next := Step(sys, op);
      && endpoint in next.granted
      && (next.granted[endpoint] == sys.granted[endpoint] || next.granted[endpoint].1 >= sys.db.nextNote)
  {
  }

  lemma OtherStepKeepsPlaced(before: Db, after: Db, item: Item)
    requires Placed(before, item) && LinksNothingOld(before, after)
    ensures Placed(after, item)
  {
  }

  lemma OtherStepKeepsCovered(w: Worker, op: Op)
    requires Referential(w.sys.db) && Counted(w.sys.log, w.sys.db.nextNote) && Covered(w) && !op.OpDeliver?
    ensures Covered(Next(w, Other(op)))
  {
    OtherStepLinksNothing(w.sys, op);
    StepIgnoresLog(w.sys, op);
  }

  lemma OtherStepKeepsWaits(w: Worker, op: Op, item: Item)
    requires Referential(w.sys.db) && Waits(w, item) && !op.OpDeliver?
    ensures Waits(Next(w, Other(op)), item)
  {
    StepIgnoresLog(w.sys, op);
    OtherStepLinksNothing(w.sys, op);
    OtherStepKeepsPlaced(w.sys.db, Step(w.sys, op).db, item);
    OtherStepDatesGrants(w.sys, op, item.endpoint);
  }

  lemma OtherStepKeepsCounted(sys: System, op: Op)
    requires Referential(sys.db) && Counted(sys.log, sys.db.nextNote) && !op.OpDeliver?
    ensures Counted(sys.log, Step(sys, op).db.nextNote)
  {
    OtherStepLinksNothing(sys, op);
  }

  lemma OtherKeepsGood(w: Worker, op: Op)
    requires Good(w) && !op.OpDeliver?
    ensures Good(Next(w, Other(op)))
  {
    hide Step, Covered, Waits, Referential, Capped, Watermarked, Placed, Counted, Orderly, LinksNothingOld;
    var next := Next(w, Other(op));
    StepIgnoresLog(w.sys, op);
    OtherStepKeepsTables(w.sys, op);
    OtherStepKeepsCounted(w.sys, op);
    OtherStepKeepsCovered(w, op);
    OtherStepLinksNothing(w.sys, op);
    forall i | (if w.sent.Some? then 1 else 0) <= i < |w.batch| ensures Waits(next, w.batch[i]) {
      OtherStepKeepsWaits(w, op, w.batch[i]);
    }
    if w.sent.Some? {
      OtherStepKeepsPlaced(w.sys.db, next.sys.db, w.batch[0]);
    }
  }

  // ---- The steps of the round -----------------------------------------------

  lemma SnapshotIsPlaced(sys: System, limit: int, now: int)
    requires Referential(sys.db)
    ensures forall item | item in Batch(sys.db, limit, now) ::
      item.sub in sys.db.subs && item.endpoint == sys.db.subs[item.sub].endpoint && Placed(sys.db, item)
  {
    SnapshotIsCurrent(sys.db, limit, now);
  }

  lemma BeginKeepsGood(w: Worker, limit: int, now: int)
    requires Good(w) && w.batch == []
    ensures Good(Next(w, Begin(limit, now)))
  {
    var next := Next(w, Begin(limit, now));
    assert Accounted(w.sys.db, w.sys.log);
    SnapshotIsBatched(w.sys, limit, now);
    SnapshotIsPlaced(w.sys, limit, now);
    forall i | 0 <= i < |next.batch| ensures Waits(next, next.batch[i]) {
      assert next.batch[i] in next.batch && Sendable(w.sys, next.batch[i]);
    }
  }

  lemma SendKeepsOrderly(w: Worker, item: Item, response: Response)
    requires Orderly(w.sys.log) && Waits(w, item)
    ensures Orderly(Logged(w.sys, item, response))
  {
    var log := Logged(w.sys, item, response);
    forall i, j | 0 <= i < j < |log| && Concerns(log[j], log[i].note, log[i].endpoint)
      ensures !log[i].answer.Accepted?
    {
      if j == |w.sys.log| {
        NoSuccessShown(w.sys.log, i, item.note, item.endpoint);
      } else {
        assert Concerns(w.sys.log[j], w.sys.log[i].note, w.sys.log[i].endpoint);
      }
    }
  }

  /** One open pair before and after a send. */
  lemma SendCovers(w: Worker, response: Response, n: nat, s: nat)
    requires Covered(w) && w.batch != [] && w.sent.None? && Waits(w, w.batch[0]) && Open(w.sys.db, n, s)
    ensures var next := Next(w, SendNext(response));
      var e := w.sys.db.subs[s].endpoint;
      if InFlight(next, n, e) then Sends(next.sys.log, n, e) <= Attempts(w.sys.db, n, s) + 1
      else Sends(next.sys.log, n, e) <= Attempts(w.sys.db, n, s) && Successes(next.sys.log, n, e) == 0
  {
    var item := w.batch[0];
    var next := Next(w, SendNext(response));
    var send := next.sys.log[|w.sys.log|];
    assert next.sys.log == w.sys.log + [send] && send.note == item.note && send.endpoint == item.endpoint;
    OneMoreSend(w.sys.log, send, n, w.sys.db.subs[s].endpoint);
    hide Sends, Successes, Placed, Dated, Attempts;
  }

  lemma SendCountsHead(w: Worker, response: Response)
    requires w.batch != [] && w.sent.None? && Waits(w, w.batch[0])
    ensures SentHead(Next(w, SendNext(response)))
  {
    var item := w.batch[0];
    var next := Next(w, SendNext(response));
    var send := next.sys.log[|w.sys.log|];
    assert next.sys.log == w.sys.log + [send] && send.answer == response;
    OneMoreSend(w.sys.log, send, item.note, item.endpoint);
    hide Sends, Successes, Placed, Dated;
  }

  lemma SendKeepsCovered(w: Worker, response: Response)
    requires Covered(w) && w.batch != [] && w.sent.None? && Waits(w, w.batch[0])
    ensures Covered(Next(w, SendNext(response))) && SentHead(Next(w, SendNext(response)))
  {
    SendCountsHead(w, response);
    hide Sends, Successes, Open, Attempts, SentHead, Waits, Logged;
    forall n: nat, s: nat | Open(w.sys.db, n, s)
      ensures var next := Next(w, SendNext(response));
        var e := w.sys.db.subs[s].endpoint;
        if InFlight(next, n, e) then Sends(next.sys.log, n, e) <= Attempts(w.sys.db, n, s) + 1
        else Sends(next.sys.log, n, e) <= Attempts(w.sys.db, n, s) && Successes(next.sys.log, n, e) == 0
    {
      SendCovers(w, response, n, s);
    }
  }

  lemma SendKeepsGood(w: Worker, response: Response)
    requires Good(w) && w.batch != [] && w.sent.None?
    ensures Good(Next(w, SendNext(response)))
  {
    var item := w.batch[0];
    var next := Next(w, SendNext(response));
    var send := next.sys.log[|w.sys.log|];
    assert Waits(w, item);
    assert next.sys.log == w.sys.log + [send] && Concerns(send, item.note, item.endpoint);
    OneSend(w.sys.log, send);
    SendKeepsOrderly(w, item, response);
    SendKeepsCovered(w, response);
    hide Sends, Successes, Orderly, Covered, SentHead, Placed, Referential, Capped, Watermarked;
    forall i | 1 <= i < |w.batch| ensures Waits(next, w.batch[i]) {
      assert Waits(w, w.batch[i]);
      assert !Concerns(send, w.batch[i].note, w.batch[i].endpoint);
    }
  }

  lemma WrittenIsReferential(db: Db, item: Item, response: Response, now: int, next: Db)
    requires Referential(db) && Written(db, item, response, now) == Some(next)
    ensures Referential(next)
  {
  }

  /** Recording opens no pair, and raises the attempts of the pair it records. */
  lemma WrittenKeepsTables(sys: System, item: Item, response: Response, now: int, db: Db)
    requires Tables(sys) && Written(sys.db, item, response, now) == Some(db)
    ensures Tables(sys.(db := db))
  {
    FewerSubs(sys.db, db);
    WrittenIsReferential(sys.db, item, response, now, db);
    hide Capped, SubsOf;
  }

  lemma WrittenOpensNothing(db: Db, item: Item, response: Response, now: int, next: Db, n: nat, s: nat)
    requires Placed(db, item) && Written(db, item, response, now) == Some(next) && Open(next, n, s)
    ensures Open(db, n, s)
  {
  }

  lemma WrittenKeepsPlaced(db: Db, item: Item, response: Response, now: int, next: Db, other: Item)
    requires Placed(db, item) && Placed(db, other) && Written(db, item, response, now) == Some(next)
    requires (item.note, item.sub) != (other.note, other.sub)
    ensures Placed(next, other)
  {
    forall s | s in next.subs && next.subs[s].endpoint == other.endpoint && Open(next, other.note, s)
      ensures s == other.sub
    {
      WrittenOpensNothing(db, item, response, now, next, other.note, s);
    }
  }

  lemma RecordKeepsCovered(w: Worker, now: int)
    requires w.batch != [] && w.sent.Some? && Covered(w) && SentHead(w)
    ensures Covered(Next(w, Record(now)))
  {
    var item := w.batch[0];
    var next := Next(w, Record(now));
    forall n: nat, s: nat | Open(next.sys.db, n, s)
      ensures var e := next.sys.db.subs[s].endpoint;
        Sends(w.sys.log, n, e) <= Attempts(next.sys.db, n, s) && Successes(w.sys.log, n, e) == 0
    {
      if next.batch != [] || next.sys.db != w.sys.db {
        WrittenOpensNothing(w.sys.db, item, w.sent.value, now, next.sys.db, n, s);
      }
    }
  }

  lemma RecordKeepsGood(w: Worker, now: int)
    requires Good(w) && w.batch != [] && w.sent.Some?
    ensures Good(Next(w, Record(now)))
  {
    hide Covered, Placed, Counted, Orderly, Referential, Capped, Watermarked, Open;
    var next := Next(w, Record(now));
    RecordKeepsCovered(w, now);
    match Written(w.sys.db, w.batch[0], w.sent.value, now)
    case None =>
    case Some(db) =>
      WrittenKeepsTables(w.sys, w.batch[0], w.sent.value, now, db);
      forall i | 0 <= i < |next.batch| ensures Waits(next, next.batch[i]) {
        assert Waits(w, w.batch[i + 1]);
        WrittenKeepsPlaced(w.sys.db, w.batch[0], w.sent.value, now, db, w.batch[i + 1]);
      }
      assert next.batch == w.batch[1..];
  }

  // ---- Over every interleaving ----------------------------------------------

  lemma NextKeepsGood(w: Worker, move: Move)
    requires Good(w)
    ensures Good(Next(w, move))
  {
    hide Good;
    match move
    case Other(op) => if !op.OpDeliver? { OtherKeepsGood(w, op); }
    case Begin(limit, now) => if w.batch == [] { BeginKeepsGood(w, limit, now); }
    case SendNext(response) => if w.batch != [] && w.sent.None? { SendKeepsGood(w, response); }
    case Record(now) => if w.batch != [] && w.sent.Some? { RecordKeepsGood(w, now); }
  }

  lemma {:induction false} RunKeepsGood(w: Worker, moves: seq<Move>)
    requires Good(w)
    ensures Good(RunMoves(w, moves))
    decreases |moves|
  {
    hide Good;
    if moves != [] {
      NextKeepsGood(w, moves[0]);
      RunKeepsGood(Next(w, moves[0]), moves[1..]);
    }
  }

  lemma IdleIsGood()
    ensures Good(IDLE)
  {
    StartIsInv();
  }

  /** However other calls interleave with the snapshot, the sends and the recordings of
      a round: at most three sends and one success per notification and endpoint, no
      send after a success, and a send about a notification at least as new as the
      endpoint's latest grant goes to the account of that grant. */
  lemma InterleavedAtMostOnce(moves: seq<Move>, note: nat, endpoint: string)
    ensures var log := RunMoves(IDLE, moves).sys.log;
      && Sends(log, note, endpoint) <= 3
      && Successes(log, note, endpoint) <= 1
      && Orderly(log)
  {
    IdleIsGood();
    RunKeepsGood(IDLE, moves);
  }

  /** The next send goes to the account the endpoint was last granted to, about a
      notification newer than that grant, exactly when the endpoint was not granted
      since the snapshot. */
  lemma SendIsAddressedUnlessGranted(moves: seq<Move>)
    requires var w := RunMoves(IDLE, moves); w.batch != [] && w.sent.None?
    ensures var w := RunMoves(IDLE, moves);
      var item := w.batch[0];
      && item.endpoint in w.sys.granted && item.endpoint in w.grants
      && (w.sys.granted[item.endpoint].0 == item.user && w.sys.granted[item.endpoint].1 <= item.note
          <==> w.sys.granted[item.endpoint] == w.grants[item.endpoint])
  {
    IdleIsGood();
    RunKeepsGood(IDLE, moves);
    var w := RunMoves(IDLE, moves);
    assert Waits(w, w.batch[0]);
  }

  // ---- Who holds the endpoint of a send -------------------------------------

  /** An account holds the endpoint by a grant older than the notification. */
  ghost predicate Addressed(sys: System, item: Item) {
    && Holds(sys.db, item.user, item.endpoint)
    && item.endpoint in sys.granted && sys.granted[item.endpoint].1 <= item.note
  }

  /** Either nothing happened to the endpoint since the snapshot and the item's row
      stands, or it was granted after the notification or has no row. */
  ghost predicate Standing(w: Worker, item: Item) {
    var e := item.endpoint;
    if e !in w.changed then
      && item.sub in w.sys.db.subs
      && w.sys.db.subs[item.sub].user == item.user && w.sys.db.subs[item.sub].endpoint == e
      && e in w.sys.granted && e in w.grants && w.sys.granted[e] == w.grants[e]
    else
      || (e in w.sys.granted && w.sys.granted[e].1 > item.note)
      || forall s | s in w.sys.db.subs :: w.sys.db.subs[s].endpoint != e
  }

  ghost predicate Located(w: Worker) {
    forall i | (if w.sent.Some? then 1 else 0) <= i < |w.batch| :: Standing(w, w.batch[i])
  }

  /** The rows and the grant of an endpoint are as before. */
  ghost predicate SameEndpoint(before: System, after: System, e: string) {
    && (forall s | s in before.db.subs && before.db.subs[s].endpoint == e ::
          s in after.db.subs && after.db.subs[s] == before.db.subs[s])
    && (forall s | s in after.db.subs && after.db.subs[s].endpoint == e ::
          s in before.db.subs && before.db.subs[s] == after.db.subs[s])
    && (e in before.granted <==> e in after.granted)
    && (e in before.granted ==> before.granted[e] == after.granted[e])
  }

  /** The endpoint was granted just now, or no row holds it any more. */
  ghost predicate NewOrGone(before: System, after: System, e: string) {
    || (e in after.granted && after.granted[e].1 >= before.db.nextNote)
    || forall s | s in after.db.subs :: after.db.subs[s].endpoint != e
  }

  /** A subscription that changes something grants the endpoint and touches one row. */
  lemma SubscribeGrants(sys: System, user: nat, endpoint: string)
    requires Referential(sys.db)
    ensures var next := Subscribe(sys, user, endpoint).0;
      if Subscribe(sys, user, endpoint).1.Saved? && !Holds(sys.db, user, endpoint)
      then next.granted == sys.granted[endpoint := (user, sys.db.nextNote)]
        && exists id | id in next.db.subs :: (
             && next.db.subs[id].endpoint == endpoint
             && next.db.subs == sys.db.subs[id := next.db.subs[id]]
             && (id in sys.db.subs ==> sys.db.subs[id].endpoint == endpoint))
      else next == sys
  {
    var r := Subscribe(sys, user, endpoint);
    if r.1.Saved? && !Holds(sys.db, user, endpoint) {
      assert r.0.db.subs[r.1.id].endpoint == endpoint;
    }
  }

  lemma SubscribeChanges(sys: System, user: nat, endpoint: string, e: string)
    requires Referential(sys.db)
    ensures var next := Subscribe(sys, user, endpoint).0;
      if e in Changes(sys, OpSubscribe(user, endpoint)) then NewOrGone(sys, next, e) else SameEndpoint(sys, next, e)
  {
    SubscribeGrants(sys, user, endpoint);
    hide Subscribe, Holds, Referential;
  }

  lemma RemovalChanges(sys: System, gone: set<nat>, e: string)
    requires Referential(sys.db) && forall s | s in gone :: s in sys.db.subs
    ensures var next := sys.(db := WithoutSubs(sys.db, gone));
      if exists s | s in gone :: sys.db.subs[s].endpoint == e
      then NewOrGone(sys, next, e) else SameEndpoint(sys, next, e)
  {
  }

  /** Only rows of subscriptions and grants matter to an endpoint. */
  lemma SubsDecide(before: System, after: System, again: System, e: string)
    requires again.db.subs == after.db.subs && again.granted == after.granted
    ensures SameEndpoint(before, after, e) ==> SameEndpoint(before, again, e)
    ensures NewOrGone(before, after, e) ==> NewOrGone(before, again, e)
  {
  }

  lemma OtherStepChanges(sys: System, op: Op, e: string)
    requires Referential(sys.db) && !op.OpDeliver?
    ensures if e in Changes(sys, op) then NewOrGone(sys, Step(sys, op), e) else SameEndpoint(sys, Step(sys, op), e)
  {
    var next := Step(sys, op);
    match op
    case OpSetActive(user, active) =>
      if user in sys.db.users && !active {
        RemovalChanges(sys, SubsOf(sys.db, user), e);
      }
    case OpRevoke(user) => RemovalChanges(sys, SubsOf(sys.db, user), e);
    case OpDeleteUser(user) => RemovalChanges(sys, SubsOf(sys.db, user), e);
    case OpSubscribe(user, endpoint) => SubscribeChanges(sys, user, endpoint, e);
    case OpUnsubscribe(user, endpoint) =>
      var gone := set s | s in sys.db.subs && sys.db.subs[s].user == user && sys.db.subs[s].endpoint == endpoint;
      RemovalChanges(sys, gone, e);
    case _ =>
  }

  lemma OtherKeepsStanding(w: Worker, op: Op, item: Item)
    requires Referential(w.sys.db) && Waits(w, item) && Standing(w, item) && !op.OpDeliver?
    ensures Standing(Next(w, Other(op)), item)
  {
    OtherStepChanges(w.sys, op, item.endpoint);
    OtherStepDatesGrants(w.sys, op, item.endpoint);
    hide Step, Changes, Referential, Sends, Successes;
  }

  lemma OtherKeepsLocated(w: Worker, op: Op)
    requires Good(w) && Located(w) && !op.OpDeliver?
    ensures Located(Next(w, Other(op)))
  {
    hide Standing, Waits, Step, Changes;
    var next := Next(w, Other(op));
    forall i | (if w.sent.Some? then 1 else 0) <= i < |w.batch| ensures Standing(next, w.batch[i]) {
      assert Waits(w, w.batch[i]) && Standing(w, w.batch[i]);
      OtherKeepsStanding(w, op, w.batch[i]);
    }
  }

  lemma BeginKeepsLocated(w: Worker, limit: int, now: int)
    requires Good(w) && w.batch == []
    ensures Located(Next(w, Begin(limit, now)))
  {
    var next := Next(w, Begin(limit, now));
    assert Accounted(w.sys.db, w.sys.log);
    SnapshotIsBatched(w.sys, limit, now);
    SnapshotIsCurrent(w.sys.db, limit, now);
    forall i | 0 <= i < |next.batch| ensures Standing(next, next.batch[i]) {
      assert next.batch[i] in next.batch && Sendable(w.sys, next.batch[i]);
    }
  }

  lemma RecordKeepsStanding(w: Worker, now: int, other: Item)
    requires w.batch != [] && w.sent.Some? && Referential(w.sys.db) && Placed(w.sys.db, w.batch[0])
    requires Standing(w, other) && Written(w.sys.db, w.batch[0], w.sent.value, now).Some?
    ensures Standing(Next(w, Record(now)), other)
  {
    var item, e := w.batch[0], other.endpoint;
    if OutcomeOf(w.sent.value).Gone? {
      RemovalChanges(w.sys, if item.sub in w.sys.db.subs then {item.sub} else {}, e);
    }
  }

  lemma RecordKeepsLocated(w: Worker, now: int)
    requires Good(w) && Located(w) && w.batch != [] && w.sent.Some?
    ensures Located(Next(w, Record(now)))
  {
    hide Standing, Placed, Written;
    var next := Next(w, Record(now));
    if Written(w.sys.db, w.batch[0], w.sent.value, now).Some? {
      forall i | 0 <= i < |next.batch| ensures Standing(next, next.batch[i]) {
        assert next.batch[i] == w.batch[i + 1] && Standing(w, w.batch[i + 1]);
        RecordKeepsStanding(w, now, w.batch[i + 1]);
      }
    }
  }

  lemma NextKeepsLocated(w: Worker, move: Move)
    requires Good(w) && Located(w)
    ensures Located(Next(w, move))
  {
    hide Good, Standing;
    match move
    case Other(op) => if !op.OpDeliver? { OtherKeepsLocated(w, op); }
    case Begin(limit, now) => if w.batch == [] { BeginKeepsLocated(w, limit, now); }
    case SendNext(response) => SendKeepsLocated(w, response);
    case Record(now) => if w.batch != [] && w.sent.Some? { RecordKeepsLocated(w, now); }
  }

  lemma SendKeepsLocated(w: Worker, response: Response)
    requires Located(w)
    ensures Located(Next(w, SendNext(response)))
  {
    var next := Next(w, SendNext(response));
    forall i | (if next.sent.Some? then 1 else 0) <= i < |next.batch| ensures Standing(next, next.batch[i]) {
      assert Standing(w, w.batch[i]);
    }
  }

  lemma {:induction false} RunKeepsLocated(w: Worker, moves: seq<Move>)
    requires Good(w) && Located(w)
    ensures Located(RunMoves(w, moves))
    decreases |moves|
  {
    hide Good, Located;
    if moves != [] {
      NextKeepsGood(w, moves[0]);
      NextKeepsLocated(w, moves[0]);
      RunKeepsLocated(Next(w, moves[0]), moves[1..]);
    }
  }

  /** An item that still has to be sent goes to an account that holds its endpoint, by
      a grant older than the notification, exactly when the endpoint was neither
      granted nor removed since the snapshot, by another call or by a 404 or 410 of
      the round itself; and then the row it was taken from stands. */
  lemma SendIsAddressedUnlessChanged(moves: seq<Move>, i: nat)
    requires var w := RunMoves(IDLE, moves); (if w.sent.Some? then 1 else 0) <= i < |w.batch|
    ensures var w := RunMoves(IDLE, moves);
      var item := w.batch[i];
      && (Addressed(w.sys, item) <==> item.endpoint !in w.changed)
      && (item.endpoint !in w.changed ==>
            && item.sub in w.sys.db.subs
            && w.sys.db.subs[item.sub].user == item.user && w.sys.db.subs[item.sub].endpoint == item.endpoint)
  {
    IdleIsGood();
    RunKeepsGood(IDLE, moves);
    RunKeepsLocated(IDLE, moves);
    var w := RunMoves(IDLE, moves);
    assert Waits(w, w.batch[i]) && Standing(w, w.batch[i]);
  }

  // ---- Queued until three passing answers -----------------------------------

  /** The delivery row of a linked pair is exact, but for a send in flight. */
  ghost predicate TellsSoFar(w: Worker, note: nat, sub: nat)
    requires sub in w.sys.db.subs
  {
    var db, log, e := w.sys.db, w.sys.log, w.sys.db.subs[sub].endpoint;
    if InFlight(w, note, e)
    then Attempts(db, note, sub) + 1 == Sends(log, note, e)
      && ((note, sub) in db.deliveries ==> db.deliveries[(note, sub)].delivered.None?)
      && Stops(log, note, e) == (if Passing(w.sent.value) then 0 else 1)
    else Tells(db, log, note, sub)
  }

  ghost predicate ExactSoFar(w: Worker) {
    && (forall n: nat, s: nat | Linked(w.sys.db, n, s) :: TellsSoFar(w, n, s))
    && (forall i | (if w.sent.Some? then 1 else 0) <= i < |w.batch| ::
          Stops(w.sys.log, w.batch[i].note, w.batch[i].endpoint) == 0)
  }

  lemma OtherKeepsTold(w: Worker, op: Op, n: nat, s: nat)
    requires Referential(w.sys.db) && Counted(w.sys.log, w.sys.db.nextNote) && SentHead(w) && !op.OpDeliver?
    requires Linked(w.sys.db, n, s) ==> TellsSoFar(w, n, s)
    requires Linked(Next(w, Other(op)).sys.db, n, s)
    ensures TellsSoFar(Next(w, Other(op)), n, s)
  {
    var next := Next(w, Other(op));
    OtherStepLinksNothing(w.sys, op);
    StepIgnoresLog(w.sys, op);
    var e := next.sys.db.subs[s].endpoint;
    if n >= w.sys.db.nextNote {
      NothingSent(w.sys.log, n, e);
    }
    hide Step, Changes, Sends, Successes, Stops, Referential;
  }

  lemma OtherKeepsExact(w: Worker, op: Op)
    requires Good(w) && ExactSoFar(w) && !op.OpDeliver?
    ensures ExactSoFar(Next(w, Other(op)))
  {
    StepIgnoresLog(w.sys, op);
    hide TellsSoFar, Step, Changes, Referential, Capped, Watermarked, Covered, Waiting, Orderly, Distinct, Stops;
    var next := Next(w, Other(op));
    forall n: nat, s: nat | Linked(next.sys.db, n, s) ensures TellsSoFar(next, n, s) {
      OtherKeepsTold(w, op, n, s);
    }
  }

  lemma BeginKeepsExact(w: Worker, limit: int, now: int)
    requires Good(w) && ExactSoFar(w) && w.batch == []
    ensures ExactSoFar(Next(w, Begin(limit, now)))
  {
    var next := Next(w, Begin(limit, now));
    SnapshotIsCurrent(w.sys.db, limit, now);
    forall n: nat, s: nat | Linked(next.sys.db, n, s) ensures TellsSoFar(next, n, s) {
      assert TellsSoFar(w, n, s);
    }
    forall i | 0 <= i < |next.batch| ensures Stops(next.sys.log, next.batch[i].note, next.batch[i].endpoint) == 0 {
      var item := next.batch[i];
      assert item in next.batch && Open(w.sys.db, item.note, item.sub);
      assert TellsSoFar(w, item.note, item.sub);
    }
  }

  lemma SendKeepsTold(w: Worker, response: Response, n: nat, s: nat)
    requires w.batch != [] && w.sent.None? && Waits(w, w.batch[0])
    requires Stops(w.sys.log, w.batch[0].note, w.batch[0].endpoint) == 0
    requires Linked(w.sys.db, n, s) && TellsSoFar(w, n, s)
    ensures TellsSoFar(Next(w, SendNext(response)), n, s)
  {
    var next := Next(w, SendNext(response));
    var send := next.sys.log[|w.sys.log|];
    assert next.sys.log == w.sys.log + [send] && send.answer == response;
    OneMoreSend(w.sys.log, send, n, w.sys.db.subs[s].endpoint);
    OneMoreStop(w.sys.log, send, n, w.sys.db.subs[s].endpoint);
    hide Sends, Stops, Successes, Attempts, Passing;
  }

  lemma SendKeepsExact(w: Worker, response: Response)
    requires Good(w) && ExactSoFar(w) && w.batch != [] && w.sent.None?
    ensures ExactSoFar(Next(w, SendNext(response)))
  {
    var next := Next(w, SendNext(response));
    var send := next.sys.log[|w.sys.log|];
    assert Waits(w, w.batch[0]) && next.sys.log == w.sys.log + [send];
    hide TellsSoFar, Waits, Stops, Referential, Capped, Watermarked, Covered, Orderly, Counted;
    forall n: nat, s: nat | Linked(next.sys.db, n, s) ensures TellsSoFar(next, n, s) {
      SendKeepsTold(w, response, n, s);
    }
    forall i | 1 <= i < |w.batch| ensures Stops(next.sys.log, w.batch[i].note, w.batch[i].endpoint) == 0 {
      OneMoreStop(w.sys.log, send, w.batch[i].note, w.batch[i].endpoint);
    }
  }

  lemma RecordKeepsTold(w: Worker, now: int, n: nat, s: nat)
    requires Referential(w.sys.db) && w.batch != [] && w.sent.Some? && Placed(w.sys.db, w.batch[0])
    requires Linked(Next(w, Record(now)).sys.db, n, s)
    requires Linked(w.sys.db, n, s) ==> TellsSoFar(w, n, s)
    ensures TellsSoFar(Next(w, Record(now)), n, s)
  {
    var next := Next(w, Record(now));
    var item := w.batch[0];
    assert Linked(w.sys.db, n, s) && next.sys.db.subs[s] == w.sys.db.subs[s];
    hide Sends, Stops;
    if InFlight(w, n, w.sys.db.subs[s].endpoint) {
      assert s == item.sub;
    }
  }

  lemma RecordKeepsExact(w: Worker, now: int)
    requires Good(w) && ExactSoFar(w) && w.batch != [] && w.sent.Some?
    ensures ExactSoFar(Next(w, Record(now)))
  {
    var next := Next(w, Record(now));
    hide TellsSoFar, Placed, Stops, Referential, Capped, Watermarked, Covered, Orderly, Counted, Waiting;
    forall n: nat, s: nat | Linked(next.sys.db, n, s) ensures TellsSoFar(next, n, s) {
      RecordKeepsTold(w, now, n, s);
    }
    forall i | 0 <= i < |next.batch| ensures Stops(next.sys.log, next.batch[i].note, next.batch[i].endpoint) == 0 {
      assert next.batch[i] == w.batch[i + 1];
    }
  }

  lemma NextKeepsExact(w: Worker, move: Move)
    requires Good(w) && ExactSoFar(w)
    ensures ExactSoFar(Next(w, move))
  {
    hide Good, ExactSoFar;
    match move
    case Other(op) => if !op.OpDeliver? { OtherKeepsExact(w, op); }
    case Begin(limit, now) => if w.batch == [] { BeginKeepsExact(w, limit, now); }
    case SendNext(response) => if w.batch != [] && w.sent.None? { SendKeepsExact(w, response); }
    case Record(now) => if w.batch != [] && w.sent.Some? { RecordKeepsExact(w, now); }
  }

  lemma {:induction false} RunKeepsExactSoFar(w: Worker, moves: seq<Move>)
    requires Good(w) && ExactSoFar(w)
    ensures ExactSoFar(RunMoves(w, moves))
    decreases |moves|
  {
    hide Good, ExactSoFar;
    if moves != [] {
      NextKeepsGood(w, moves[0]);
      NextKeepsExact(w, moves[0]);
      RunKeepsExactSoFar(Next(w, moves[0]), moves[1..]);
    }
  }

  lemma IdleIsExact()
    ensures ExactSoFar(IDLE)
  {
  }

  /** Over every interleaving: a pair whose notification and row stand and whose send is
      not in flight is queued if and only if its account is active and holds the
      endpoint by a grant not newer than the notification, all answers so far were
      passing ones, and there were fewer than three. */
  lemma InterleavedUntilThreePass(moves: seq<Move>, note: nat, sub: nat)
    requires var w := RunMoves(IDLE, moves);
      && note in w.sys.db.notes && sub in w.sys.db.subs
      && !InFlight(w, note, w.sys.db.subs[sub].endpoint)
    ensures var sys := RunMoves(IDLE, moves).sys;
      var row, user := sys.db.subs[sub], sys.db.notes[note];
      && row.endpoint in sys.granted
      && (Pending(sys.db, note, sub) <==>
            && user in sys.db.users && sys.db.users[user]
            && row.user == user && sys.granted[row.endpoint].1 <= note
            && (forall i | 0 <= i < |sys.log| && Concerns(sys.log[i], note, row.endpoint) :: Passing(sys.log[i].answer))
            && Sends(sys.log, note, row.endpoint) < 3)
  {
    hide Referential, Capped, Watermarked, Counted, Orderly, Covered, Waiting, Tells;
    IdleIsGood();
    IdleIsExact();
    RunKeepsGood(IDLE, moves);
    RunKeepsExactSoFar(IDLE, moves);
    var sys := RunMoves(IDLE, moves).sys;
    ExactMeans(sys, note, sub);
    StopsAreAnswers(sys.log, note, sys.db.subs[sub].endpoint);
  }

  // ---- Transfers and removals inside a round --------------------------------

  /** Two accounts; the first holds an endpoint and has a notification for it. */
  const NOTIFIED := System(
    Db(map[1 := true, 2 := true], 3, map[1 := 1], 2, map[1 := Subscription(1, "e", 0)], 2, map[]),
    map["e" := (1, 1)],
    [])

  lemma NotifiedIsReached()
    ensures Step(Step(Step(Step(START, OpAddUser), OpAddUser), OpSubscribe(1, "e")), OpNotify(1)) == NOTIFIED
  {
    var users := Step(Step(START, OpAddUser), OpAddUser);
    assert users.db.users == map[1 := true, 2 := true];
    assert SubsOf(users.db, 1) == {};
    assert LastNote(users.db, 1, 1) == 0;
    var subscribed := Step(users, OpSubscribe(1, "e"));
    assert subscribed.db.subs == map[1 := Subscription(1, "e", 0)];
  }

  lemma NotifiedHasOneItem()
    ensures Batch(NOTIFIED.db, 100, 0) == [Item(1, 1, "e", 1)]
  {
    var db := NOTIFIED.db;
    assert PendingSubs(db, 0, 2) == [] && PendingSubs(db, 0, 1) == [] && PendingSubs(db, 0, 0) == [];
    assert PendingSubs(db, 1, 2) == [] && PendingSubs(db, 1, 1) == [(1, 1)] && PendingSubs(db, 1, 0) == [(1, 1)];
    assert PendingFrom(db, 2) == [] && PendingFrom(db, 1) == [(1, 1)] && PendingFrom(db, 0) == [(1, 1)];
    assert Limited(db, 100) == [(1, 1)];
  }

  lemma {:induction false} RunMovesAppends(w: Worker, moves: seq<Move>, last: Move)
    ensures RunMoves(w, moves + [last]) == Next(RunMoves(w, moves), last)
    decreases |moves|
  {
    if moves == [] {
      assert moves + [last] == [last] && [last][1..] == [];
    } else {
      RunMovesAppends(Next(w, moves[0]), moves[1..], last);
      assert (moves + [last])[1..] == moves[1..] + [last];
    }
  }

  lemma ArrivesAtNotified()
    ensures var arrived := [Other(OpAddUser), Other(OpAddUser), Other(OpSubscribe(1, "e")), Other(OpNotify(1))];
      var w := RunMoves(IDLE, arrived);
      w.sys == NOTIFIED && w.batch == [] && w.sent.None?
  {
    hide Step, Changes;
    NotifiedIsReached();
    var one, two, three := Step(START, OpAddUser), Step(Step(START, OpAddUser), OpAddUser),
      Step(Step(Step(START, OpAddUser), OpAddUser), OpSubscribe(1, "e"));
    RunMovesAppends(IDLE, [], Other(OpAddUser));
    RunMovesAppends(IDLE, [Other(OpAddUser)], Other(OpAddUser));
    RunMovesAppends(IDLE, [Other(OpAddUser), Other(OpAddUser)], Other(OpSubscribe(1, "e")));
    RunMovesAppends(IDLE, [Other(OpAddUser), Other(OpAddUser), Other(OpSubscribe(1, "e"))], Other(OpNotify(1)));
    assert [] + [Other(OpAddUser)] == [Other(OpAddUser)];
    assert [Other(OpAddUser)] + [Other(OpAddUser)] == [Other(OpAddUser), Other(OpAddUser)];
  }

  /** The snapshot does not see a transfer: the item of the old account is still sent
      to an endpoint that the second account was granted in between. */
  lemma TransferInsideRound() returns (moves: seq<Move>)
    ensures moves == [Other(OpAddUser), Other(OpAddUser), Other(OpSubscribe(1, "e")), Other(OpNotify(1))]
      + [Begin(100, 0)] + [Other(OpSubscribe(2, "e"))] + [SendNext(Accepted)]
    ensures RunMoves(IDLE, moves).sys.log == [Send(1, "e", 1, (2, 2), Accepted)]
  {
    var arrived := [Other(OpAddUser), Other(OpAddUser), Other(OpSubscribe(1, "e")), Other(OpNotify(1))];
    ArrivesAtNotified();
    NotifiedHasOneItem();
    moves := arrived + [Begin(100, 0)] + [Other(OpSubscribe(2, "e"))] + [SendNext(Accepted)];
    RunMovesAppends(IDLE, arrived, Begin(100, 0));
    RunMovesAppends(IDLE, arrived + [Begin(100, 0)], Other(OpSubscribe(2, "e")));
    RunMovesAppends(IDLE, arrived + [Begin(100, 0)] + [Other(OpSubscribe(2, "e"))], SendNext(Accepted));
    TransferGrants();
  }

  lemma TransferGrants()
    ensures Step(NOTIFIED, OpSubscribe(2, "e")).granted == map["e" := (2, 2)]
    ensures Step(NOTIFIED, OpSubscribe(2, "e")).log == []
  {
    assert SubsOf(NOTIFIED.db, 2) == {};
    assert Holder(NOTIFIED.db, "e", 2) == Some(1);
  }

  /** Nor does it see a removal: the item is still sent although no account holds the
      endpoint any more. */
  lemma RemovalInsideRound() returns (moves: seq<Move>)
    ensures moves == [Other(OpAddUser), Other(OpAddUser), Other(OpSubscribe(1, "e")), Other(OpNotify(1))]
      + [Begin(100, 0)] + [Other(OpUnsubscribe(1, "e"))] + [SendNext(Accepted)]
    ensures var sys := RunMoves(IDLE, moves).sys;
      sys.log == [Send(1, "e", 1, (1, 1), Accepted)] && sys.db.subs == map[]
  {
    var arrived := [Other(OpAddUser), Other(OpAddUser), Other(OpSubscribe(1, "e")), Other(OpNotify(1))];
    ArrivesAtNotified();
    NotifiedHasOneItem();
    moves := arrived + [Begin(100, 0)] + [Other(OpUnsubscribe(1, "e"))] + [SendNext(Accepted)];
    RunMovesAppends(IDLE, arrived, Begin(100, 0));
    RunMovesAppends(IDLE, arrived + [Begin(100, 0)], Other(OpUnsubscribe(1, "e")));
    RunMovesAppends(IDLE, arrived + [Begin(100, 0)] + [Other(OpUnsubscribe(1, "e"))], SendNext(Accepted));
    UnsubscribeRemoves();
  }

  lemma UnsubscribeRemoves()
    ensures var next := Step(NOTIFIED, OpUnsubscribe(1, "e"));
      next.db.subs == map[] && next.granted == map["e" := (1, 1)] && next.log == []
  {
    assert NOTIFIED.db.subs[1] == Subscription(1, "e", 0);
  }

  /** One more notification for the same endpoint. */
  const NOTIFIED_TWICE := NOTIFIED.(db := NOTIFIED.db.(notes := map[1 := 1, 2 := 1], nextNote := 3))

  lemma TwiceHasTwoItems()
    ensures Batch(NOTIFIED_TWICE.db, 100, 0) == [Item(1, 1, "e", 1), Item(2, 1, "e", 1)]
  {
    var db := NOTIFIED_TWICE.db;
    assert PendingSubs(db, 0, 2) == [] && PendingSubs(db, 0, 1) == [] && PendingSubs(db, 0, 0) == [];
    assert PendingSubs(db, 1, 2) == [] && PendingSubs(db, 1, 1) == [(1, 1)] && PendingSubs(db, 1, 0) == [(1, 1)];
    assert PendingSubs(db, 2, 2) == [] && PendingSubs(db, 2, 1) == [(2, 1)] && PendingSubs(db, 2, 0) == [(2, 1)];
    assert PendingFrom(db, 3) == [] && PendingFrom(db, 2) == [(2, 1)];
    assert PendingFrom(db, 1) == [(1, 1), (2, 1)] && PendingFrom(db, 0) == [(1, 1), (2, 1)];
    assert Limited(db, 100) == [(1, 1), (2, 1)];
  }

  lemma NotifiedTwiceIsReached()
    ensures Step(NOTIFIED, OpNotify(1)) == NOTIFIED_TWICE
  {
    assert map[1 := 1][2 := 1] == map[1 := 1, 2 := 1];
  }

  lemma DropRemoves()
    ensures WithoutSubs(NOTIFIED_TWICE.db, {1}).subs == map[]
  {
  }

  lemma TwiceBegins() returns (moves: seq<Move>, w: Worker)
    ensures moves == [Other(OpAddUser), Other(OpAddUser), Other(OpSubscribe(1, "e")), Other(OpNotify(1))]
      + [Other(OpNotify(1))] + [Begin(100, 0)]
    ensures w == RunMoves(IDLE, moves) && w.sys == NOTIFIED_TWICE && w.sent.None?
    ensures w.batch == [Item(1, 1, "e", 1), Item(2, 1, "e", 1)]
  {
    var arrived := [Other(OpAddUser), Other(OpAddUser), Other(OpSubscribe(1, "e")), Other(OpNotify(1))];
    ArrivesAtNotified();
    NotifiedTwiceIsReached();
    TwiceHasTwoItems();
    hide Step, Changes, Batch, RunMoves;
    RunMovesAppends(IDLE, arrived, Other(OpNotify(1)));
    RunMovesAppends(IDLE, arrived + [Other(OpNotify(1))], Begin(100, 0));
    moves := arrived + [Other(OpNotify(1))] + [Begin(100, 0)];
    w := RunMoves(IDLE, moves);
  }

  lemma SecondItemAfterDrop(w: Worker)
    requires w.sys == NOTIFIED_TWICE && w.batch == [Item(1, 1, "e", 1), Item(2, 1, "e", 1)] && w.sent.None?
    ensures var end := Next(Next(Next(w, SendNext(PushError(Some(410)))), Record(0)), SendNext(Accepted));
      && end.sys.log == [Send(1, "e", 1, (1, 1), PushError(Some(410))), Send(2, "e", 1, (1, 1), Accepted)]
      && end.sys.db.subs == map[]
  {
    DropRemoves();
    var sent := Next(w, SendNext(PushError(Some(410))));
    assert sent.sys.log == [Send(1, "e", 1, (1, 1), PushError(Some(410)))];
    var dropped := Next(sent, Record(0));
    assert dropped.sys.db == WithoutSubs(NOTIFIED_TWICE.db, {1});
    assert dropped.batch == [Item(2, 1, "e", 1)] && dropped.sys.granted == map["e" := (1, 1)];
  }

  /** The round itself removes a subscription: after a 410 the second item of the same
      row is still sent, without any interruption, to an endpoint that nobody holds. */
  lemma DropInsideRound() returns (moves: seq<Move>)
    ensures moves == [Other(OpAddUser), Other(OpAddUser), Other(OpSubscribe(1, "e")), Other(OpNotify(1))]
      + [Other(OpNotify(1))] + [Begin(100, 0)] + [SendNext(PushError(Some(410)))] + [Record(0)] + [SendNext(Accepted)]
    ensures var sys := RunMoves(IDLE, moves).sys;
      && sys.log == [Send(1, "e", 1, (1, 1), PushError(Some(410))), Send(2, "e", 1, (1, 1), Accepted)]
      && sys.db.subs == map[]
  {
    var begun, w := TwiceBegins();
    var gone, record, last := SendNext(PushError(Some(410))), Record(0), SendNext(Accepted);
    SecondItemAfterDrop(w);
    hide Next;
    RunMovesAppends(IDLE, begun, gone);
    RunMovesAppends(IDLE, begun + [gone], record);
    RunMovesAppends(IDLE, begun + [gone] + [record], last);
    moves := begun + [gone] + [record] + [last];
  }
}
