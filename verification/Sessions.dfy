/**
 Public sessions of request_app/security.py. A raw token is random, so it is a
 number never handed out before; `idle` is the configured idle limit in seconds.
 */
module Sessions {
  import opened Wrappers

  const GRANULARITY := 60

  datatype Session = Session(user: nat, expires: int, lastSeen: int)

  datatype State = State(table: map<nat, Session>, next: nat, active: set<nat>)

  datatype Op =
    | OpCreate(user: nat, lifetime: nat, now: int)
    | OpLookup(token: nat, now: int)
    | OpLogout(token: nat, now: int)
    | OpSetActive(user: nat, active: bool, now: int)
    | OpPrune(now: int)

  predicate Expired(session: Session, now: int) {
    session.expires <= now
  }

  predicate Idle(session: Session, idle: nat, now: int) {
    session.lastSeen + idle <= now
  }

  function Touched(session: Session, now: int): (s: Session) {
    if session.lastSeen + GRANULARITY <= now then session.(lastSeen := now) else session
  }

  /** The lookup finds a row: unexpired, of an active user. */
  predicate Found(s: State, token: nat, now: int) {
    token in s.table && !Expired(s.table[token], now) && s.table[token].user in s.active
  }

  function Pruned(table: map<nat, Session>, idle: nat, now: int): (t: map<nat, Session>) {
    map token | token in table && !Expired(table[token], now) && !Idle(table[token], idle, now) :: table[token]
  }

  function After(s: State, idle: nat, op: Op): (t: State) {
    match op
    case OpCreate(user, lifetime, now) =>
      s.(table := s.table[s.next := Session(user, now + lifetime, now)], next := s.next + 1)
    case OpLookup(token, now) =>
      if !Found(s, token, now) then s
      else if Idle(s.table[token], idle, now) then s.(table := s.table - {token})
      else s.(table := s.table[token := Touched(s.table[token], now)])
    case OpLogout(token, now) => s.(table := s.table - {token})
    case OpSetActive(user, active, now) =>
      if active then s.(active := s.active + {user})
      else State(map t | t in s.table && s.table[t].user != user :: s.table[t], s.next, s.active - {user})
    case OpPrune(now) => s.(table := Pruned(s.table, idle, now))
  }

  /** The user a lookup returns. */
  function Answer(s: State, idle: nat, op: Op): (user: Option<nat>) {
    if op.OpLookup? && Found(s, op.token, op.now) && !Idle(s.table[op.token], idle, op.now)
    then Some(s.table[op.token].user) else None
  }

  predicate Ordered(from: int, ops: seq<Op>)
    decreases |ops|
  {
    ops == [] || (from <= ops[0].now && Ordered(ops[0].now, ops[1..]))
  }

  ghost predicate Valid(s: State, now: int) {
    forall token | token in s.table :: token < s.next && s.table[token].lastSeen <= now
  }

  /** A lookup answers the active user of an unexpired session that was seen less than
      `idle` seconds ago; it notes the time when the last note is a minute old, and
      drops a session that was idle. */
  ghost predicate LookedUp(
    before: map<nat, Session>, after: map<nat, Session>, active: set<nat>, idle: nat, token: nat, now: int,
    user: Option<nat>)
  {
    if token !in before || now >= before[token].expires || before[token].user !in active
    then user == None && after == before
    else
      var row := before[token];
      if now - row.lastSeen >= idle then user == None && after == before - {token}
      else
        && user == Some(row.user)
        && after == (if now - row.lastSeen >= 60 then before[token := Session(row.user, row.expires, now)] else before)
  }

  class SessionStore {
    const idle: nat
    var table: map<nat, Session>
    var next: nat
    var active: set<nat>

    constructor (idle: nat)
      ensures this.idle == idle && Contents() == State(map[], 0, {})
    {
      this.idle := idle;
      table, next, active := map[], 0, {};
    }

    ghost function Contents(): (s: State)
      reads this
    {
      State(table, next, active)
    }

    method CreateSession(user: nat, days: nat, now: int) returns (token: nat, expires: int)
      modifies this
      ensures token == old(next) && expires == now + days * 86400
      ensures Contents() == After(old(Contents()), idle, OpCreate(user, days * 86400, now))
      ensures table == old(table)[token := Session(user, now + days * 86400, now)] && next == token + 1
    {
      token, expires := next, now + days * 86400;
      table := table[token := Session(user, expires, now)];
      next := next + 1;
    }

    method GetSessionUser(token: nat, now: int) returns (user: Option<nat>)
      modifies this
      ensures Contents() == After(old(Contents()), idle, OpLookup(token, now))
      ensures user == Answer(old(Contents()), idle, OpLookup(token, now))
      ensures LookedUp(old(table), table, old(active), idle, token, now, user)
      ensures next == old(next) && active == old(active)
    {
      if token !in table || table[token].expires <= now || table[token].user !in active {
        return None;
      }
      var row := table[token];
      if row.lastSeen + idle <= now {
        table := table - {token};
        return None;
      }
      if row.lastSeen + GRANULARITY <= now {
        table := table[token := row.(lastSeen := now)];
      }
      user := Some(row.user);
      assert table == old(table)[token := Touched(row, now)];
    }

    method PruneExpiredSessions(now: int)
      modifies this
      ensures Contents() == After(old(Contents()), idle, OpPrune(now))
      ensures forall token :: token in table <==>
        && token in old(table)
        && now < old(table)[token].expires
        && now < old(table)[token].lastSeen + idle
      ensures forall token | token in table :: table[token] == old(table)[token]
    {
      table := map token | token in table && !(table[token].expires <= now) :: table[token];
      var cutoff := now - idle;
      table := map token | token in table && !(table[token].lastSeen <= cutoff) :: table[token];
      assert table == Pruned(old(table), idle, now);
    }
  }

  // ---- Pruning is invisible -------------------------------------------------

  /** The session a later lookup can still find. */
  function LiveAt(s: State, idle: nat, token: nat, now: int): (session: Option<Session>) {
    if token in s.table && !Expired(s.table[token], now) && !Idle(s.table[token], idle, now)
    then Some(s.table[token]) else None
  }

  ghost predicate Same(a: State, b: State, idle: nat, now: int) {
    && a.next == b.next
    && a.active == b.active
    && forall token :: LiveAt(a, idle, token, now) == LiveAt(b, idle, token, now)
  }

  function Answers(s: State, idle: nat, ops: seq<Op>): (answers: seq<Option<nat>>)
    decreases |ops|
  {
    if ops == [] then []
    else if ops[0].OpPrune? then Answers(After(s, idle, ops[0]), idle, ops[1..])
    else [Answer(s, idle, ops[0])] + Answers(After(s, idle, ops[0]), idle, ops[1..])
  }

  function WithoutPrunes(ops: seq<Op>): (rest: seq<Op>) {
    if ops == [] then []
    else if ops[0].OpPrune? then WithoutPrunes(ops[1..])
    else [ops[0]] + WithoutPrunes(ops[1..])
  }

  lemma SameAges(a: State, b: State, idle: nat, was: int, now: int)
    requires Same(a, b, idle, was) && was <= now
    ensures Same(a, b, idle, now)
  {
    forall token ensures LiveAt(a, idle, token, now) == LiveAt(b, idle, token, now) {
      assert LiveAt(a, idle, token, was) == LiveAt(b, idle, token, was);
    }
  }

  lemma StepIsSame(a: State, b: State, idle: nat, op: Op)
    requires Same(a, b, idle, op.now) && !op.OpPrune?
    ensures Answer(a, idle, op) == Answer(b, idle, op)
    ensures Same(After(a, idle, op), After(b, idle, op), idle, op.now)
  {
    var x, y := After(a, idle, op), After(b, idle, op);
    if op.OpLookup? {
      assert LiveAt(a, idle, op.token, op.now) == LiveAt(b, idle, op.token, op.now);
    }
    forall token ensures LiveAt(x, idle, token, op.now) == LiveAt(y, idle, token, op.now) {
      assert LiveAt(a, idle, token, op.now) == LiveAt(b, idle, token, op.now);
    }
  }

  lemma PruneIsSame(s: State, idle: nat, now: int)
    ensures Same(After(s, idle, OpPrune(now)), s, idle, now)
  {
  }

  lemma {:induction false} SameStatesAnswerAlike(a: State, b: State, idle: nat, was: int, ops: seq<Op>)
    requires Same(a, b, idle, was) && Ordered(was, ops)
    ensures Answers(a, idle, ops) == Answers(b, idle, WithoutPrunes(ops))
    decreases |ops|
  {
    if ops != [] {
      var op := ops[0];
      SameAges(a, b, idle, was, op.now);
      if op.OpPrune? {
        PruneIsSame(a, idle, op.now);
        SameStatesAnswerAlike(After(a, idle, op), b, idle, op.now, ops[1..]);
      } else {
        StepIsSame(a, b, idle, op);
        SameStatesAnswerAlike(After(a, idle, op), After(b, idle, op), idle, op.now, ops[1..]);
        assert WithoutPrunes(ops)[1..] == WithoutPrunes(ops[1..]);
      }
    }
  }

  /** Pruning deletes only sessions every later lookup would refuse. */
  lemma PruningIsInvisible(s: State, idle: nat, from: int, ops: seq<Op>)
    requires Ordered(from, ops)
    ensures Answers(s, idle, ops) == Answers(s, idle, WithoutPrunes(ops))
  {
    SameStatesAnswerAlike(s, s, idle, from, ops);
  }

  // ---- The idle limit, despite the 60 second granularity --------------------

  function Run(s: State, idle: nat, ops: seq<Op>): (t: State)
    decreases |ops|
  {
    if ops == [] then s else Run(After(s, idle, ops[0]), idle, ops[1..])
  }

  predicate Uses(op: Op, token: nat) {
    op.OpLookup? && op.token == token
  }

  /** No call ends the session: no logout of it, no deactivation of its user. */
  predicate Spares(op: Op, token: nat, user: nat) {
    && !(op.OpLogout? && op.token == token)
    && !(op.OpSetActive? && op.user == user && !op.active)
  }

  /** Each lookup of `token` comes at most `gap` after the one before it. */
  predicate Steady(ops: seq<Op>, token: nat, user: nat, last: int, gap: int)
    decreases |ops|
  {
    ops != [] ==>
      && Spares(ops[0], token, user)
      && (Uses(ops[0], token) ==> ops[0].now <= last + gap)
      && Steady(ops[1..], token, user, if Uses(ops[0], token) then ops[0].now else last, gap)
  }

  /** Every lookup of `token` in the run answers `user` until `expires` and nobody after. */
  predicate AnswersUntil(s: State, idle: nat, ops: seq<Op>, token: nat, user: nat, expires: int)
    decreases |ops|
  {
    ops != [] ==>
      && (Uses(ops[0], token) ==> Answer(s, idle, ops[0]) == if ops[0].now < expires then Some(user) else None)
      && AnswersUntil(After(s, idle, ops[0]), idle, ops[1..], token, user, expires)
  }

  /** The session is present, or nobody will ask for it before it counts as gone. */
  ghost predicate Kept(s: State, idle: nat, token: nat, user: nat, expires: int, last: int, now: int) {
    && token < s.next
    && (token in s.table ==> s.table[token].user == user && s.table[token].expires == expires)
    && (now < expires && now <= last + idle - 60 ==>
      token in s.table && user in s.active && last - 60 < s.table[token].lastSeen <= last)
  }

  lemma StepKeeps(s: State, idle: nat, op: Op, token: nat, user: nat, expires: int, last: int)
    requires Kept(s, idle, token, user, expires, last, op.now) && last <= op.now
    requires Spares(op, token, user) && (Uses(op, token) ==> op.now <= last + idle - 60)
    ensures Uses(op, token) ==> Answer(s, idle, op) == if op.now < expires then Some(user) else None
    ensures Kept(After(s, idle, op), idle, token, user, expires, if Uses(op, token) then op.now else last, op.now)
  {
  }

  lemma {:induction false} SteadyUseIsAnswered(
    s: State, idle: nat, was: int, ops: seq<Op>, token: nat, user: nat, expires: int, last: int)
    requires Kept(s, idle, token, user, expires, last, was) && last <= was && Ordered(was, ops)
    requires Steady(ops, token, user, last, idle - 60)
    ensures AnswersUntil(s, idle, ops, token, user, expires)
    decreases |ops|
  {
    if ops != [] {
      StepKeeps(s, idle, ops[0], token, user, expires, last);
      SteadyUseIsAnswered(After(s, idle, ops[0]), idle, ops[0].now, ops[1..], token, user, expires,
        if Uses(ops[0], token) then ops[0].now else last);
    }
  }

  /** A new session looked up at least every idle - 60 seconds is answered until its
      absolute expiry, whatever else happens to other sessions, prunes included. */
  lemma SteadySessionsLive(s: State, idle: nat, user: nat, lifetime: nat, now: int, ops: seq<Op>)
    requires user in s.active && 60 <= idle && Ordered(now, ops)
    requires Steady(ops, s.next, user, now, idle - 60)
    ensures AnswersUntil(After(s, idle, OpCreate(user, lifetime, now)), idle, ops, s.next, user, now + lifetime)
  {
    var begun := After(s, idle, OpCreate(user, lifetime, now));
    SteadyUseIsAnswered(begun, idle, now, ops, s.next, user, now + lifetime, now);
  }

  lemma {:induction false} UnusedStaysOld(s: State, idle: nat, was: int, ops: seq<Op>, token: nat, last: int)
    requires Ordered(was, ops) && token < s.next
    requires token in s.table ==> s.table[token].lastSeen <= last
    requires forall i :: 0 <= i < |ops| ==> !Uses(ops[i], token)
    ensures var t := Run(s, idle, ops); token in t.table ==> t.table[token].lastSeen <= last
    decreases |ops|
  {
    if ops != [] {
      forall i | 0 <= i < |ops[1..]| ensures !Uses(ops[1..][i], token) {
        assert ops[1..][i] == ops[i + 1];
      }
      UnusedStaysOld(After(s, idle, ops[0]), idle, ops[0].now, ops[1..], token, last);
    }
  }

  /** A session left alone since the lookup at `last` is refused from last + idle on,
      whatever else happens in between. */
  lemma IdleSessionsAreRefused(s: State, idle: nat, last: int, ops: seq<Op>, token: nat, now: int)
    requires Valid(s, last) && token < s.next && Ordered(last, ops)
    requires forall i :: 0 <= i < |ops| ==> !Uses(ops[i], token)
    requires last + idle <= now
    ensures Answer(Run(After(s, idle, OpLookup(token, last)), idle, ops), idle, OpLookup(token, now)) == None
  {
    UnusedStaysOld(After(s, idle, OpLookup(token, last)), idle, last, ops, token, last);
  }
}
