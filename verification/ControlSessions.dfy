/**
 Sessions of the Control panel (request_app/control_store.py): bound to the
 address they were opened from, and ended by the first lookup from another one.
 Pruning applies the absolute expiry only.
 */
module ControlSessions {
  import opened Wrappers

  const GRANULARITY := 60

  datatype Session = Session(user: nat, ip: string, expires: int, lastSeen: int)

  datatype State = State(table: map<nat, Session>, next: nat)

  datatype Op =
    | OpCreate(user: nat, ip: string, lifetime: nat, now: int)
    | OpLookup(token: nat, ip: string, now: int)
    | OpLogout(token: nat, now: int)
    | OpPrune(now: int)

  function Touched(session: Session, now: int): (s: Session) {
    if session.lastSeen + GRANULARITY <= now then session.(lastSeen := now) else session
  }

  predicate Found(s: State, token: nat, now: int) {
    token in s.table && s.table[token].expires > now
  }

  /** The row is neither idle nor asked for from another address. */
  predicate Accepts(session: Session, idle: nat, ip: string, now: int) {
    session.lastSeen + idle > now && session.ip == ip
  }

  function After(s: State, idle: nat, op: Op): (t: State) {
    match op
    case OpCreate(user, ip, lifetime, now) =>
      State(s.table[s.next := Session(user, ip, now + lifetime, now)], s.next + 1)
    case OpLookup(token, ip, now) =>
      if !Found(s, token, now) then s
      else if Accepts(s.table[token], idle, ip, now)
      then s.(table := s.table[token := Touched(s.table[token], now)])
      else s.(table := s.table - {token})
    case OpLogout(token, now) => s.(table := s.table - {token})
    case OpPrune(now) => s.(table := map t | t in s.table && s.table[t].expires > now :: s.table[t])
  }

  function Answer(s: State, idle: nat, op: Op): (user: Option<nat>) {
    if op.OpLookup? && Found(s, op.token, op.now) && Accepts(s.table[op.token], idle, op.ip, op.now)
    then Some(s.table[op.token].user) else None
  }

  predicate Ordered(from: int, ops: seq<Op>)
    decreases |ops|
  {
    ops == [] || (from <= ops[0].now && Ordered(ops[0].now, ops[1..]))
  }

  /** An unexpired session is answered to its own address while it was seen less than
      `idle` seconds ago, noting the time once a minute; otherwise it is dropped. */
  ghost predicate LookedUp(
    before: map<nat, Session>, after: map<nat, Session>, idle: nat, token: nat, ip: string, now: int,
    user: Option<nat>)
  {
    if token !in before || now >= before[token].expires then user == None && after == before
    else
      var row := before[token];
      if now - row.lastSeen >= idle || ip != row.ip then user == None && after == before - {token}
      else
        && user == Some(row.user)
        && after ==
           (if now - row.lastSeen >= 60 then before[token := Session(row.user, row.ip, row.expires, now)] else before)
  }

  class ControlSessionStore {
    const idle: nat
    var table: map<nat, Session>
    var next: nat

    constructor (idle: nat)
      ensures this.idle == idle && Contents() == State(map[], 0)
    {
      this.idle := idle;
      table, next := map[], 0;
    }

    ghost function Contents(): (s: State)
      reads this
    {
      State(table, next)
    }

    method SessionUser(token: nat, ip: string, now: int) returns (user: Option<nat>)
      modifies this
      ensures Contents() == After(old(Contents()), idle, OpLookup(token, ip, now))
      ensures user == Answer(old(Contents()), idle, OpLookup(token, ip, now))
      ensures next == old(next) && LookedUp(old(table), table, idle, token, ip, now, user)
    {
      user := None;
      if token in table && table[token].expires > now {
        var row := table[token];
        if row.lastSeen + idle <= now || row.ip != ip {
          table := table - {token};
          return;
        }
        if row.lastSeen + GRANULARITY <= now {
          table := table[token := row.(lastSeen := now)];
        }
        user := Some(row.user);
        assert table == old(table)[token := Touched(row, now)];
      }
    }

    /** The session half of `prune`. */
    method PruneSessions(now: int)
      modifies this`table
      ensures Contents() == After(old(Contents()), idle, OpPrune(now))
      ensures forall t :: t in table <==> t in old(table) && now < old(table)[t].expires
      ensures forall t | t in table :: table[t] == old(table)[t]
    {
      table := map t | t in table && table[t].expires > now :: table[t];
    }
  }

  predicate Uses(op: Op, token: nat) {
    op.OpLookup? && op.token == token
  }

  /** The session is looked up from `ip` only, never logged out, and each lookup
      comes at most `gap` after the one before it. */
  predicate Steady(ops: seq<Op>, token: nat, ip: string, last: int, gap: int)
    decreases |ops|
  {
    ops != [] ==>
      && !(ops[0].OpLogout? && ops[0].token == token)
      && (Uses(ops[0], token) ==> ops[0].ip == ip && ops[0].now <= last + gap)
      && Steady(ops[1..], token, ip, if Uses(ops[0], token) then ops[0].now else last, gap)
  }

  predicate AnswersUntil(s: State, idle: nat, ops: seq<Op>, token: nat, user: nat, expires: int)
    decreases |ops|
  {
    ops != [] ==>
      && (Uses(ops[0], token) ==> Answer(s, idle, ops[0]) == if ops[0].now < expires then Some(user) else None)
      && AnswersUntil(After(s, idle, ops[0]), idle, ops[1..], token, user, expires)
  }

  ghost predicate Kept(s: State, token: nat, session: Session, last: int, now: int) {
    && token < s.next
    && (token in s.table ==> s.table[token].expires == session.expires)
    && (now < session.expires ==>
      && token in s.table
      && s.table[token].user == session.user
      && s.table[token].ip == session.ip
      && last - 60 < s.table[token].lastSeen <= last)
  }

  lemma {:induction false} SteadyUseIsAnswered(
    s: State, idle: nat, was: int, ops: seq<Op>, token: nat, session: Session, last: int)
    requires Kept(s, token, session, last, was) && last <= was && Ordered(was, ops)
    requires Steady(ops, token, session.ip, last, idle - 60)
    ensures AnswersUntil(s, idle, ops, token, session.user, session.expires)
    decreases |ops|
  {
    if ops != [] {
      var seen := if Uses(ops[0], token) then ops[0].now else last;
      assert Kept(After(s, idle, ops[0]), token, session, seen, ops[0].now);
      SteadyUseIsAnswered(After(s, idle, ops[0]), idle, ops[0].now, ops[1..], token, session, seen);
    }
  }

  /** A session used from its own address at least every idle - 60 seconds is
      answered until its absolute expiry. */
  lemma SteadySessionsLive(s: State, idle: nat, user: nat, ip: string, lifetime: nat, now: int, ops: seq<Op>)
    requires Ordered(now, ops) && Steady(ops, s.next, ip, now, idle - 60)
    ensures AnswersUntil(After(s, idle, OpCreate(user, ip, lifetime, now)), idle, ops, s.next, user, now + lifetime)
  {
    SteadyUseIsAnswered(After(s, idle, OpCreate(user, ip, lifetime, now)), idle, now, ops, s.next,
      Session(user, ip, now + lifetime, now), now);
  }

  function Run(s: State, idle: nat, ops: seq<Op>): (t: State)
    decreases |ops|
  {
    if ops == [] then s else Run(After(s, idle, ops[0]), idle, ops[1..])
  }

  /** A token that was handed out and has no row never gets one again. */
  lemma {:induction false} GoneStaysGone(s: State, idle: nat, ops: seq<Op>, token: nat)
    requires token < s.next && token !in s.table
    ensures token < Run(s, idle, ops).next && token !in Run(s, idle, ops).table
    decreases |ops|
  {
    if ops != [] {
      GoneStaysGone(After(s, idle, ops[0]), idle, ops[1..], token);
    }
  }

  /** One lookup from another address ends the session for good. */
  lemma ForeignLookupEndsSession(s: State, idle: nat, token: nat, ip: string, now: int, ops: seq<Op>, later: Op)
    requires token < s.next && Found(s, token, now) && s.table[token].ip != ip && Uses(later, token)
    ensures Answer(s, idle, OpLookup(token, ip, now)) == None
    ensures Answer(Run(After(s, idle, OpLookup(token, ip, now)), idle, ops), idle, later) == None
  {
    GoneStaysGone(After(s, idle, OpLookup(token, ip, now)), idle, ops, token);
  }

  lemma {:induction false} UnusedStaysOld(s: State, idle: nat, ops: seq<Op>, token: nat, last: int)
    requires token < s.next && (token in s.table ==> s.table[token].lastSeen <= last)
    requires forall i :: 0 <= i < |ops| ==> !Uses(ops[i], token)
    ensures var t := Run(s, idle, ops); token in t.table ==> t.table[token].lastSeen <= last
    decreases |ops|
  {
    if ops != [] {
      forall i | 0 <= i < |ops[1..]| ensures !Uses(ops[1..][i], token) {
        assert ops[1..][i] == ops[i + 1];
      }
      UnusedStaysOld(After(s, idle, ops[0]), idle, ops[1..], token, last);
    }
  }

  /** A session left alone since `last` is refused from last + idle on, from any address. */
  lemma IdleSessionsAreRefused(s: State, idle: nat, last: int, ops: seq<Op>, token: nat, ip: string, now: int)
    requires token < s.next && (token in s.table ==> s.table[token].lastSeen <= last)
    requires forall i :: 0 <= i < |ops| ==> !Uses(ops[i], token)
    requires last + idle <= now
    ensures Answer(Run(s, idle, ops), idle, OpLookup(token, ip, now)) == None
  {
    UnusedStaysOld(s, idle, ops, token, last);
  }
}
