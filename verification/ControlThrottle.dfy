/**
 The login throttle of the Control panel (request_app/control_store.py): the
 failure window restarts at every failure, five failures block an address, and
 a login clears its row.
 */
module ControlThrottle {
  import opened Wrappers
  import opened Throttle

  const FAILURE_THRESHOLD := 5

  type Table = map<string, Row>

  function RowAt(table: Table, ip: string): (row: Option<Row>) {
    if ip in table then Some(table[ip]) else None
  }

  /** `login_gate`: the seconds left of a block, 0 when the address is free. */
  function Retry(row: Option<Row>, now: int): (seconds: int) {
    if row.Some? && Blocked(row.value, now)
    then (if row.value.blockedUntil.value - now > 1 then row.value.blockedUntil.value - now else 1)
    else 0
  }

  function FailuresAfter(row: Option<Row>, now: int): (n: nat) {
    if row.Some? && Live(row.value, now) then row.value.failures + 1 else 1
  }

  /** The row after a failure of a free address. */
  function Failed(row: Option<Row>, now: int): (next: Row) {
    if FailuresAfter(row, now) >= FAILURE_THRESHOLD
    then
      var level := if row.Some? then NextLevel(row.value, now) else 1;
      Row(0, now, Some(now + BlockSeconds(level)), level, Some(now + ESCALATION), now)
    else
      Row(FailuresAfter(row, now), now, None,
          if row.Some? then row.value.level else 0,
          if row.Some? then row.value.escalation else None, now)
  }

  function Pruned(table: Table, now: int): (t: Table) {
    map ip | ip in table && !Prunable(table[ip], now) :: table[ip]
  }

  datatype Op =
    | OpGate(ip: string, now: int)
    | OpFailure(ip: string, now: int)
    | OpClear(ip: string, now: int)
    | OpPrune(now: int)

  predicate Counts(table: Table, op: Op, ip: string) {
    op.OpFailure? && op.ip == ip && Retry(RowAt(table, ip), op.now) == 0
  }

  function After(table: Table, op: Op): (t: Table) {
    match op
    case OpGate(ip, now) => table
    case OpFailure(ip, now) =>
      if Retry(RowAt(table, ip), now) != 0 then table
      else table[ip := Failed(RowAt(table, ip), now)]
    case OpClear(ip, now) => table - {ip}
    case OpPrune(now) => Pruned(table, now)
  }

  /** The seconds a gate or a failure tells the caller to wait. */
  function Answer(table: Table, op: Op): (seconds: int) {
    match op
    case OpGate(ip, now) => Retry(RowAt(table, ip), now)
    case OpFailure(ip, now) =>
      if Retry(RowAt(table, ip), now) != 0 then Retry(RowAt(table, ip), now)
      else
        var next := Failed(RowAt(table, ip), now);
        if next.blockedUntil.Some? then next.blockedUntil.value - now else 0
    case _ => 0
  }

  predicate Ordered(from: int, ops: seq<Op>)
    decreases |ops|
  {
    ops == [] || (from <= ops[0].now && Ordered(ops[0].now, ops[1..]))
  }

  ghost predicate Valid(table: Table, now: int) {
    forall ip | ip in table ::
      && WellFormed(table[ip], now)
      && table[ip].failures < FAILURE_THRESHOLD
      && (table[ip].blockedUntil.Some? ==> table[ip].window + WINDOW <= table[ip].blockedUntil.value)
  }

  lemma StepKeepsValid(table: Table, was: int, op: Op)
    requires Valid(table, was) && was <= op.now
    ensures Valid(After(table, op), op.now)
  {
    if op.OpFailure? && Counts(table, op, op.ip) {
      var next := Failed(RowAt(table, op.ip), op.now);
      assert WellFormed(next, op.now);
    }
  }

  /** A failure of a free address starts its ten minutes again; the fifth in a row,
      each within ten minutes of the one before, blocks the address. */
  ghost predicate Recorded(before: Table, after: Table, ip: string, now: int, retry: int) {
    var row := if ip in before then Some(before[ip]) else None;
    if row.Some? && row.value.blockedUntil.Some? && now < row.value.blockedUntil.value
    then after == before && retry == row.value.blockedUntil.value - now
    else
      && after.Keys == before.Keys + {ip}
      && (forall other | other in before && other != ip :: after[other] == before[other])
      && var next := after[ip];
         if row.Some? && now - row.value.window < 600 && row.value.failures >= 4
         then
           && Climbs(row, next.level, now)
           && Lasts(next.level, retry)
           && next == Row(0, now, Some(now + retry), next.level, Some(now + 86400), now)
         else
           && retry == 0
           && next == Row(if row.Some? && now - row.value.window < 600 then row.value.failures + 1 else 1, now, None,
                          if row.Some? then row.value.level else 0,
                          if row.Some? then row.value.escalation else None, now)
  }

  lemma RecordedIs(table: Table, ip: string, now: int)
    ensures Recorded(table, After(table, OpFailure(ip, now)), ip, now, Answer(table, OpFailure(ip, now)))
  {
  }

  class ControlStore {
    var throttles: Table

    constructor ()
      ensures throttles == map[]
    {
      throttles := map[];
    }

    method LoginGate(ip: string, now: int) returns (retry: int)
      ensures retry == Answer(throttles, OpGate(ip, now))
      ensures retry ==
        if ip in throttles && throttles[ip].blockedUntil.Some? && now < throttles[ip].blockedUntil.value
        then throttles[ip].blockedUntil.value - now else 0
    {
      retry := 0;
      if ip in throttles {
        var until := throttles[ip].blockedUntil;
        if until.Some? && until.value > now {
          retry := if until.value - now > 1 then until.value - now else 1;
        }
      }
    }

    method RecordFailure(ip: string, now: int) returns (retry: int)
      modifies this
      ensures throttles == After(old(throttles), OpFailure(ip, now))
      ensures retry == Answer(old(throttles), OpFailure(ip, now))
      ensures Recorded(old(throttles), throttles, ip, now, retry)
    {
      RecordedIs(throttles, ip, now);
      hide Recorded;
      retry := LoginGate(ip, now);
      if retry != 0 {
        return;
      }
      var failures, level, escalation, until := 1, 0, None, None;
      if ip in throttles {
        var row := throttles[ip];
        if row.window > now - WINDOW {
          failures := row.failures + 1;
        }
        level, escalation := row.level, row.escalation;
      }
      if failures >= FAILURE_THRESHOLD {
        level := if escalation.Some? && escalation.value > now
          then (if level + 1 < 3 then level + 1 else 3)
          else 1;
        until := Some(now + [15 * 60, 60 * 60, 1440 * 60][level - 1]);
        escalation := Some(now + ESCALATION);
        failures := 0;
      }
      throttles := throttles[ip := Row(failures, now, until, level, escalation, now)];
      retry := if until.Some? then until.value - now else 0;
    }

    method ClearFailures(ip: string, now: int)
      modifies this
      ensures throttles == After(old(throttles), OpClear(ip, now))
      ensures throttles == map other | other in old(throttles) && other != ip :: old(throttles)[other]
    {
      throttles := throttles - {ip};
    }

    method Prune(now: int)
      modifies this
      ensures throttles == After(old(throttles), OpPrune(now))
      ensures forall ip :: ip in throttles <==>
        && ip in old(throttles)
        && (old(throttles)[ip].updated >= now - 604800
            || (old(throttles)[ip].blockedUntil.Some? && old(throttles)[ip].blockedUntil.value >= now))
      ensures forall ip | ip in throttles :: throttles[ip] == old(throttles)[ip]
    {
      var cutoff := now - RETENTION;
      throttles := map ip | ip in throttles
        && !(throttles[ip].updated < cutoff
             && (throttles[ip].blockedUntil.None? || throttles[ip].blockedUntil.value < now))
        :: throttles[ip];
    }
  }
}
