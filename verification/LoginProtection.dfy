/**
 The public login throttle of request_app/auth_protection.py: one failure window
 anchored at its first failure per address and per account, and an escalating
 block per address.
 */
module LoginProtection {
  import opened Wrappers
  import opened Arithmetic
  import opened Throttle

  const IP_FAILURE_THRESHOLD := 10

  /** `scope` and `key` of a row; scopes and account names arrive normalised. */
  datatype Key = Ip(ip: string) | Account(account: string)

  type Table = map<Key, Row>

  datatype Gate = Gate(blocked: bool, retryAfter: int, delay: int)

  function RowAt(table: Table, key: Key): (row: Option<Row>) {
    if key in table then Some(table[key]) else None
  }

  /** The slow-down after `failures` failures of one account. */
  function Delay(failures: nat): (seconds: nat) {
    if failures < 3 then 0
    else if failures - 3 >= 4 then 15
    else Pow2(failures - 3)
  }

  function GateOf(table: Table, ip: string, account: string, now: int): (gate: Gate) {
    if Ip(ip) in table && Blocked(table[Ip(ip)], now)
    then Gate(true, Max(1, table[Ip(ip)].blockedUntil.value - now), 0)
    else if Account(account) in table && Live(table[Account(account)], now)
    then Gate(false, 0, Delay(table[Account(account)].failures))
    else Gate(false, 0, 0)
  }

  /** The row after one more counted failure. */
  function Failed(row: Option<Row>, now: int): (next: Row) {
    match row
    case None => Row(1, now, None, 0, None, now)
    case Some(r) =>
      if Live(r, now)
      then r.(failures := r.failures + 1, updated := now)
      else r.(failures := 1, window := now, updated := now)
  }

  /** The row after the failure that reaches the threshold. */
  function Punished(row: Row, now: int): (next: Row) {
    var level := NextLevel(row, now);
    Row(0, row.window, Some(now + BlockSeconds(level)), level, Some(now + ESCALATION), now)
  }

  /** `record_failure`: the new table, the answer, and the level of a new block (0 if none). */
  function Failure(table: Table, ip: string, account: string, now: int): (r: (Table, Gate, nat)) {
    var gate := GateOf(table, ip, account, now);
    if gate.blocked then (table, gate, 0)
    else
      var row := Failed(RowAt(table, Ip(ip)), now);
      var counted := table[Account(account) := Failed(RowAt(table, Account(account)), now)];
      if row.failures >= IP_FAILURE_THRESHOLD
      then
        var punished := Punished(row, now);
        (counted[Ip(ip) := punished], Gate(true, BlockSeconds(NextLevel(row, now)), 0), punished.level)
      else (counted[Ip(ip) := row], GateOf(counted[Ip(ip) := row], ip, account, now), 0)
  }

  /** `record_success`: forgets the account and forgives two failures of a free address. */
  function Success(table: Table, ip: string, account: string, now: int): (t: Table) {
    var rest := table - {Account(account)};
    if Ip(ip) in table && !Blocked(table[Ip(ip)], now)
    then rest[Ip(ip) := table[Ip(ip)].(failures := Max(0, table[Ip(ip)].failures - 2), updated := now)]
    else rest
  }

  /** `prune`, age rule. */
  function Pruned(table: Table, now: int): (t: Table) {
    map key | key in table && !Prunable(table[key], now) :: table[key]
  }

  // ---- The answers in figures -----------------------------------------------

  /** A blocked address is told the seconds left; a free one waits 1, 2, 4, 8, 15, 15, …
      seconds from the third failure of the account in its open ten minutes on. */
  predicate Opens(table: Table, ip: string, account: string, now: int, gate: Gate) {
    if Ip(ip) in table && table[Ip(ip)].blockedUntil.Some? && now < table[Ip(ip)].blockedUntil.value
    then gate == Gate(true, table[Ip(ip)].blockedUntil.value - now, 0)
    else
      && !gate.blocked
      && gate.retryAfter == 0
      && gate.delay ==
         if Account(account) !in table || now - table[Account(account)].window >= 600 then 0
         else
           var failures := table[Account(account)].failures;
           if failures < 3 then 0
           else if failures < 7 then [1, 2, 4, 8][failures - 3]
           else 15
  }

  /** A failure is counted for the account and the address unless the address is
      blocked; the tenth of the address blocks it and empties its count. */
  ghost predicate Recorded(
    before: Table, after: Table, ip: string, account: string, now: int, gate: Gate, level: nat)
  {
    var row := if Ip(ip) in before then Some(before[Ip(ip)]) else None;
    var known := if Account(account) in before then Some(before[Account(account)]) else None;
    if row.Some? && row.value.blockedUntil.Some? && now < row.value.blockedUntil.value
    then after == before && level == 0 && Opens(before, ip, account, now, gate)
    else
      && after.Keys == before.Keys + {Ip(ip), Account(account)}
      && (forall key | key in before && key != Ip(ip) && key != Account(account) :: after[key] == before[key])
      && Grown(known, after[Account(account)], now)
      && if row.Some? && now - row.value.window < 600 && row.value.failures >= 9
         then
           && Climbs(row, level, now)
           && Lasts(level, gate.retryAfter)
           && gate == Gate(true, gate.retryAfter, 0)
           && after[Ip(ip)] == Row(0, row.value.window, Some(now + gate.retryAfter), level, Some(now + 86400), now)
         else level == 0 && Grown(row, after[Ip(ip)], now) && Opens(after, ip, account, now, gate)
  }

  lemma GateOpens(table: Table, ip: string, account: string, now: int)
    ensures Opens(table, ip, account, now, GateOf(table, ip, account, now))
  {
    if Account(account) in table {
      var failures := table[Account(account)].failures;
      if 3 <= failures < 7 {
        assert Pow2(0) == 1 && Pow2(1) == 2 && Pow2(2) == 4 && Pow2(3) == 8;
      }
    }
  }

  lemma RecordedIs(table: Table, ip: string, account: string, now: int)
    ensures var r := Failure(table, ip, account, now); Recorded(table, r.0, ip, account, now, r.1, r.2)
  {
    hide Delay;
    var after := Failure(table, ip, account, now).0;
    GateOpens(table, ip, account, now);
    GateOpens(after, ip, account, now);
  }

  datatype Op =
    | OpCheck(ip: string, account: string, now: int)
    | OpFailure(ip: string, account: string, now: int)
    | OpSuccess(ip: string, account: string, now: int)
    | OpPrune(now: int)

  /** The table after one call. */
  function After(table: Table, op: Op): (t: Table) {
    match op
    case OpCheck(ip, account, now) => table
    case OpFailure(ip, account, now) => Failure(table, ip, account, now).0
    case OpSuccess(ip, account, now) => Success(table, ip, account, now)
    case OpPrune(now) => Pruned(table, now)
  }

  /** What the caller and the audit trail see of one call. */
  function Answer(table: Table, op: Op): (answer: (Gate, nat)) {
    match op
    case OpCheck(ip, account, now) => (GateOf(table, ip, account, now), 0)
    case OpFailure(ip, account, now) =>
      var r := Failure(table, ip, account, now);
      (r.1, r.2)
    case _ => (Gate(false, 0, 0), 0)
  }

  /** The clock never goes back. */
  predicate Ordered(from: int, ops: seq<Op>)
    decreases |ops|
  {
    ops == [] || (from <= ops[0].now && Ordered(ops[0].now, ops[1..]))
  }

  ghost predicate Valid(table: Table, now: int) {
    forall key | key in table ::
      && WellFormed(table[key], now)
      && (key.Ip? ==> table[key].failures < IP_FAILURE_THRESHOLD)
      && (key.Account? ==> table[key].blockedUntil.None? && table[key].escalation.None?)
  }

  lemma FailedKeepsRow(row: Option<Row>, was: int, now: int)
    requires was <= now && (row.Some? ==> WellFormed(row.value, was) && !Blocked(row.value, now))
    ensures WellFormed(Failed(row, now), now)
    ensures Failed(row, now).failures <= IP_FAILURE_THRESHOLD ==> WellFormed(Punished(Failed(row, now), now), now)
  {
  }

  lemma RowsAge(table: Table, was: int, now: int)
    requires Valid(table, was) && was <= now
    ensures Valid(table, now)
  {
  }

  /** A failure neither blocks an account nor gives it an escalation. */
  lemma FailedAccountIsFree(row: Option<Row>, now: int)
    requires row.Some? ==> row.value.blockedUntil.None? && row.value.escalation.None?
    ensures Failed(row, now).blockedUntil.None? && Failed(row, now).escalation.None?
  {
  }

  lemma FailureKeepsValid(table: Table, was: int, ip: string, account: string, now: int)
    requires Valid(table, was) && was <= now
    ensures Valid(Failure(table, ip, account, now).0, now)
  {
    if !GateOf(table, ip, account, now).blocked {
      FailedKeepsRow(RowAt(table, Ip(ip)), was, now);
      FailedKeepsRow(RowAt(table, Account(account)), was, now);
      FailedAccountIsFree(RowAt(table, Account(account)), now);
    }
    RowsAge(table, was, now);
    hide WellFormed, Failed, Punished, GateOf;
  }

  lemma StepKeepsValid(table: Table, was: int, op: Op)
    requires Valid(table, was) && was <= op.now
    ensures Valid(After(table, op), op.now)
  {
    if op.OpFailure? {
      FailureKeepsValid(table, was, op.ip, op.account, op.now);
    }
  }

  class LoginProtection {
    var throttles: Table

    constructor ()
      ensures throttles == map[]
    {
      throttles := map[];
    }

    method Check(ip: string, account: string, now: int) returns (gate: Gate)
      ensures gate == GateOf(throttles, ip, account, now)
      ensures Opens(throttles, ip, account, now, gate)
    {
      GateOpens(throttles, ip, account, now);
      hide Opens;
      if Ip(ip) in throttles {
        var until := throttles[Ip(ip)].blockedUntil;
        if until.Some? && until.value > now {
          return Gate(true, Max(1, until.value - now), 0);
        }
      }
      var delay := 0;
      if Account(account) in throttles {
        var row := throttles[Account(account)];
        if row.window > now - WINDOW {
          var failures := row.failures;
          if failures >= 3 {
            var exponent := 0;
            delay := 1;
            while exponent < failures - 3 && delay < 15
              invariant 0 <= exponent <= failures - 3
              invariant delay == Pow2(exponent) && exponent <= 4
              invariant delay < 15 <==> exponent < 4
            {
              delay, exponent := 2 * delay, exponent + 1;
            }
            delay := if delay < 15 then delay else 15;
          }
        }
      }
      gate := Gate(false, 0, delay);
    }

    method UpsertFailure(key: Key, now: int) returns (row: Row)
      modifies this
      ensures row == Failed(RowAt(old(throttles), key), now)
      ensures throttles == old(throttles)[key := row]
      ensures Grown(if key in old(throttles) then Some(old(throttles)[key]) else None, row, now)
    {
      if key !in throttles || throttles[key].window <= now - WINDOW {
        row := if key in throttles
          then throttles[key].(failures := 1, window := now, updated := now)
          else Row(1, now, None, 0, None, now);
      } else {
        row := throttles[key].(failures := throttles[key].failures + 1, updated := now);
      }
      throttles := throttles[key := row];
    }

    method RecordFailure(ip: string, account: string, now: int) returns (gate: Gate, blockLevel: nat)
      modifies this
      ensures (throttles, gate, blockLevel) == Failure(old(throttles), ip, account, now)
      ensures Recorded(old(throttles), throttles, ip, account, now, gate, blockLevel)
    {
      RecordedIs(throttles, ip, account, now);
      hide Recorded;
      blockLevel := 0;
      gate := Check(ip, account, now);
      if gate.blocked {
        return;
      }
      var accountRow := UpsertFailure(Account(account), now);
      var row := UpsertFailure(Ip(ip), now);
      if row.failures >= IP_FAILURE_THRESHOLD {
        blockLevel := 1;
        if row.escalation.Some? && row.escalation.value > now {
          blockLevel := if row.level + 1 < 3 then row.level + 1 else 3;
        }
        var until := now + [15 * 60, 60 * 60, 1440 * 60][blockLevel - 1];
        throttles := throttles[Ip(ip) := row.(
          failures := 0, blockedUntil := Some(until), level := blockLevel,
          escalation := Some(now + ESCALATION), updated := now)];
        gate := Gate(true, until - now, 0);
        assert throttles == old(throttles)[Account(account) := accountRow][Ip(ip) := Punished(row, now)];
      } else {
        gate := Check(ip, account, now);
      }
    }

    method RecordSuccess(ip: string, account: string, now: int)
      modifies this
      ensures throttles == Success(old(throttles), ip, account, now)
      ensures throttles.Keys == old(throttles).Keys - {Account(account)}
      ensures forall key | key in throttles ::
        var row := old(throttles)[key];
        throttles[key] ==
        if key == Ip(ip) && (row.blockedUntil.None? || row.blockedUntil.value <= now)
        then Row(if row.failures < 2 then 0 else row.failures - 2, row.window, row.blockedUntil, row.level,
                 row.escalation, now)
        else row
    {
      throttles := throttles - {Account(account)};
      if Ip(ip) in throttles {
        var row := throttles[Ip(ip)];
        if row.blockedUntil.None? || row.blockedUntil.value <= now {
          throttles := throttles[Ip(ip) := row.(failures := Max(0, row.failures - 2), updated := now)];
        }
      }
    }

    method Prune(now: int)
      modifies this
      ensures throttles == Pruned(old(throttles), now)
      ensures forall key :: key in throttles <==>
        && key in old(throttles)
        && (old(throttles)[key].updated >= now - 604800
            || (old(throttles)[key].blockedUntil.Some? && old(throttles)[key].blockedUntil.value >= now))
      ensures forall key | key in throttles :: throttles[key] == old(throttles)[key]
    {
      var cutoff := now - RETENTION;
      throttles := map key | key in throttles
        && !(throttles[key].updated < cutoff
             && (throttles[key].blockedUntil.None? || throttles[key].blockedUntil.value < now))
        :: throttles[key];
    }
  }
}
