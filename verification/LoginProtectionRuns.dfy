/**
 Whole runs of the public login throttle: age-based pruning is invisible, the
 failures an address can make in ten minutes are bounded, and its blocks form
 the escalation ladder.
 */
module LoginProtectionRuns {
  import opened Wrappers
  import opened Throttle
  import opened LoginProtection

  // ---- Pruning is invisible -------------------------------------------------

  /** Everything a run answers; a prune answers nothing. */
  function Answers(table: Table, ops: seq<Op>): (answers: seq<(Gate, nat)>)
    decreases |ops|
  {
    if ops == [] then []
    else if ops[0].OpPrune? then Answers(After(table, ops[0]), ops[1..])
    else [Answer(table, ops[0])] + Answers(After(table, ops[0]), ops[1..])
  }

  function WithoutPrunes(ops: seq<Op>): (rest: seq<Op>) {
    if ops == [] then []
    else if ops[0].OpPrune? then WithoutPrunes(ops[1..])
    else [ops[0]] + WithoutPrunes(ops[1..])
  }

  /** Two tables no later call can tell apart. */
  ghost predicate Same(a: Table, b: Table, now: int) {
    forall key :: ViewOf(RowAt(a, key), now) == ViewOf(RowAt(b, key), now)
  }

  lemma SameAges(a: Table, b: Table, was: int, now: int)
    requires Same(a, b, was) && was <= now
    ensures Same(a, b, now)
  {
    forall key ensures ViewOf(RowAt(a, key), now) == ViewOf(RowAt(b, key), now) {
      ViewsAge(RowAt(a, key), RowAt(b, key), was, now);
    }
  }

  lemma PruneIsSame(table: Table, now: int)
    requires Valid(table, now)
    ensures Same(Pruned(table, now), table, now)
  {
    forall key ensures ViewOf(RowAt(Pruned(table, now), key), now) == ViewOf(RowAt(table, key), now) {
      if key in table && Prunable(table[key], now) {
        PrunableIsInvisible(table[key], now);
      }
    }
  }

  lemma GateIsSame(a: Table, b: Table, ip: string, account: string, now: int)
    requires Same(a, b, now)
    ensures GateOf(a, ip, account, now) == GateOf(b, ip, account, now)
  {
    assert ViewOf(RowAt(a, Ip(ip)), now) == ViewOf(RowAt(b, Ip(ip)), now);
    assert ViewOf(RowAt(a, Account(account)), now) == ViewOf(RowAt(b, Account(account)), now);
  }

  /** One more failure of indistinguishable free rows gives indistinguishable rows. */
  lemma FailedIsSame(a: Option<Row>, b: Option<Row>, now: int)
    requires ViewOf(a, now) == ViewOf(b, now) && ViewOf(a, now).block.None?
    ensures Failed(a, now).failures == Failed(b, now).failures
    ensures ViewOf(Some(Failed(a, now)), now) == ViewOf(Some(Failed(b, now)), now)
    ensures NextLevel(Failed(a, now), now) == NextLevel(Failed(b, now), now)
    ensures ViewOf(Some(Punished(Failed(a, now), now)), now) == ViewOf(Some(Punished(Failed(b, now), now)), now)
  {
  }

  lemma FailureIsSame(a: Table, b: Table, ip: string, account: string, now: int)
    requires Valid(a, now) && Valid(b, now) && Same(a, b, now)
    ensures Same(Failure(a, ip, account, now).0, Failure(b, ip, account, now).0, now)
    ensures Failure(a, ip, account, now).1 == Failure(b, ip, account, now).1
    ensures Failure(a, ip, account, now).2 == Failure(b, ip, account, now).2
  {
    GateIsSame(a, b, ip, account, now);
    var x, y := Failure(a, ip, account, now).0, Failure(b, ip, account, now).0;
    if !GateOf(a, ip, account, now).blocked {
      FailedIsSame(RowAt(a, Ip(ip)), RowAt(b, Ip(ip)), now);
      FailedIsSame(RowAt(a, Account(account)), RowAt(b, Account(account)), now);
      hide Failed, Punished, NextLevel, ViewOf, WellFormed, Valid, GateOf;
      forall key ensures ViewOf(RowAt(x, key), now) == ViewOf(RowAt(y, key), now) {
        assert ViewOf(RowAt(a, key), now) == ViewOf(RowAt(b, key), now);
      }
      GateIsSame(x, y, ip, account, now);
    }
  }

  lemma SuccessIsSame(a: Table, b: Table, ip: string, account: string, now: int)
    requires Same(a, b, now)
    ensures Same(Success(a, ip, account, now), Success(b, ip, account, now), now)
  {
    var x, y := Success(a, ip, account, now), Success(b, ip, account, now);
    assert ViewOf(RowAt(a, Ip(ip)), now) == ViewOf(RowAt(b, Ip(ip)), now);
    forall key ensures ViewOf(RowAt(x, key), now) == ViewOf(RowAt(y, key), now) {
      assert ViewOf(RowAt(a, key), now) == ViewOf(RowAt(b, key), now);
    }
  }

  lemma StepIsSame(a: Table, b: Table, op: Op)
    requires Valid(a, op.now) && Valid(b, op.now) && Same(a, b, op.now) && !op.OpPrune?
    ensures Answer(a, op) == Answer(b, op)
    ensures Same(After(a, op), After(b, op), op.now)
  {
    match op
    case OpCheck(ip, account, now) => GateIsSame(a, b, ip, account, now);
    case OpFailure(ip, account, now) => FailureIsSame(a, b, ip, account, now);
    case OpSuccess(ip, account, now) => SuccessIsSame(a, b, ip, account, now);
  }

  lemma ValidAges(table: Table, was: int, now: int)
    requires Valid(table, was) && was <= now
    ensures Valid(table, now)
  {
  }

  lemma {:induction false} SameTablesAnswerAlike(a: Table, b: Table, was: int, ops: seq<Op>)
    requires Valid(a, was) && Valid(b, was) && Same(a, b, was) && Ordered(was, ops)
    ensures Answers(a, ops) == Answers(b, WithoutPrunes(ops))
    decreases |ops|
  {
    if ops != [] {
      var op := ops[0];
      SameAges(a, b, was, op.now);
      ValidAges(a, was, op.now);
      ValidAges(b, was, op.now);
      StepKeepsValid(a, op.now, op);
      if op.OpPrune? {
        PruneIsSame(a, op.now);
        SameTablesAnswerAlike(After(a, op), b, op.now, ops[1..]);
      } else {
        StepIsSame(a, b, op);
        StepKeepsValid(b, op.now, op);
        SameTablesAnswerAlike(After(a, op), After(b, op), op.now, ops[1..]);
        assert WithoutPrunes(ops)[1..] == WithoutPrunes(ops[1..]);
      }
    }
  }

  /** However prunes are interleaved, now or later, every gate, delay, retry time and
      block level of the run is as it would be without them. */
  lemma PruningIsInvisible(table: Table, from: int, ops: seq<Op>)
    requires Valid(table, from) && Ordered(from, ops)
    ensures Answers(table, ops) == Answers(table, WithoutPrunes(ops))
    ensures Answers(Pruned(table, from), ops) == Answers(table, ops)
  {
    SameTablesAnswerAlike(table, table, from, ops);
    PruneIsSame(table, from);
    SameTablesAnswerAlike(Pruned(table, from), table, from, ops);
  }

  // ---- Failures per ten minutes --------------------------------------------

  predicate Counts(table: Table, op: Op, ip: string) {
    op.OpFailure? && op.ip == ip && !GateOf(table, op.ip, op.account, op.now).blocked
  }

  /** When the failures of `ip` that passed the gate were counted. */
  function CountedFailures(table: Table, ops: seq<Op>, ip: string): (times: seq<int>)
    decreases |ops|
  {
    if ops == [] then []
    else
      var rest := CountedFailures(After(table, ops[0]), ops[1..], ip);
      if Counts(table, ops[0], ip) then [ops[0].now] + rest else rest
  }

  predicate NoSuccess(ops: seq<Op>, ip: string) {
    forall i :: 0 <= i < |ops| ==> !(ops[i].OpSuccess? && ops[i].ip == ip)
  }

  /** The open window of a free address whose failures were all forgiven. */
  predicate Forgiven(row: Option<Row>, now: int) {
    row.Some? && Live(row.value, now) && !Blocked(row.value, now) && row.value.failures == 0
  }

  /** How many failures can still be counted in [from, from + WINDOW). */
  function Budget(row: Option<Row>, now: int, from: int): (n: int) {
    if now >= from + WINDOW then 0
    else if now < from then (if Forgiven(row, now) then 19 else 18)
    else if row.Some? && Blocked(row.value, now) then
      (if row.value.blockedUntil.value >= from + WINDOW then 0 else 10)
    else if row.Some? && Live(row.value, now) then
      (if row.value.window >= from then 10 else 19) - row.value.failures
    else 10
  }

  lemma BudgetAges(row: Option<Row>, was: int, now: int, from: int)
    requires row.Some? ==> WellFormed(row.value, was) && row.value.failures < IP_FAILURE_THRESHOLD
    requires was <= now
    ensures Budget(row, was, from) >= Budget(row, now, from) >= 0
  {
  }

  lemma CountedFailureSpends(table: Table, op: Op, ip: string, from: int)
    requires Valid(table, op.now) && Counts(table, op, ip)
    ensures Budget(RowAt(table, Ip(ip)), op.now, from)
         >= Budget(RowAt(After(table, op), Ip(ip)), op.now, from)
          + (if from <= op.now < from + WINDOW then 1 else 0)
  {
    var row := RowAt(table, Ip(ip));
    var next := RowAt(After(table, op), Ip(ip));
    assert row.Some? ==> !Blocked(row.value, op.now);
    if Failed(row, op.now).failures >= IP_FAILURE_THRESHOLD {
      assert next == Some(Punished(Failed(row, op.now), op.now));
    } else {
      assert next == Some(Failed(row, op.now));
    }
  }

  lemma OtherStepsSpendNothing(table: Table, op: Op, ip: string, from: int)
    requires Valid(table, op.now) && !Counts(table, op, ip)
    requires !(op.OpSuccess? && op.ip == ip)
    ensures Budget(RowAt(After(table, op), Ip(ip)), op.now, from) == Budget(RowAt(table, Ip(ip)), op.now, from)
  {
    if op.OpPrune? && Ip(ip) in table && Prunable(table[Ip(ip)], op.now) {
      PrunableIsInvisible(table[Ip(ip)], op.now);
    }
  }

  /** A success forgives two failures, so it gives back at most two. */
  lemma SuccessGivesTwo(table: Table, op: Op, ip: string, from: int)
    requires Valid(table, op.now) && op.OpSuccess? && op.ip == ip
    ensures Budget(RowAt(After(table, op), Ip(ip)), op.now, from) <= Budget(RowAt(table, Ip(ip)), op.now, from) + 2
  {
  }

  function Successes(ops: seq<Op>, ip: string): (n: nat) {
    if ops == [] then 0
    else
      var rest := Successes(ops[1..], ip);
      if ops[0].OpSuccess? && ops[0].ip == ip then rest + 1 else rest
  }

  lemma {:induction false} NoSuccessCounts(ops: seq<Op>, ip: string)
    requires NoSuccess(ops, ip)
    ensures Successes(ops, ip) == 0
  {
    if ops != [] {
      NoSuccessCounts(ops[1..], ip);
    }
  }

  lemma {:induction false} FailuresFitBudget(table: Table, was: int, ops: seq<Op>, ip: string, from: int)
    requires Valid(table, was) && Ordered(was, ops)
    ensures CountFrom(CountedFailures(table, ops, ip), from)
         <= Budget(RowAt(table, Ip(ip)), was, from) + 2 * Successes(ops, ip)
    decreases |ops|
  {
    if ops == [] {
      BudgetAges(RowAt(table, Ip(ip)), was, was, from);
    } else {
      var op := ops[0];
      BudgetAges(RowAt(table, Ip(ip)), was, op.now, from);
      ValidAges(table, was, op.now);
      StepKeepsValid(table, op.now, op);
      FailuresFitBudget(After(table, op), op.now, ops[1..], ip, from);
      var rest := CountedFailures(After(table, op), ops[1..], ip);
      if Counts(table, op, ip) {
        CountedFailureSpends(table, op, ip, from);
        assert ([op.now] + rest)[1..] == rest;
      } else if op.OpSuccess? && op.ip == ip {
        SuccessGivesTwo(table, op, ip, from);
      } else {
        OtherStepsSpendNothing(table, op, ip, from);
      }
    }
  }

  /** No half-open ten minutes of a run hold more than 18 counted failures of `ip`, 19
      if the run starts in a forgiven window, and two more per success of `ip`. */
  lemma AtMostTwoMorePerSuccess(table: Table, start: int, ops: seq<Op>, ip: string, from: int)
    requires Valid(table, start) && Ordered(start, ops)
    ensures CountFrom(CountedFailures(table, ops, ip), from)
         <= (if Forgiven(RowAt(table, Ip(ip)), start) then 19 else 18) + 2 * Successes(ops, ip)
  {
    FailuresFitBudget(table, start, ops, ip, from);
    BudgetAges(RowAt(table, Ip(ip)), start, start, from);
    assert Budget(RowAt(table, Ip(ip)), start, from) <= if Forgiven(RowAt(table, Ip(ip)), start) then 19 else 18;
  }

  /** Without a success of `ip` in the run, no half-open ten minutes hold more than
      18 counted failures of it, 19 if the run starts in a forgiven window. */
  lemma AtMostEighteenFailures(table: Table, start: int, ops: seq<Op>, ip: string, from: int)
    requires Valid(table, start) && Ordered(start, ops) && NoSuccess(ops, ip)
    ensures CountFrom(CountedFailures(table, ops, ip), from)
         <= if Forgiven(RowAt(table, Ip(ip)), start) then 19 else 18
  {
    NoSuccessCounts(ops, ip);
    AtMostTwoMorePerSuccess(table, start, ops, ip, from);
  }

  /** `n` failures of one address and one account at one instant. */
  function Repeat(ip: string, account: string, now: int, n: nat): (ops: seq<Op>) {
    if n == 0 then [] else [OpFailure(ip, account, now)] + Repeat(ip, account, now, n - 1)
  }

  function Open(row: Option<Row>, now: int): (failures: nat) {
    if row.Some? && Live(row.value, now) then row.value.failures else 0
  }

  lemma {:induction false} RepeatIsARun(ip: string, now: int, n: nat, rest: seq<Op>)
    requires Ordered(now, rest) && NoSuccess(rest, ip)
    ensures Ordered(now, Repeat(ip, "", now, n) + rest) && NoSuccess(Repeat(ip, "", now, n) + rest, ip)
  {
    var ops := Repeat(ip, "", now, n) + rest;
    if n == 0 {
      assert ops == rest;
    } else {
      RepeatIsARun(ip, now, n - 1, rest);
      assert ops == [OpFailure(ip, "", now)] + (Repeat(ip, "", now, n - 1) + rest);
    }
  }

  lemma FailureBelowThreshold(table: Table, ip: string, now: int) returns (next: Table)
    requires Valid(table, now) && (Ip(ip) in table ==> !Blocked(table[Ip(ip)], now))
    requires Open(RowAt(table, Ip(ip)), now) + 1 < IP_FAILURE_THRESHOLD
    ensures next == After(table, OpFailure(ip, "", now)) && Valid(next, now)
    ensures Counts(table, OpFailure(ip, "", now), ip)
    ensures Ip(ip) in next && !Blocked(next[Ip(ip)], now) && Live(next[Ip(ip)], now)
    ensures next[Ip(ip)].failures == Open(RowAt(table, Ip(ip)), now) + 1
    ensures next[Ip(ip)].window == if Ip(ip) in table && Live(table[Ip(ip)], now) then table[Ip(ip)].window else now
  {
    var op := OpFailure(ip, "", now);
    next := After(table, op);
    StepKeepsValid(table, now, op);
    assert RowAt(next, Ip(ip)) == Some(Failed(RowAt(table, Ip(ip)), now));
  }

  lemma RepeatInFront(ip: string, now: int, n: nat, rest: seq<Op>)
    requires n > 0
    ensures var ops := Repeat(ip, "", now, n) + rest;
      ops == [OpFailure(ip, "", now)] + ops[1..] && ops[1..] == Repeat(ip, "", now, n - 1) + rest
  {
  }

  lemma OneMoreCounted(table: Table, op: Op, rest: seq<Op>, ip: string, from: int)
    requires Counts(table, op, ip) && from <= op.now < from + WINDOW
    ensures CountFrom(CountedFailures(table, [op] + rest, ip), from)
         == 1 + CountFrom(CountedFailures(After(table, op), rest, ip), from)
  {
    RestOfSum(op, rest);
    RestOfSum(op.now, CountedFailures(After(table, op), rest, ip));
  }

  /** Below the threshold every failure of a free address is counted in its window. */
  lemma {:induction false} FailuresAccumulate(table: Table, ip: string, now: int, n: nat, rest: seq<Op>, from: int)
    returns (after: Table)
    requires Valid(table, now) && (Ip(ip) in table ==> !Blocked(table[Ip(ip)], now))
    requires Open(RowAt(table, Ip(ip)), now) + n < IP_FAILURE_THRESHOLD && from <= now < from + WINDOW
    ensures Valid(after, now) && (Ip(ip) in after ==> !Blocked(after[Ip(ip)], now))
    ensures Open(RowAt(after, Ip(ip)), now) == Open(RowAt(table, Ip(ip)), now) + n
    ensures n == 0 ==> after == table
    ensures n > 0 ==> Ip(ip) in after
    ensures n > 0 ==>
      after[Ip(ip)].window == (if Ip(ip) in table && Live(table[Ip(ip)], now) then table[Ip(ip)].window else now)
    ensures CountFrom(CountedFailures(table, Repeat(ip, "", now, n) + rest, ip), from)
         == n + CountFrom(CountedFailures(after, rest, ip), from)
    decreases n
  {
    var ops := Repeat(ip, "", now, n) + rest;
    if n == 0 {
      assert ops == rest;
      after := table;
    } else {
      hide After, Valid;
      RepeatInFront(ip, now, n, rest);
      var next := FailureBelowThreshold(table, ip, now);
      after := FailuresAccumulate(next, ip, now, n - 1, rest, from);
      OneMoreCounted(table, OpFailure(ip, "", now), ops[1..], ip, from);
    }
  }

  lemma LiveWindowBounds(table: Table, ip: string, now: int, ops: seq<Op>)
    requires Valid(table, now) && Ip(ip) in table && !Blocked(table[Ip(ip)], now) && Live(table[Ip(ip)], now)
    requires table[Ip(ip)].window < now && Ordered(now, ops) && NoSuccess(ops, ip)
    ensures CountFrom(CountedFailures(table, ops, ip), now) <= 19 - table[Ip(ip)].failures
  {
    NoSuccessCounts(ops, ip);
    FailuresFitBudget(table, now, ops, ip, now);
  }

  /** Ten failures at the instant a window closes; the last one blocks. */
  function Closing(ip: string, close: int): (ops: seq<Op>) {
    Repeat(ip, "", close, 9) + [OpFailure(ip, "", close)]
  }

  lemma ClosingIsARun(ip: string, now: int, close: int)
    requires now <= close
    ensures Ordered(now, Closing(ip, close)) && NoSuccess(Closing(ip, close), ip)
  {
    RepeatIsARun(ip, close, 9, [OpFailure(ip, "", close)]);
  }

  lemma ClosingCountsTen(table: Table, ip: string, was: int, close: int, from: int)
    requires Valid(table, was) && was <= close && from <= close < from + WINDOW
    requires Ip(ip) in table && !Blocked(table[Ip(ip)], close) && close == table[Ip(ip)].window + WINDOW
    ensures CountFrom(CountedFailures(table, Closing(ip, close), ip), from) == 10
  {
    var last := [OpFailure(ip, "", close)];
    ValidAges(table, was, close);
    var again := FailuresAccumulate(table, ip, close, 9, last, from);
    assert CountedFailures(again, last, ip) == [close];
  }

  /** The failures that a live window still allows before it closes, and the ten at
      that instant. */
  lemma WindowThenClosing(table: Table, ip: string, now: int, close: int) returns (ops: seq<Op>)
    requires Valid(table, now) && Ip(ip) in table && !Blocked(table[Ip(ip)], now)
    requires Live(table[Ip(ip)], now) && close == table[Ip(ip)].window + WINDOW < now + WINDOW
    ensures Ordered(now, ops) && NoSuccess(ops, ip)
    ensures CountFrom(CountedFailures(table, ops, ip), now) == 19 - table[Ip(ip)].failures
  {
    hide Closing, NoSuccess, Ordered;
    var open := table[Ip(ip)].failures;
    ops := Repeat(ip, "", now, 9 - open) + Closing(ip, close);
    var full := FailuresAccumulate(table, ip, now, 9 - open, Closing(ip, close), now);
    ClosingCountsTen(full, ip, now, close, now);
    ClosingIsARun(ip, now, close);
    RepeatIsARun(ip, now, 9 - open, Closing(ip, close));
  }

  /** A free address whose window holds n failures can still make exactly 19 - n in
      the ten minutes that start now. */
  lemma FailuresAroundClosing(table: Table, ip: string, now: int, close: int) returns (ops: seq<Op>)
    requires Valid(table, now) && Ip(ip) in table && !Blocked(table[Ip(ip)], now)
    requires Live(table[Ip(ip)], now) && close == table[Ip(ip)].window + WINDOW < now + WINDOW
    ensures Ordered(now, ops) && NoSuccess(ops, ip)
    ensures CountFrom(CountedFailures(table, ops, ip), now) == 19 - table[Ip(ip)].failures
    ensures forall other :: Ordered(now, other) && NoSuccess(other, ip) ==>
      CountFrom(CountedFailures(table, other, ip), now) <= 19 - table[Ip(ip)].failures
  {
    forall other | Ordered(now, other) && NoSuccess(other, ip)
      ensures CountFrom(CountedFailures(table, other, ip), now) <= 19 - table[Ip(ip)].failures
    {
      LiveWindowBounds(table, ip, now, other);
    }
    ops := WindowThenClosing(table, ip, now, close);
  }

  /** The bound of 18 holds for every run from a table exactly when the table does
      not hold a forgiven window of the address. */
  lemma EighteenUnlessForgiven(table: Table, start: int, ip: string)
    requires Valid(table, start)
    ensures !Forgiven(RowAt(table, Ip(ip)), start) <==>
      forall ops, from :: Ordered(start, ops) && NoSuccess(ops, ip) ==>
        CountFrom(CountedFailures(table, ops, ip), from) <= 18
  {
    if Forgiven(RowAt(table, Ip(ip)), start) {
      var close := table[Ip(ip)].window + WINDOW;
      var now := if start > table[Ip(ip)].window then start else start + 1;
      ValidAges(table, start, now);
      var ops := FailuresAroundClosing(table, ip, now, close);
      assert Ordered(start, ops);
    } else {
      forall ops, from | Ordered(start, ops) && NoSuccess(ops, ip)
        ensures CountFrom(CountedFailures(table, ops, ip), from) <= 18
      {
        AtMostEighteenFailures(table, start, ops, ip, from);
      }
    }
  }

  /** 18 is reached from an empty table. */
  lemma EighteenIsReached(ip: string) returns (ops: seq<Op>, from: int)
    ensures Ordered(0, ops) && NoSuccess(ops, ip)
    ensures CountFrom(CountedFailures(map[], ops, ip), from) == 18
  {
    var first := OpFailure(ip, "", 0);
    var table := After(map[], first);
    StepKeepsValid(map[], 0, first);
    ValidAges(table, 0, 1);
    from := 1;
    var rest := FailuresAroundClosing(table, ip, 1, 600);
    ops := [first] + rest;
    assert ops[1..] == rest;
    assert CountedFailures(map[], ops, ip)[1..] == CountedFailures(table, rest, ip);
  }

  /** A failure and a success of another account lead from an empty table to a
      forgiven window, and from there 19 failures fit into ten minutes. */
  lemma NineteenIsReached(ip: string) returns (before: seq<Op>, ops: seq<Op>, from: int)
    ensures before == [OpFailure(ip, "a", 0), OpSuccess(ip, "b", 0)]
    ensures var table := After(After(map[], before[0]), before[1]);
      && Forgiven(RowAt(table, Ip(ip)), 0)
      && Ordered(0, ops) && NoSuccess(ops, ip)
      && CountFrom(CountedFailures(table, ops, ip), from) == 19
  {
    before := [OpFailure(ip, "a", 0), OpSuccess(ip, "b", 0)];
    var failed := After(map[], before[0]);
    StepKeepsValid(map[], 0, before[0]);
    StepKeepsValid(failed, 0, before[1]);
    var table := After(failed, before[1]);
    ValidAges(table, 0, 1);
    from := 1;
    ops := FailuresAroundClosing(table, ip, 1, 600);
  }

  /** A success and two failures, `n` times at one instant. */
  function Rounds(ip: string, now: int, n: nat): (ops: seq<Op>) {
    if n == 0 then [] else [OpSuccess(ip, "b", now)] + Repeat(ip, "", now, 2) + Rounds(ip, now, n - 1)
  }

  /** The address is one failure short of a block. */
  predicate AtNine(table: Table, ip: string, now: int) {
    && Ip(ip) in table
    && !Blocked(table[Ip(ip)], now)
    && Live(table[Ip(ip)], now)
    && table[Ip(ip)].failures == 9
  }

  lemma {:induction false} FailuresThenRun(ip: string, now: int, n: nat, rest: seq<Op>)
    requires Ordered(now, rest)
    ensures Ordered(now, Repeat(ip, "", now, n) + rest)
    ensures Successes(Repeat(ip, "", now, n) + rest, ip) == Successes(rest, ip)
  {
    var ops := Repeat(ip, "", now, n) + rest;
    if n == 0 {
      assert ops == rest;
    } else {
      FailuresThenRun(ip, now, n - 1, rest);
      assert ops == [OpFailure(ip, "", now)] + (Repeat(ip, "", now, n - 1) + rest);
    }
  }

  lemma RoundIsARun(ip: string, now: int, rest: seq<Op>)
    requires Ordered(now, rest)
    ensures var ops := [OpSuccess(ip, "b", now)] + (Repeat(ip, "", now, 2) + rest);
      Ordered(now, ops) && Successes(ops, ip) == Successes(rest, ip) + 1
  {
    var tail := Repeat(ip, "", now, 2) + rest;
    FailuresThenRun(ip, now, 2, rest);
    assert ([OpSuccess(ip, "b", now)] + tail)[1..] == tail;
  }

  lemma RoundInFront(ip: string, now: int, n: nat, rest: seq<Op>)
    requires n > 0
    ensures Rounds(ip, now, n) + rest
         == [OpSuccess(ip, "b", now)] + (Repeat(ip, "", now, 2) + (Rounds(ip, now, n - 1) + rest))
  {
    hide Repeat;
    SumRegroups([OpSuccess(ip, "b", now)] + Repeat(ip, "", now, 2), Rounds(ip, now, n - 1), rest);
    SumRegroups([OpSuccess(ip, "b", now)], Repeat(ip, "", now, 2), Rounds(ip, now, n - 1) + rest);
  }

  lemma {:induction false} RoundsAreARun(ip: string, now: int, n: nat, rest: seq<Op>)
    requires Ordered(now, rest)
    ensures Ordered(now, Rounds(ip, now, n) + rest)
    ensures Successes(Rounds(ip, now, n) + rest, ip) == Successes(rest, ip) + n
  {
    hide Repeat, Ordered, Successes;
    if n == 0 {
      assert Rounds(ip, now, n) + rest == rest;
    } else {
      var tail := Rounds(ip, now, n - 1) + rest;
      RoundsAreARun(ip, now, n - 1, rest);
      RoundIsARun(ip, now, tail);
      RoundInFront(ip, now, n, rest);
    }
  }

  lemma OneRoundCounts(table: Table, ip: string, now: int, rest: seq<Op>, from: int) returns (after: Table)
    requires Valid(table, now) && AtNine(table, ip, now) && from <= now < from + WINDOW
    ensures Valid(after, now) && AtNine(after, ip, now) && after[Ip(ip)].window == table[Ip(ip)].window
    ensures var ops := [OpSuccess(ip, "b", now)] + (Repeat(ip, "", now, 2) + rest);
      CountFrom(CountedFailures(table, ops, ip), from) == 2 + CountFrom(CountedFailures(after, rest, ip), from)
  {
    var success := OpSuccess(ip, "b", now);
    var forgiven := After(table, success);
    StepKeepsValid(table, now, success);
    after := FailuresAccumulate(forgiven, ip, now, 2, rest, from);
    assert ([success] + (Repeat(ip, "", now, 2) + rest))[1..] == Repeat(ip, "", now, 2) + rest;
  }

  lemma {:induction false} RoundsCount(table: Table, ip: string, now: int, n: nat, rest: seq<Op>, from: int)
    returns (after: Table)
    requires Valid(table, now) && AtNine(table, ip, now) && from <= now < from + WINDOW
    ensures Valid(after, now) && AtNine(after, ip, now) && after[Ip(ip)].window == table[Ip(ip)].window
    ensures CountFrom(CountedFailures(table, Rounds(ip, now, n) + rest, ip), from)
         == 2 * n + CountFrom(CountedFailures(after, rest, ip), from)
    decreases n
  {
    if n == 0 {
      assert Rounds(ip, now, n) + rest == rest;
      after := table;
    } else {
      hide Repeat, CountFrom, CountedFailures, Valid;
      var tail := Rounds(ip, now, n - 1) + rest;
      RoundInFront(ip, now, n, rest);
      var next := OneRoundCounts(table, ip, now, tail, from);
      after := RoundsCount(next, ip, now, n - 1, rest, from);
    }
  }

  /** The bound with `n` successes is reached from an empty table, for every `n`. */
  lemma TwoMorePerSuccessAreReached(ip: string, n: nat) returns (ops: seq<Op>, from: int)
    ensures Ordered(0, ops) && Successes(ops, ip) == n
    ensures CountFrom(CountedFailures(map[], ops, ip), from) == 18 + 2 * n
  {
    from := 1;
    var first := OpFailure(ip, "", 0);
    var table := FailureBelowThreshold(map[], ip, 0);
    ValidAges(table, 0, 1);
    hide Closing, Valid;
    var rounds := Rounds(ip, 1, n) + Closing(ip, 600);
    var nine := FailuresAccumulate(table, ip, 1, 8, rounds, from);
    var still := RoundsCount(nine, ip, 1, n, Closing(ip, 600), from);
    ClosingCountsTen(still, ip, 1, 600, from);
    ops := [first] + (Repeat(ip, "", 1, 8) + rounds);
    assert ops[1..] == Repeat(ip, "", 1, 8) + rounds;
    assert CountedFailures(map[], ops, ip)[1..] == CountedFailures(table, ops[1..], ip);
    ClosingIsARun(ip, 1, 600);
    NoSuccessCounts(Closing(ip, 600), ip);
    RoundsAreARun(ip, 1, n, Closing(ip, 600));
    FailuresThenRun(ip, 1, 8, rounds);
  }

  // ---- The slow-down of an account ------------------------------------------

  /** The seconds after 0, 1, 2, … failures; from the seventh on the last ones. */
  const SLOWDOWN: seq<nat> := [0, 0, 0, 1, 2, 4, 8, 15]

  function Slowdown(failures: nat): (seconds: nat) {
    SLOWDOWN[if failures < 7 then failures else 7]
  }

  /** From three failures on each further one doubles the seconds, up to 15. */
  lemma SlowdownDoubles(failures: nat)
    ensures failures < 3 ==> Slowdown(failures) == 0
    ensures Slowdown(3) == 1
    ensures failures >= 3 ==>
      Slowdown(failures + 1) == if 2 * Slowdown(failures) < 15 then 2 * Slowdown(failures) else 15
  {
  }

  function End(table: Table, ops: seq<Op>): (t: Table)
    decreases |ops|
  {
    if ops == [] then table else End(After(table, ops[0]), ops[1..])
  }

  /** The calls that record a failure of the account, the address being free. */
  function FailuresOf(table: Table, ops: seq<Op>, account: string): (n: nat)
    decreases |ops|
  {
    if ops == [] then 0
    else
      var rest := FailuresOf(After(table, ops[0]), ops[1..], account);
      if ops[0].OpFailure? && ops[0].account == account && Counts(table, ops[0], ops[0].ip) then rest + 1 else rest
  }

  /** No call of the run is a success of the account or reaches `end`. */
  predicate Within(ops: seq<Op>, account: string, end: int) {
    forall i :: 0 <= i < |ops| ==> ops[i].now < end && !(ops[i].OpSuccess? && ops[i].account == account)
  }

  /** The account has an open window with `n` failures, or nothing open at all. */
  predicate Holds(table: Table, account: string, now: int, end: int, n: nat) {
    if Account(account) in table && Live(table[Account(account)], now)
    then table[Account(account)].failures == n && table[Account(account)].window == end - 600
    else n == 0
  }

  lemma StepCounts(table: Table, op: Op, account: string, end: int, n: nat)
    requires Valid(table, op.now) && Holds(table, account, op.now, end, n) && n > 0 && op.now < end
    requires !(op.OpSuccess? && op.account == account)
    ensures Holds(After(table, op), account, op.now, end,
              n + if op.OpFailure? && op.account == account && Counts(table, op, op.ip) then 1 else 0)
  {
    if op.OpFailure? && Counts(table, op, op.ip) {
      assert op.account == account ==>
        After(table, op)[Account(account)] == Failed(RowAt(table, Account(account)), op.now);
    } else if op.OpPrune? {
      assert WellFormed(table[Account(account)], op.now);
    }
  }

  lemma {:induction false} RunCounts(table: Table, was: int, ops: seq<Op>, account: string, end: int, n: nat, now: int)
    requires Valid(table, was) && Ordered(was, ops) && Within(ops, account, end)
    requires Holds(table, account, was, end, n) && n > 0 && was < end
    requires ops == [] ==> was <= now
    requires ops != [] ==> ops[|ops| - 1].now <= now
    requires now < end
    ensures Holds(End(table, ops), account, now, end, n + FailuresOf(table, ops, account))
    ensures was <= now
    decreases |ops|
  {
    if ops != [] {
      var op := ops[0];
      ValidAges(table, was, op.now);
      StepKeepsValid(table, op.now, op);
      StepCounts(table, op, account, end, n);
      var next := n + if op.OpFailure? && op.account == account && Counts(table, op, op.ip) then 1 else 0;
      RunCounts(After(table, op), op.now, ops[1..], account, end, next, now);
    }
  }

  lemma FirstFailureOpens(table: Table, ip: string, account: string, start: int)
    requires Valid(table, start) && !Answer(table, OpCheck(ip, account, start)).0.blocked
    requires Account(account) in table ==> table[Account(account)].window <= start - 600
    ensures Holds(After(table, OpFailure(ip, account, start)), account, start, start + 600, 1)
  {
    var next := After(table, OpFailure(ip, account, start));
    assert next[Account(account)] == Failed(RowAt(table, Account(account)), start);
  }

  /** A failure of an account without an open window starts ten minutes in which,
      whatever else is called, every gate of a free address answers the slow-down of
      the failures of the account so far. */
  lemma SlowdownFollowsFailures(
    table: Table, ip: string, account: string, start: int, ops: seq<Op>, client: string, now: int)
    requires Valid(table, start) && !Answer(table, OpCheck(ip, account, start)).0.blocked
    requires Account(account) in table ==> table[Account(account)].window <= start - 600
    requires Ordered(start, ops) && Within(ops, account, start + 600)
    requires (if ops == [] then start else ops[|ops| - 1].now) <= now < start + 600
    ensures var first := After(table, OpFailure(ip, account, start));
      var gate := Answer(End(first, ops), OpCheck(client, account, now)).0;
      gate.blocked || gate.delay == Slowdown(1 + FailuresOf(first, ops, account))
  {
    hide Valid, Within, Ordered, After, Holds, Slowdown;
    var first := After(table, OpFailure(ip, account, start));
    FirstFailureOpens(table, ip, account, start);
    StepKeepsValid(table, start, OpFailure(ip, account, start));
    RunCounts(first, start, ops, account, start + 600, 1, now);
    HeldAccountWaits(End(first, ops), client, account, now, start + 600, 1 + FailuresOf(first, ops, account));
  }

  lemma HeldAccountWaits(table: Table, client: string, account: string, now: int, end: int, n: nat)
    requires Holds(table, account, now, end, n) && now < end
    ensures var gate := Answer(table, OpCheck(client, account, now)).0; gate.blocked || gate.delay == Slowdown(n)
  {
    GateOpens(table, client, account, now);
  }

  lemma FailureAnswers(table: Table, op: Op, account: string, end: int, n: nat)
    requires Valid(table, op.now) && op.OpFailure? && op.account == account && !Answer(table, op).0.blocked
    requires op.now < end && Holds(After(table, op), account, op.now, end, n) && n > 0
    requires Live(After(table, op)[Account(account)], op.now)
    ensures Answer(table, op).0.delay == Slowdown(n)
  {
    RecordedIs(table, op.ip, account, op.now);
    GateOpens(table, op.ip, account, op.now);
  }

  lemma CountedFailureHolds(table: Table, op: Op, account: string, end: int, n: nat)
    requires Valid(table, op.now) && op.OpFailure? && op.account == account && !Answer(table, op).0.blocked
    requires op.now < end
    requires if n == 0 then Account(account) in table ==> table[Account(account)].window <= op.now - 600
             else Holds(table, account, op.now, end, n)
    requires n == 0 ==> end == op.now + 600
    ensures Holds(After(table, op), account, op.now, end, n + 1)
    ensures Live(After(table, op)[Account(account)], op.now)
  {
    var next := After(table, op);
    assert next[Account(account)] == Failed(RowAt(table, Account(account)), op.now);
  }

  predicate FailuresOnly(ops: seq<Op>, account: string) {
    forall i | 0 <= i < |ops| :: ops[i].OpFailure? && ops[i].account == account
  }

  /** Nobody is blocked, and the seconds go on from `n` failures. */
  ghost predicate Slows(answers: seq<(Gate, nat)>, n: nat) {
    forall i | 0 <= i < |answers| :: answers[i].0.delay == Slowdown(n + i + 1)
  }

  ghost predicate NoneBlocked(answers: seq<(Gate, nat)>) {
    forall i | 0 <= i < |answers| :: !answers[i].0.blocked
  }

  lemma SlowsMore(first: (Gate, nat), rest: seq<(Gate, nat)>, n: nat)
    requires first.0.delay == Slowdown(n + 1) && Slows(rest, n + 1)
    ensures Slows([first] + rest, n)
  {
  }

  lemma FirstIsFree(first: (Gate, nat), rest: seq<(Gate, nat)>)
    requires NoneBlocked([first] + rest)
    ensures !first.0.blocked && NoneBlocked(rest)
  {
    assert ([first] + rest)[0] == first;
    assert forall i | 0 <= i < |rest| :: rest[i] == ([first] + rest)[i + 1];
  }

  lemma {:induction false} OpenWindowSlows(table: Table, was: int, ops: seq<Op>, account: string, end: int, n: nat)
    requires Valid(table, was) && Ordered(was, ops) && Within(ops, account, end)
    requires FailuresOnly(ops, account) && NoneBlocked(Answers(table, ops))
    requires Holds(table, account, was, end, n) && was < end && n > 0
    ensures Slows(Answers(table, ops), n)
    decreases |ops|
  {
    if ops != [] {
      hide NoneBlocked, Slows, Holds, Slowdown, Valid;
      var op := ops[0];
      var answer, next := Answer(table, op), After(table, op);
      FirstIsFree(answer, Answers(next, ops[1..]));
      HoldsLater(table, account, was, op.now, end, n);
      ValidAges(table, was, op.now);
      StepKeepsValid(table, op.now, op);
      CountedFailureHolds(table, op, account, end, n);
      FailureAnswers(table, op, account, end, n + 1);
      OpenWindowSlows(next, op.now, ops[1..], account, end, n + 1);
      SlowsMore(answer, Answers(next, ops[1..]), n);
    }
  }

  lemma HoldsLater(table: Table, account: string, was: int, now: int, end: int, n: nat)
    requires Holds(table, account, was, end, n) && n > 0 && was <= now < end
    ensures Holds(table, account, now, end, n)
  {
  }

  /** Failures of one account inside ten minutes, each from a free address and none
      blocking its address, are answered 0, 0, 1, 2, 4, 8, 15, 15, … seconds. */
  lemma FailuresAreSlowedDown(table: Table, was: int, ops: seq<Op>, account: string)
    requires Valid(table, was) && Ordered(was, ops) && FailuresOnly(ops, account)
    requires ops != [] && Within(ops, account, ops[0].now + 600)
    requires Account(account) in table ==> table[Account(account)].window <= ops[0].now - 600
    requires forall i | 0 <= i < |Answers(table, ops)| :: !Answers(table, ops)[i].0.blocked
    ensures |Answers(table, ops)| == |ops|
    ensures forall i | 0 <= i < |ops| :: Answers(table, ops)[i].0.delay == SLOWDOWN[if i < 6 then i + 1 else 7]
  {
    hide Holds, Valid;
    var op := ops[0];
    var answer, next, end := Answer(table, op), After(table, op), op.now + 600;
    assert NoneBlocked(Answers(table, ops));
    FirstIsFree(answer, Answers(next, ops[1..]));
    ValidAges(table, was, op.now);
    StepKeepsValid(table, op.now, op);
    CountedFailureHolds(table, op, account, end, 0);
    FailureAnswers(table, op, account, end, 1);
    OpenWindowSlows(next, op.now, ops[1..], account, end, 1);
    SlowsMore(answer, Answers(next, ops[1..]), 0);
    AnswersFailures(table, ops, account);
  }

  lemma {:induction false} AnswersFailures(table: Table, ops: seq<Op>, account: string)
    requires FailuresOnly(ops, account)
    ensures |Answers(table, ops)| == |ops|
    decreases |ops|
  {
    if ops != [] {
      AnswersFailures(After(table, ops[0]), ops[1..], account);
    }
  }

  lemma {:induction false} StaysForgotten(table: Table, ops: seq<Op>, account: string)
    requires Account(account) !in table && FailuresOf(table, ops, account) == 0
    ensures Account(account) !in End(table, ops)
    decreases |ops|
  {
    if ops != [] {
      StaysForgotten(After(table, ops[0]), ops[1..], account);
    }
  }

  /** After a success of the account, until its next counted failure, no gate of a
      free address slows it down. */
  lemma SuccessEndsSlowdown(
    table: Table, ip: string, account: string, when: int, ops: seq<Op>, client: string, now: int)
    requires FailuresOf(After(table, OpSuccess(ip, account, when)), ops, account) == 0
    ensures Answer(End(After(table, OpSuccess(ip, account, when)), ops), OpCheck(client, account, now)).0.delay == 0
  {
    var after := After(table, OpSuccess(ip, account, when));
    StaysForgotten(after, ops, account);
    GateOpens(End(after, ops), client, account, now);
  }

  // ---- The escalation ladder ------------------------------------------------

  /** The block a call imposes on `ip`, if any. */
  function Imposed(table: Table, op: Op, ip: string): (block: Option<Block>) {
    if op.OpFailure? && op.ip == ip && 1 <= Answer(table, op).1 <= 3
    then Some(Block(op.now, op.now + Answer(table, op).0.retryAfter, Answer(table, op).1))
    else None
  }

  /** All blocks of `ip` in a run, as the audit trail reports them. */
  function Blocks(table: Table, ops: seq<Op>, ip: string): (log: seq<Block>)
    decreases |ops|
  {
    if ops == [] then []
    else
      var rest := Blocks(After(table, ops[0]), ops[1..], ip);
      match Imposed(table, ops[0], ip)
      case Some(block) => [block] + rest
      case None => rest
  }

  lemma StepLinks(table: Table, op: Op, ip: string, latest: Option<Block>)
    requires Valid(table, op.now) && Linked(RowAt(table, Ip(ip)), op.now, latest)
    ensures var block := Imposed(table, op, ip);
      var next := RowAt(After(table, op), Ip(ip));
      if block.Some?
      then Continues(latest, [block.value]) && Linked(next, op.now, block)
      else Linked(next, op.now, latest)
  {
    var row := RowAt(table, Ip(ip));
    if Counts(table, op, ip) {
      var next := Failed(row, op.now);
      assert Escalating(next, op.now) <==> row.Some? && Escalating(row.value, op.now);
      if next.failures >= IP_FAILURE_THRESHOLD {
        assert RowAt(After(table, op), Ip(ip)) == Some(Punished(next, op.now));
      } else {
        assert RowAt(After(table, op), Ip(ip)) == Some(next);
      }
    }
  }

  lemma {:induction false} BlocksContinue(table: Table, was: int, ops: seq<Op>, ip: string, latest: Option<Block>)
    requires Valid(table, was) && Ordered(was, ops) && Linked(RowAt(table, Ip(ip)), was, latest)
    ensures Continues(latest, Blocks(table, ops, ip))
    decreases |ops|
  {
    if ops != [] {
      var op := ops[0];
      LinkedAges(RowAt(table, Ip(ip)), was, op.now, latest);
      ValidAges(table, was, op.now);
      StepKeepsValid(table, op.now, op);
      StepLinks(table, op, ip, latest);
      var block := Imposed(table, op, ip);
      BlocksContinue(After(table, op), op.now, ops[1..], ip, if block.Some? then block else latest);
    }
  }

  /** From an empty table, the blocks of any address climb the ladder, whatever
      calls, successes and prunes the run holds. */
  lemma BlocksFormLadder(start: int, ops: seq<Op>, ip: string)
    requires Ordered(start, ops)
    ensures Ladder(Blocks(map[], ops, ip))
  {
    BlocksContinue(map[], start, ops, ip, None);
    ContinuesIsLadder(Blocks(map[], ops, ip));
  }
}
