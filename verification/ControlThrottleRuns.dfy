/** Whole runs of the Control login throttle. */
module ControlThrottleRuns {
  import opened Wrappers
  import opened Throttle
  import opened ControlThrottle

  // ---- Pruning is invisible -------------------------------------------------

  /** Everything a run answers; prunes and clears answer nothing. */
  function Answers(table: Table, ops: seq<Op>): (answers: seq<int>)
    decreases |ops|
  {
    if ops == [] then []
    else if ops[0].OpPrune? then Answers(After(table, ops[0]), ops[1..])
    else [Answer(table, ops[0])] + Answers(After(table, ops[0]), ops[1..])
  }

  function WithoutPrunes(ops: seq<Op>): (rest: seq<Op>) {
    if ops == [] then []
    else if ops[0].OpPrune? then WithoutPrunes(ops[1..])
    else [ops[0]] + WithoutPrunes(ops[1..])
  }

  ghost predicate Same(a: Table, b: Table, now: int) {
    forall ip :: ViewOf(RowAt(a, ip), now) == ViewOf(RowAt(b, ip), now)
  }

  lemma SameAges(a: Table, b: Table, was: int, now: int)
    requires Same(a, b, was) && was <= now
    ensures Same(a, b, now)
  {
    forall ip ensures ViewOf(RowAt(a, ip), now) == ViewOf(RowAt(b, ip), now) {
      ViewsAge(RowAt(a, ip), RowAt(b, ip), was, now);
    }
  }

  lemma PruneIsSame(table: Table, now: int)
    requires Valid(table, now)
    ensures Same(Pruned(table, now), table, now)
  {
    forall ip ensures ViewOf(RowAt(Pruned(table, now), ip), now) == ViewOf(RowAt(table, ip), now) {
      if ip in table && Prunable(table[ip], now) {
        PrunableIsInvisible(table[ip], now);
      }
    }
  }

  lemma FailedIsSame(a: Option<Row>, b: Option<Row>, now: int)
    requires ViewOf(a, now) == ViewOf(b, now) && Retry(a, now) == 0
    ensures Retry(b, now) == 0
    ensures Failed(a, now).blockedUntil == Failed(b, now).blockedUntil
    ensures ViewOf(Some(Failed(a, now)), now) == ViewOf(Some(Failed(b, now)), now)
  {
    assert FailuresAfter(a, now) == FailuresAfter(b, now);
  }

  lemma StepIsSame(a: Table, b: Table, op: Op)
    requires Same(a, b, op.now) && !op.OpPrune?
    ensures Answer(a, op) == Answer(b, op)
    ensures Same(After(a, op), After(b, op), op.now)
  {
    assert ViewOf(RowAt(a, op.ip), op.now) == ViewOf(RowAt(b, op.ip), op.now);
    if op.OpFailure? && Retry(RowAt(a, op.ip), op.now) == 0 {
      FailedIsSame(RowAt(a, op.ip), RowAt(b, op.ip), op.now);
    }
    forall ip ensures ViewOf(RowAt(After(a, op), ip), op.now) == ViewOf(RowAt(After(b, op), ip), op.now) {
      assert ViewOf(RowAt(a, ip), op.now) == ViewOf(RowAt(b, ip), op.now);
    }
  }

  lemma ValidAges(table: Table, was: int, now: int)
    requires Valid(table, was) && was <= now
    ensures Valid(table, now)
  {
  }

  lemma {:induction false} SameTablesAnswerAlike(a: Table, b: Table, was: int, ops: seq<Op>)
    requires Valid(a, was) && Same(a, b, was) && Ordered(was, ops)
    ensures Answers(a, ops) == Answers(b, WithoutPrunes(ops))
    decreases |ops|
  {
    if ops != [] {
      var op := ops[0];
      SameAges(a, b, was, op.now);
      ValidAges(a, was, op.now);
      StepKeepsValid(a, op.now, op);
      if op.OpPrune? {
        PruneIsSame(a, op.now);
        SameTablesAnswerAlike(After(a, op), b, op.now, ops[1..]);
      } else {
        StepIsSame(a, b, op);
        SameTablesAnswerAlike(After(a, op), After(b, op), op.now, ops[1..]);
        assert WithoutPrunes(ops)[1..] == WithoutPrunes(ops[1..]);
      }
    }
  }

  /** However prunes are interleaved, every answer is the one the run without its
      prunes gives. */
  lemma PruningIsInvisible(table: Table, from: int, ops: seq<Op>)
    requires Valid(table, from) && Ordered(from, ops)
    ensures Answers(table, ops) == Answers(table, WithoutPrunes(ops))
  {
    SameTablesAnswerAlike(table, table, from, ops);
  }

  // ---- Failures per ten minutes --------------------------------------------

  function CountedFailures(table: Table, ops: seq<Op>, ip: string): (times: seq<int>)
    decreases |ops|
  {
    if ops == [] then []
    else
      var rest := CountedFailures(After(table, ops[0]), ops[1..], ip);
      if Counts(table, ops[0], ip) then [ops[0].now] + rest else rest
  }

  predicate NoClear(ops: seq<Op>, ip: string) {
    forall i :: 0 <= i < |ops| ==> !(ops[i].OpClear? && ops[i].ip == ip)
  }

  /** How many failures can still be counted in [from, from + WINDOW). */
  function Budget(row: Option<Row>, now: int, from: int): (n: int) {
    if now >= from + WINDOW then 0
    else if now < from || row.None? then 5
    else if Blocked(row.value, now) then
      (if row.value.blockedUntil.value >= from + WINDOW then 0 else 5)
    else if Live(row.value, now) && row.value.window >= from then 5 - row.value.failures
    else 5
  }

  lemma BudgetAges(row: Option<Row>, was: int, now: int, from: int)
    requires row.Some? ==> WellFormed(row.value, was) && row.value.failures < FAILURE_THRESHOLD
    requires row.Some? && row.value.blockedUntil.Some? ==> row.value.window + WINDOW <= row.value.blockedUntil.value
    requires was <= now
    ensures Budget(row, was, from) >= Budget(row, now, from) >= 0
  {
  }

  lemma StepSpends(table: Table, op: Op, ip: string, from: int)
    requires Valid(table, op.now) && !(op.OpClear? && op.ip == ip)
    ensures Budget(RowAt(table, ip), op.now, from)
         >= Budget(RowAt(After(table, op), ip), op.now, from)
          + (if Counts(table, op, ip) && from <= op.now < from + WINDOW then 1 else 0)
  {
    if op.OpPrune? && ip in table && Prunable(table[ip], op.now) {
      PrunableIsInvisible(table[ip], op.now);
    }
  }

  lemma {:induction false} FailuresFitBudget(table: Table, was: int, ops: seq<Op>, ip: string, from: int)
    requires Valid(table, was) && Ordered(was, ops) && NoClear(ops, ip)
    ensures CountFrom(CountedFailures(table, ops, ip), from) <= Budget(RowAt(table, ip), was, from)
    decreases |ops|
  {
    if ops == [] {
      BudgetAges(RowAt(table, ip), was, was, from);
    } else {
      var op := ops[0];
      BudgetAges(RowAt(table, ip), was, op.now, from);
      ValidAges(table, was, op.now);
      StepKeepsValid(table, op.now, op);
      StepSpends(table, op, ip, from);
      FailuresFitBudget(After(table, op), op.now, ops[1..], ip, from);
      var rest := CountedFailures(After(table, op), ops[1..], ip);
      assert ([op.now] + rest)[1..] == rest;
    }
  }

  /** Without a clear of `ip` in the run, no half-open ten minutes hold more than
      five counted failures of it, whatever the table held before. */
  lemma AtMostFiveFailures(table: Table, start: int, ops: seq<Op>, ip: string, from: int)
    requires Valid(table, start) && Ordered(start, ops) && NoClear(ops, ip)
    ensures CountFrom(CountedFailures(table, ops, ip), from) <= 5
  {
    FailuresFitBudget(table, start, ops, ip, from);
    assert ip in table ==> table[ip].failures >= 0;
  }

  // ---- The escalation ladder ------------------------------------------------

  /** The block a call imposes on `ip`, if any. */
  function Imposed(table: Table, op: Op, ip: string): (block: Option<Block>) {
    if Counts(table, op, ip) && Answer(table, op) != 0
    then Some(Block(op.now, op.now + Answer(table, op), Failed(RowAt(table, ip), op.now).level))
    else None
  }

  function Blocks(table: Table, ops: seq<Op>, ip: string): (log: seq<Block>)
    decreases |ops|
  {
    if ops == [] then []
    else
      var rest := Blocks(After(table, ops[0]), ops[1..], ip);
      match Imposed(table, ops[0], ip)
      case Some(block) => [block] + rest
      case None => rest
  }

  lemma StepLinks(table: Table, op: Op, ip: string, latest: Option<Block>)
    requires Valid(table, op.now) && Linked(RowAt(table, ip), op.now, latest)
    requires !(op.OpClear? && op.ip == ip)
    ensures var block := Imposed(table, op, ip);
      var next := RowAt(After(table, op), ip);
      if block.Some?
      then Continues(latest, [block.value]) && Linked(next, op.now, block)
      else Linked(next, op.now, latest)
  {
    if Counts(table, op, ip) {
      assert RowAt(After(table, op), ip) == Some(Failed(RowAt(table, ip), op.now));
    }
  }

  lemma {:induction false} BlocksContinue(table: Table, was: int, ops: seq<Op>, ip: string, latest: Option<Block>)
    requires Valid(table, was) && Ordered(was, ops) && NoClear(ops, ip) && Linked(RowAt(table, ip), was, latest)
    ensures Continues(latest, Blocks(table, ops, ip))
    decreases |ops|
  {
    if ops != [] {
      var op := ops[0];
      LinkedAges(RowAt(table, ip), was, op.now, latest);
      ValidAges(table, was, op.now);
      StepKeepsValid(table, op.now, op);
      StepLinks(table, op, ip, latest);
      var block := Imposed(table, op, ip);
      BlocksContinue(After(table, op), op.now, ops[1..], ip, if block.Some? then block else latest);
    }
  }

  /** From an empty table, without a clear of the address, its blocks climb the ladder. */
  lemma BlocksFormLadder(start: int, ops: seq<Op>, ip: string)
    requires Ordered(start, ops) && NoClear(ops, ip)
    ensures Ladder(Blocks(map[], ops, ip))
  {
    BlocksContinue(map[], start, ops, ip, None);
    ContinuesIsLadder(Blocks(map[], ops, ip));
  }
}
