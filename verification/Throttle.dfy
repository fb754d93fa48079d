/**
 What the public and the Control login throttles share: the row of a throttle
 table, what of a row later calls can still observe, and the escalation ladder.
 Times are whole seconds.
 */
module Throttle {
  import opened Wrappers

  const WINDOW := 600
  const ESCALATION := 86400
  const RETENTION := 604800

  /** A row of `auth_throttles` or `control_throttles`. */
  datatype Row = Row(
    failures: nat,
    window: int,
    blockedUntil: Option<int>,
    level: nat,
    escalation: Option<int>,
    updated: int)

  // ---- A failure in figures -------------------------------------------------

  /** The row that a counted failure leaves when it does not block: the open window of
      ten minutes grows, a closed one starts again, the rest stays. */
  predicate Grown(before: Option<Row>, after: Row, now: int) {
    match before
    case None => after == Row(1, now, None, 0, None, now)
    case Some(row) =>
      if now - row.window < 600
      then after == Row(row.failures + 1, row.window, row.blockedUntil, row.level, row.escalation, now)
      else after == Row(1, now, row.blockedUntil, row.level, row.escalation, now)
  }

  /** The level of a new block: one more than the last within 24 hours, at most 3. */
  predicate Climbs(before: Option<Row>, level: nat, now: int) {
    if before.Some? && before.value.escalation.Some? && now < before.value.escalation.value
    then level == (if before.value.level < 3 then before.value.level + 1 else 3)
    else level == 1
  }

  /** The length of a block: a quarter of an hour, an hour, a day. */
  predicate Lasts(level: nat, seconds: int) {
    || (level == 1 && seconds == 900)
    || (level == 2 && seconds == 3600)
    || (level == 3 && seconds == 86400)
  }

  // ---- Rows -----------------------------------------------------------------

  predicate Blocked(row: Row, now: int) {
    row.blockedUntil.Some? && row.blockedUntil.value > now
  }

  predicate Live(row: Row, now: int) {
    row.window > now - WINDOW
  }

  predicate Escalating(row: Row, now: int) {
    row.escalation.Some? && row.escalation.value > now
  }

  function BlockSeconds(level: int): (seconds: int)
    requires 1 <= level <= 3
  {
    [15 * 60, 60 * 60, 1440 * 60][level - 1]
  }

  /** The level of a block imposed at `now` on a row that is not blocked. */
  function NextLevel(row: Row, now: int): (level: nat)
    ensures 1 <= level <= 3
    ensures level > 1 ==> Escalating(row, now)
  {
    if Escalating(row, now) then (if row.level + 1 < 3 then row.level + 1 else 3) else 1
  }

  /** The age rule of both `prune` methods. */
  predicate Prunable(row: Row, now: int) {
    row.updated < now - RETENTION && (row.blockedUntil.None? || row.blockedUntil.value < now)
  }

  /** What a later call can still observe of a row: stale parts are gone. */
  datatype View = View(
    attempts: Option<(nat, int)>,
    block: Option<int>,
    ladder: Option<(nat, int)>)

  function ViewOf(row: Option<Row>, now: int): (view: View) {
    match row
    case None => View(None, None, None)
    case Some(r) =>
      View(
        if Live(r, now) then Some((r.failures, r.window)) else None,
        if Blocked(r, now) then r.blockedUntil else None,
        if Escalating(r, now) then Some((r.level, r.escalation.value)) else None)
  }

  /** What every step keeps of a row. */
  predicate WellFormed(row: Row, now: int) {
    && row.window <= row.updated <= now
    && row.level <= 3
    && (row.escalation.Some? ==> row.escalation.value <= row.updated + ESCALATION && 1 <= row.level)
    // A block outlasts the window that caused it, or is older than the window.
    && (row.blockedUntil.Some? ==>
      row.window + WINDOW <= row.blockedUntil.value || row.blockedUntil.value <= row.window)
  }

  /** A row old enough to be pruned shows nothing any more. */
  lemma PrunableIsInvisible(row: Row, now: int)
    requires WellFormed(row, now) && Prunable(row, now)
    ensures ViewOf(Some(row), now) == ViewOf(None, now)
  {
  }

  /** Equal views stay equal while nothing happens. */
  lemma ViewsAge(a: Option<Row>, b: Option<Row>, now: int, later: int)
    requires now <= later && ViewOf(a, now) == ViewOf(b, now)
    ensures ViewOf(a, later) == ViewOf(b, later)
  {
  }

  /** A block imposed on one address, as the audit trail records it. */
  datatype Block = Block(start: int, until: int, level: int)

  predicate Follows(previous: Block, next: Block) {
    && previous.until <= next.start
    && 1 <= next.level <= 3
    && next.until - next.start == (if next.level == 1 then 900 else if next.level == 2 then 3600 else 86400)
    && next.level ==
       if next.start < previous.start + 86400
       then if previous.level < 3 then previous.level + 1 else 3
       else 1
  }

  /** `log` continues a ladder whose latest block was `previous`. */
  predicate Continues(previous: Option<Block>, log: seq<Block>)
    decreases |log|
  {
    log != [] ==>
      && (if previous.None?
          then log[0].level == 1 && log[0].until == log[0].start + 900
          else Follows(previous.value, log[0]))
      && Continues(Some(log[0]), log[1..])
  }

  /** The ladder over a whole log: the first block is short, each later one follows
      its predecessor, and a 24 hour block is always followed by a 15 minute one. */
  ghost predicate Ladder(log: seq<Block>) {
    && (log != [] ==> log[0].level == 1 && log[0].until == log[0].start + 900)
    && (forall i :: 0 <= i < |log| ==> 1 <= log[i].level <= 3)
    && (forall i :: 0 < i < |log| ==> Follows(log[i - 1], log[i]))
    && (forall i :: 0 < i < |log| && log[i - 1].level == 3 ==> log[i].level == 1)
    && (forall i, j :: 0 <= i < j < |log| ==> log[i].until <= log[j].start)
  }

  lemma {:induction false} ContinuesIsPairwise(previous: Option<Block>, log: seq<Block>)
    requires Continues(previous, log)
    ensures forall i :: 0 < i < |log| ==> Follows(log[i - 1], log[i])
    decreases |log|
  {
    if log != [] {
      ContinuesIsPairwise(Some(log[0]), log[1..]);
      forall i | 0 < i < |log| ensures Follows(log[i - 1], log[i]) {
        if i > 1 {
          assert log[1..][i - 2] == log[i - 1] && log[1..][i - 1] == log[i];
        } else {
          assert log[1..][0] == log[1];
        }
      }
    }
  }

  lemma {:induction false} BlocksAreDisjoint(log: seq<Block>, i: nat, j: nat)
    requires i < j < |log|
    requires log[0].level == 1 && log[0].until == log[0].start + 900
    requires forall k :: 0 < k < |log| ==> Follows(log[k - 1], log[k])
    ensures log[i].until <= log[j].start < log[j].until
    decreases j
  {
    assert Follows(log[j - 1], log[j]);
    if i < j - 1 {
      BlocksAreDisjoint(log, i, j - 1);
    }
  }

  lemma ContinuesIsLadder(log: seq<Block>)
    requires Continues(None, log)
    ensures Ladder(log)
  {
    ContinuesIsPairwise(None, log);
    forall i, j | 0 <= i < j < |log| ensures log[i].until <= log[j].start {
      BlocksAreDisjoint(log, i, j);
    }
    forall i | 0 < i < |log| && log[i - 1].level == 3 ensures log[i].level == 1 {
      assert Follows(log[i - 1], log[i]);
      if i > 1 {
        assert Follows(log[i - 2], log[i - 1]);
      }
    }
    forall i | 0 <= i < |log| ensures 1 <= log[i].level <= 3 {
      if i > 0 {
        assert Follows(log[i - 1], log[i]);
      }
    }
  }

  /** How many of `times` lie in the half-open ten minutes from `from` on. */
  function CountFrom(times: seq<int>, from: int): (n: nat) {
    if times == [] then 0
    else (if from <= times[0] < from + 600 then 1 else 0) + CountFrom(times[1..], from)
  }

  /** What links a row to the latest block of its address. */
  predicate Linked(row: Option<Row>, now: int, latest: Option<Block>) {
    match latest
    case None => row.Some? ==> row.value.escalation.None?
    case Some(b) =>
      && 1 <= b.level <= 3
      && b.start <= now
      && b.until == b.start + BlockSeconds(b.level)
      && (if now < b.start + ESCALATION
          then
            && row.Some?
            && row.value.level == b.level
            && row.value.escalation == Some(b.start + ESCALATION)
            && (now < b.until ==> row.value.blockedUntil == Some(b.until))
          else row.Some? ==> !Escalating(row.value, now))
  }

  lemma LinkedAges(row: Option<Row>, now: int, later: int, latest: Option<Block>)
    requires now <= later && Linked(row, now, latest)
    ensures Linked(row, later, latest)
  {
  }
}
