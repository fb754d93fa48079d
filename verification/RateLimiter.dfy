/**
 The in-memory sliding window limiter of request_app/rate_limit.py. Its monotonic
 clock is a real number; an identity is a bucket with at most 256 characters of key.
 */
module RateLimiter {
  import opened Wrappers

  const CAPACITY := 10_000

  type Identity = (string, string)

  type Events = map<Identity, seq<real>>

  datatype Call = Call(id: Identity, limit: nat, window: real, now: real)

  function IdentityOf(bucket: string, key: string): (id: Identity) {
    (bucket, if |key| <= 256 then key else key[..256])
  }

  function EventsOf(events: Events, id: Identity): (times: seq<real>) {
    if id in events then events[id] else []
  }

  /** What is left after the oldest entries up to `cutoff` were popped. */
  function Since(times: seq<real>, cutoff: real): (rest: seq<real>)
    ensures |rest| <= |times|
    ensures rest != [] ==> rest[0] > cutoff
  {
    if times != [] && times[0] <= cutoff then Since(times[1..], cutoff) else times
  }

  /** `_prune_locked`: the caller's cutoff applied to every identity. */
  function Pruned(events: Events, cutoff: real): (e: Events) {
    map id | id in events && Since(events[id], cutoff) != [] :: Since(events[id], cutoff)
  }

  function Cutoff(call: Call): (cutoff: real) {
    call.now - call.window
  }

  function Live(events: Events, call: Call): (times: seq<real>) {
    Since(EventsOf(events, call.id), Cutoff(call))
  }

  predicate Accepts(events: Events, call: Call) {
    |Live(events, call)| < call.limit
  }

  /** An accepted call makes room when there are too many identities. */
  predicate Prunes(events: Events, call: Call) {
    Accepts(events, call) && |events[call.id := Live(events, call) + [call.now]]| > CAPACITY
  }

  /** Seconds a caller whose oldest live call is at `oldest` is told to wait. */
  function RetryAfter(oldest: real, window: real, now: real): (seconds: int) {
    var left := (window - (now - oldest)).Floor;
    if left > 1 then left else 1
  }

  function After(events: Events, call: Call): (e: Events) {
    if !Accepts(events, call) then events[call.id := Live(events, call)]
    else
      var added := events[call.id := Live(events, call) + [call.now]];
      if |added| > CAPACITY then Pruned(added, Cutoff(call)) else added
  }

  /** Pruning halfway: the identities in `left` are still untouched. */
  function PrunedExcept(events: Events, cutoff: real, left: set<Identity>): (e: Events) {
    map id | id in events && (id in left || Since(events[id], cutoff) != []) ::
      if id in left then events[id] else Since(events[id], cutoff)
  }

  lemma PruneOneMore(events: Events, cutoff: real, left: set<Identity>, id: Identity)
    requires id in left && left <= events.Keys
    ensures var now := PrunedExcept(events, cutoff, left);
      && id in now && now[id] == events[id]
      && PrunedExcept(events, cutoff, left - {id})
         == if Since(events[id], cutoff) == [] then now - {id} else now[id := Since(events[id], cutoff)]
  {
  }

  // ---- A call in figures ----------------------------------------------------

  /** `rest` is what is left of `times` without its oldest entries up to `cutoff`. */
  ghost predicate Popped(times: seq<real>, rest: seq<real>, cutoff: real) {
    && |rest| <= |times|
    && rest == times[|times| - |rest|..]
    && (forall i | 0 <= i < |times| - |rest| :: times[i] <= cutoff)
    && (rest != [] ==> rest[0] > cutoff)
  }

  /** Every identity lost its oldest entries, and those without an entry are gone. */
  ghost predicate Trimmed(before: Events, after: Events, cutoff: real) {
    && (forall id | id in after :: id in before && after[id] != [] && Popped(before[id], after[id], cutoff))
    && (forall id | id in before && id !in after :: Popped(before[id], [], cutoff))
  }

  /** The whole seconds of `left`, at least one. */
  predicate Waits(retry: int, left: real) {
    if left < 2.0 then retry == 1 else retry as real <= left < retry as real + 1.0
  }

  /** With `limit` live entries the call is told the time until the oldest leaves the
      window; otherwise it is entered, and more than 10000 identities are trimmed. */
  ghost predicate Checked(
    before: Events, after: Events, id: Identity, limit: nat, window: real, now: real, live: seq<real>, retry: int)
  {
    && Popped(if id in before then before[id] else [], live, now - window)
    && if |live| >= limit
       then after == before[id := live] && live != [] && Waits(retry, live[0] + window - now)
       else
         var added := before[id := live + [now]];
         retry == 0 && if |added| <= 10000 then after == added else Trimmed(added, after, now - window)
  }

  /** An identity is the bucket with the first 256 characters of the key. */
  ghost predicate Answered(
    before: Events, after: Events, bucket: string, key: string, limit: nat, window: real, now: real, retry: int)
  {
    var id := (bucket, if |key| > 256 then key[..256] else key);
    exists live :: Checked(before, after, id, limit, window, now, live, retry)
  }

  lemma PoppedOneMore(times: seq<real>, rest: seq<real>, cutoff: real)
    requires times != [] && times[0] <= cutoff && Popped(times[1..], rest, cutoff)
    ensures Popped(times, rest, cutoff)
  {
    forall i | 0 <= i < |times| - |rest| ensures times[i] <= cutoff {
      if i > 0 {
        assert times[1..][i - 1] == times[i];
      }
    }
  }

  lemma {:induction false} SinceIsPopped(times: seq<real>, cutoff: real)
    ensures Popped(times, Since(times, cutoff), cutoff)
  {
    if times != [] && times[0] <= cutoff {
      SinceIsPopped(times[1..], cutoff);
      PoppedOneMore(times, Since(times, cutoff), cutoff);
    }
  }

  lemma PrunedIsTrimmed(events: Events, cutoff: real)
    ensures Trimmed(events, Pruned(events, cutoff), cutoff)
  {
    forall id | id in events ensures Popped(events[id], Since(events[id], cutoff), cutoff) {
      SinceIsPopped(events[id], cutoff);
    }
  }

  lemma CallIsChecked(events: Events, call: Call)
    requires call.limit >= 1
    ensures var live := Live(events, call);
      Checked(events, After(events, call), call.id, call.limit, call.window, call.now, live,
              if Accepts(events, call) then 0 else RetryAfter(live[0], call.window, call.now))
  {
    hide Popped, Trimmed;
    SinceIsPopped(EventsOf(events, call.id), Cutoff(call));
    PrunedIsTrimmed(events[call.id := Live(events, call) + [call.now]], Cutoff(call));
  }

  class SlidingWindowLimiter {
    var events: Events

    constructor ()
      ensures events == map[]
    {
      events := map[];
    }

    /** Pops the entries of one identity up to `cutoff`. */
    method PopOld(times: seq<real>, cutoff: real) returns (rest: seq<real>)
      ensures rest == Since(times, cutoff)
    {
      rest := times;
      while rest != [] && rest[0] <= cutoff
        invariant Since(rest, cutoff) == Since(times, cutoff)
        decreases |rest|
      {
        rest := rest[1..];
      }
    }

    method PruneLocked(cutoff: real)
      modifies this
      ensures events == Pruned(old(events), cutoff)
      ensures Trimmed(old(events), events, cutoff)
    {
      PrunedIsTrimmed(events, cutoff);
      hide Trimmed;
      ghost var before := events;
      var left := events.Keys;
      while left != {}
        invariant left <= before.Keys
        invariant events == PrunedExcept(before, cutoff, left)
        decreases |left|
      {
        var id :| id in left;
        PruneOneMore(before, cutoff, left, id);
        var rest := PopOld(events[id], cutoff);
        events := if rest == [] then events - {id} else events[id := rest];
        left := left - {id};
      }
      assert PrunedExcept(before, cutoff, {}) == Pruned(before, cutoff);
    }

    /** 0 when the call is accepted, else the seconds to wait. */
    method Check(bucket: string, key: string, limit: nat, seconds: nat, now: real) returns (retry: int)
      requires limit >= 1
      modifies this
      ensures var call := Call(IdentityOf(bucket, key), limit, seconds as real, now);
        && events == After(old(events), call)
        && (retry == 0 <==> Accepts(old(events), call))
        && (retry != 0 ==> retry == RetryAfter(Live(old(events), call)[0], seconds as real, now))
      ensures Answered(old(events), events, bucket, key, limit, seconds as real, now, retry)
    {
      CallIsChecked(events, Call(IdentityOf(bucket, key), limit, seconds as real, now));
      hide Checked;
      var window := seconds as real;
      var cutoff := now - window;
      var id := IdentityOf(bucket, key);
      var times := PopOld(EventsOf(events, id), cutoff);
      if |times| >= limit {
        events := events[id := times];
        return RetryAfter(times[0], window, now);
      }
      events := events[id := times + [now]];
      if |events| > CAPACITY {
        PruneLocked(cutoff);
      }
      retry := 0;
    }
  }

  // ---- The reference: a log that forgets nothing ----------------------------

  function CountAfter(log: seq<real>, cutoff: real): (n: nat) {
    if log == [] then 0
    else
      var rest := CountAfter(log[1..], cutoff);
      if log[0] > cutoff then rest + 1 else rest
  }

  /** Which calls of `id` a full log of its accepted calls would accept. */
  function FullLogAnswers(log: seq<real>, calls: seq<Call>, id: Identity): (answers: seq<bool>)
    decreases |calls|
  {
    if calls == [] then []
    else if calls[0].id != id then FullLogAnswers(log, calls[1..], id)
    else
      var ok := CountAfter(log, Cutoff(calls[0])) < calls[0].limit;
      [ok] + FullLogAnswers(if ok then log + [calls[0].now] else log, calls[1..], id)
  }

  /** Which calls of `id` the limiter accepts. */
  function Answers(events: Events, calls: seq<Call>, id: Identity): (answers: seq<bool>)
    decreases |calls|
  {
    if calls == [] then []
    else if calls[0].id != id then Answers(After(events, calls[0]), calls[1..], id)
    else [Accepts(events, calls[0])] + Answers(After(events, calls[0]), calls[1..], id)
  }

  predicate Ordered(from: real, calls: seq<Call>)
    decreases |calls|
  {
    calls != [] ==> from <= calls[0].now && Ordered(calls[0].now, calls[1..])
  }

  /** The events after the call itself, before a prune. */
  function Touched(events: Events, call: Call): (e: Events) {
    events[call.id := if Accepts(events, call) then Live(events, call) + [call.now] else Live(events, call)]
  }

  predicate OneWindow(calls: seq<Call>, id: Identity, window: real) {
    calls != [] ==> (calls[0].id == id ==> calls[0].window == window) && OneWindow(calls[1..], id, window)
  }

  predicate HasBetween(times: seq<real>, low: real, high: real) {
    exists i :: 0 <= i < |times| && low < times[i] <= high
  }

  /** The call prunes and meets an entry of `id` that the window of `id` still holds. */
  predicate Forgets(events: Events, call: Call, id: Identity, window: real) {
    Prunes(events, call) && HasBetween(EventsOf(Touched(events, call), id), call.now - window, Cutoff(call))
  }

  /** No prune of the run forgets a live call of `id`. */
  predicate Harmless(events: Events, calls: seq<Call>, id: Identity, window: real)
    decreases |calls|
  {
    calls != [] ==> !Forgets(events, calls[0], id, window) && Harmless(After(events, calls[0]), calls[1..], id, window)
  }

  predicate Sorted(times: seq<real>) {
    forall i, j :: 0 <= i < j < |times| ==> times[i] <= times[j]
  }

  lemma {:induction false} SinceCounts(times: seq<real>, cutoff: real)
    requires Sorted(times)
    ensures |Since(times, cutoff)| == CountAfter(times, cutoff)
  {
    if times != [] {
      if times[0] <= cutoff {
        SinceCounts(times[1..], cutoff);
      } else {
        AllCount(times, cutoff);
      }
    }
  }

  lemma {:induction false} AllCount(times: seq<real>, cutoff: real)
    requires forall i :: 0 <= i < |times| ==> times[i] > cutoff
    ensures CountAfter(times, cutoff) == |times|
  {
    if times != [] {
      AllCount(times[1..], cutoff);
    }
  }

  /** A later cutoff may be applied right away or in two steps. */
  lemma {:induction false} SinceTwice(times: seq<real>, first: real, second: real)
    requires first <= second
    ensures Since(Since(times, first), second) == Since(times, second)
  {
    if times != [] && times[0] <= first {
      SinceTwice(times[1..], first, second);
    }
  }

  lemma {:induction false} SinceAppends(times: seq<real>, last: real, cutoff: real)
    requires last > cutoff
    ensures Since(times + [last], cutoff) == Since(times, cutoff) + [last]
  {
    if times != [] {
      assert (times + [last])[1..] == times[1..] + [last];
      if times[0] <= cutoff {
        SinceAppends(times[1..], last, cutoff);
      }
    }
  }

  /** The limiter remembers every accepted call of `id` after `cutoff`. */
  ghost predicate Tracks(events: Events, log: seq<real>, id: Identity, cutoff: real) {
    Since(EventsOf(events, id), cutoff) == Since(log, cutoff)
  }

  lemma TracksAges(events: Events, log: seq<real>, id: Identity, cutoff: real, later: real)
    requires Tracks(events, log, id, cutoff) && cutoff <= later
    ensures Tracks(events, log, id, later)
  {
    SinceTwice(EventsOf(events, id), cutoff, later);
    SinceTwice(log, cutoff, later);
  }

  /** Popping up to `pruned` leaves what lies after `cutoff` when nothing lies between. */
  lemma {:induction false} SinceSkips(times: seq<real>, pruned: real, cutoff: real)
    requires !HasBetween(times, cutoff, pruned)
    ensures Since(Since(times, pruned), cutoff) == Since(times, cutoff)
  {
    if times != [] && times[0] <= pruned {
      assert times[0] <= cutoff;
      forall i | 0 <= i < |times[1..]| ensures !(cutoff < times[1..][i] <= pruned) {
        assert times[1..][i] == times[i + 1];
      }
      SinceSkips(times[1..], pruned, cutoff);
    }
  }

  /** Forgetting up to a cutoff changes nothing that matters when no call lies between. */
  lemma PruneTracks(events: Events, pruned: real, log: seq<real>, id: Identity, cutoff: real)
    requires Tracks(events, log, id, cutoff) && !HasBetween(EventsOf(events, id), cutoff, pruned)
    ensures Tracks(Pruned(events, pruned), log, id, cutoff)
  {
    SinceSkips(EventsOf(events, id), pruned, cutoff);
    assert EventsOf(Pruned(events, pruned), id) == Since(EventsOf(events, id), pruned);
  }

  /** The log of `id` after one more call. */
  function Noted(events: Events, log: seq<real>, call: Call, id: Identity): (next: seq<real>) {
    if call.id == id && Accepts(events, call) then log + [call.now] else log
  }

  lemma TouchTracks(events: Events, call: Call, log: seq<real>, id: Identity, cutoff: real)
    requires Tracks(events, log, id, cutoff) && cutoff < call.now
    requires call.id == id ==> Cutoff(call) == cutoff
    ensures Tracks(Touched(events, call), Noted(events, log, call, id), id, cutoff)
  {
    if call.id == id {
      SinceTwice(EventsOf(events, id), cutoff, cutoff);
      SinceAppends(Live(events, call), call.now, cutoff);
      SinceAppends(log, call.now, cutoff);
    }
  }

  lemma CallTracks(events: Events, call: Call, log: seq<real>, id: Identity, window: real)
    requires Tracks(events, log, id, call.now - window) && window > 0.0
    requires (call.id == id ==> call.window == window) && !Forgets(events, call, id, window)
    ensures Tracks(After(events, call), Noted(events, log, call, id), id, call.now - window)
  {
    TouchTracks(events, call, log, id, call.now - window);
    if Prunes(events, call) {
      PruneTracks(Touched(events, call), Cutoff(call), Noted(events, log, call, id), id, call.now - window);
    }
  }

  predicate UpTo(log: seq<real>, now: real) {
    Sorted(log) && (log != [] ==> log[|log| - 1] <= now)
  }

  lemma NotedStaysUpTo(events: Events, log: seq<real>, was: real, call: Call, id: Identity)
    requires UpTo(log, was) && was <= call.now
    ensures UpTo(Noted(events, log, call, id), call.now)
  {
    AppendKeepsUpTo(log, call.now);
  }

  lemma AppendKeepsUpTo(log: seq<real>, now: real)
    requires UpTo(log, now)
    ensures UpTo(log + [now], now)
  {
  }

  lemma TrackedCallIsCounted(events: Events, log: seq<real>, call: Call)
    requires Sorted(log) && Tracks(events, log, call.id, Cutoff(call))
    ensures Accepts(events, call) <==> CountAfter(log, Cutoff(call)) < call.limit
    ensures Live(events, call) == Since(log, Cutoff(call))
  {
    SinceCounts(log, Cutoff(call));
  }

  lemma StepTracks(events: Events, log: seq<real>, was: real, call: Call, id: Identity, window: real)
    requires window > 0.0 && was <= call.now && UpTo(log, was) && Tracks(events, log, id, was - window)
    requires (call.id == id ==> call.window == window) && !Forgets(events, call, id, window)
    ensures UpTo(Noted(events, log, call, id), call.now)
    ensures Tracks(After(events, call), Noted(events, log, call, id), id, call.now - window)
  {
    TracksAges(events, log, id, was - window, call.now - window);
    CallTracks(events, call, log, id, window);
    NotedStaysUpTo(events, log, was, call, id);
  }

  /** A tracked identity is answered from the log. */
  lemma StepCounts(events: Events, log: seq<real>, was: real, call: Call)
    requires was <= call.now && UpTo(log, was) && Tracks(events, log, call.id, was - call.window)
    ensures Accepts(events, call) <==> CountAfter(log, Cutoff(call)) < call.limit
    ensures Live(events, call) == Since(log, Cutoff(call))
  {
    TracksAges(events, log, call.id, was - call.window, Cutoff(call));
    TrackedCallIsCounted(events, log, call);
  }

  /** The limiter accepts exactly the calls of `id` that a full log would accept. */
  lemma {:induction false} AnswersAsFullLog(
    events: Events, log: seq<real>, was: real, calls: seq<Call>, id: Identity, window: real)
    requires window > 0.0 && Ordered(was, calls) && OneWindow(calls, id, window) && Harmless(events, calls, id, window)
    requires UpTo(log, was) && Tracks(events, log, id, was - window)
    ensures Answers(events, calls, id) == FullLogAnswers(log, calls, id)
    decreases |calls|
  {
    if calls != [] {
      var call := calls[0];
      StepTracks(events, log, was, call, id, window);
      if call.id == id {
        StepCounts(events, log, was, call);
      }
      AnswersAsFullLog(After(events, call), Noted(events, log, call, id), call.now, calls[1..], id, window);
    }
  }

  /** From an empty limiter. */
  lemma FreshLimiterAnswersAsFullLog(start: real, calls: seq<Call>, id: Identity, window: real)
    requires window > 0.0 && Ordered(start, calls) && OneWindow(calls, id, window) && Harmless(map[], calls, id, window)
    ensures Answers(map[], calls, id) == FullLogAnswers([], calls, id)
  {
    AnswersAsFullLog(map[], [], start, calls, id, window);
  }

  // ---- Where the side condition ends ----------------------------------------

  lemma {:induction false} SinceAgain(times: seq<real>, cutoff: real, later: real)
    requires Sorted(times) && cutoff <= later
    ensures Since(times, later) == Since(times, cutoff) <==> !HasBetween(times, cutoff, later)
  {
    if times != [] {
      if times[0] <= cutoff {
        SinceAgain(times[1..], cutoff, later);
        assert HasBetween(times, cutoff, later) ==> HasBetween(times[1..], cutoff, later) by {
          if HasBetween(times, cutoff, later) {
            var i :| 0 <= i < |times| && cutoff < times[i] <= later;
            assert times[1..][i - 1] == times[i];
          }
        }
        assert HasBetween(times[1..], cutoff, later) ==> HasBetween(times, cutoff, later) by {
          if HasBetween(times[1..], cutoff, later) {
            var i :| 0 <= i < |times[1..]| && cutoff < times[1..][i] <= later;
            assert times[i + 1] == times[1..][i];
          }
        }
      } else if times[0] <= later {
        assert HasBetween(times, cutoff, later);
      }
    }
  }

  /** A prune with a cutoff of another window keeps all that matters to `id` exactly
      when no call of `id` lies between the two cutoffs. */
  lemma PruneForgetsExactly(events: Events, pruned: real, id: Identity, cutoff: real)
    requires Sorted(EventsOf(events, id))
    ensures Since(EventsOf(Pruned(events, pruned), id), cutoff) == Since(EventsOf(events, id), cutoff)
      <==> !HasBetween(EventsOf(events, id), cutoff, pruned)
  {
    var times := EventsOf(events, id);
    assert EventsOf(Pruned(events, pruned), id) == Since(times, pruned);
    if pruned <= cutoff {
      SinceTwice(times, pruned, cutoff);
    } else {
      SinceIsLater(times, pruned, cutoff);
      SinceAgain(times, cutoff, pruned);
    }
  }

  lemma {:induction false} SinceIsLater(times: seq<real>, pruned: real, cutoff: real)
    requires cutoff <= pruned
    ensures Since(Since(times, pruned), cutoff) == Since(times, pruned)
  {
  }

  /** A prune by a call of another identity: the next call is answered as if its
      window began at the later of the two cutoffs. */
  lemma ForeignPruneDecides(events: Events, pruning: Call, call: Call)
    requires Sorted(EventsOf(events, call.id)) && pruning.id != call.id && Prunes(events, pruning)
    ensures Accepts(After(events, pruning), call) <==>
      var cutoff := if Cutoff(pruning) > Cutoff(call) then Cutoff(pruning) else Cutoff(call);
      CountAfter(EventsOf(events, call.id), cutoff) < call.limit
  {
    var times := EventsOf(events, call.id);
    var added := events[pruning.id := Live(events, pruning) + [pruning.now]];
    assert EventsOf(added, call.id) == times;
    assert EventsOf(After(events, pruning), call.id) == Since(times, Cutoff(pruning));
    if Cutoff(pruning) > Cutoff(call) {
      SinceIsLater(times, Cutoff(pruning), Cutoff(call));
      SinceCounts(times, Cutoff(pruning));
    } else {
      SinceTwice(times, Cutoff(pruning), Cutoff(call));
      SinceCounts(times, Cutoff(call));
    }
  }

  lemma {:induction false} FewerAfterLater(times: seq<real>, cutoff: real, later: real)
    requires cutoff <= later
    ensures CountAfter(times, later) <= CountAfter(times, cutoff)
    ensures HasBetween(times, cutoff, later) ==> CountAfter(times, later) < CountAfter(times, cutoff)
  {
    if times != [] {
      FewerAfterLater(times[1..], cutoff, later);
      if HasBetween(times, cutoff, later) && !(cutoff < times[0] <= later) {
        var i :| 0 <= i < |times| && cutoff < times[i] <= later;
        assert times[1..][i - 1] == times[i];
      }
    }
  }

  /** Without the side condition the limit fails: a full identity is let in as soon
      as a prune with a shorter window forgets one of its live calls. */
  lemma ShortPruneAdmits(events: Events, pruning: Call, call: Call)
    requires Sorted(EventsOf(events, call.id)) && pruning.id != call.id && Prunes(events, pruning)
    requires CountAfter(EventsOf(events, call.id), Cutoff(call)) == call.limit
    ensures !Accepts(events, call)
    ensures Accepts(After(events, pruning), call) <==>
      Cutoff(call) < Cutoff(pruning) && HasBetween(EventsOf(events, call.id), Cutoff(call), Cutoff(pruning))
  {
    var times := EventsOf(events, call.id);
    SinceCounts(times, Cutoff(call));
    ForeignPruneDecides(events, pruning, call);
    if Cutoff(call) < Cutoff(pruning) {
      FewerAfterLater(times, Cutoff(call), Cutoff(pruning));
      if !HasBetween(times, Cutoff(call), Cutoff(pruning)) {
        SinceAgain(times, Cutoff(call), Cutoff(pruning));
        SinceCounts(times, Cutoff(pruning));
      }
    }
  }

  // ---- Limits and retries ---------------------------------------------------

  /** Entries `limit` apart in the log are at least a window apart in time, so no
      half-open window holds more than `limit` of them. */
  ghost predicate Spread(log: seq<real>, limit: nat, window: real) {
    forall i, j :: 0 <= i <= j - limit && j < |log| ==> log[i] <= log[j] - window
  }

  lemma {:induction false} CountFromIndex(log: seq<real>, cutoff: real, index: nat)
    requires Sorted(log) && index <= |log|
    ensures CountAfter(log, cutoff) <= |log| - index <==> index == 0 || log[index - 1] <= cutoff
  {
    if index == 0 {
      CountIsBounded(log, cutoff);
    } else if log[0] <= cutoff {
      CountFromIndex(log[1..], cutoff, index - 1);
    } else {
      AllCount(log, cutoff);
    }
  }

  lemma {:induction false} CountIsBounded(log: seq<real>, cutoff: real)
    ensures CountAfter(log, cutoff) <= |log|
  {
    if log != [] {
      CountIsBounded(log[1..], cutoff);
    }
  }

  /** An accepted call of a full log keeps at most `limit` calls per window. */
  lemma AcceptingKeepsSpread(log: seq<real>, now: real, limit: nat, window: real)
    requires UpTo(log, now) && Spread(log, limit, window) && limit > 0
    requires CountAfter(log, now - window) < limit
    ensures UpTo(log + [now], now) && Spread(log + [now], limit, window)
  {
    if |log| >= limit {
      CountFromIndex(log, now - window, |log| - limit + 1);
    }
  }

  /** `log` extended by the accepted calls of `id` in a run. */
  function AcceptedTimes(events: Events, log: seq<real>, calls: seq<Call>, id: Identity): (times: seq<real>)
    decreases |calls|
  {
    if calls == [] then log
    else
      AcceptedTimes(After(events, calls[0]), Noted(events, log, calls[0], id), calls[1..], id)
  }

  function Run(events: Events, calls: seq<Call>): (end: Events)
    decreases |calls|
  {
    if calls == [] then events else Run(After(events, calls[0]), calls[1..])
  }

  /** Some call of `id` in the run is accepted. */
  predicate AcceptsAny(events: Events, calls: seq<Call>, id: Identity)
    decreases |calls|
  {
    calls != [] &&
    ((calls[0].id == id && Accepts(events, calls[0])) || AcceptsAny(After(events, calls[0]), calls[1..], id))
  }

  lemma {:induction false} NothingAccepted(events: Events, log: seq<real>, calls: seq<Call>, id: Identity)
    requires !AcceptsAny(events, calls, id)
    ensures AcceptedTimes(events, log, calls, id) == log
    decreases |calls|
  {
    if calls != [] {
      NothingAccepted(After(events, calls[0]), log, calls[1..], id);
    }
  }

  predicate Uniform(calls: seq<Call>, id: Identity, limit: nat) {
    calls != [] ==> (calls[0].id == id ==> calls[0].limit == limit) && Uniform(calls[1..], id, limit)
  }

  function LastTime(calls: seq<Call>, start: real): (now: real) {
    if calls == [] then start else calls[|calls| - 1].now
  }

  /** What the limiter knows about `id`, and what the log of `id` satisfies. */
  ghost predicate Knows(events: Events, log: seq<real>, id: Identity, limit: nat, window: real, now: real) {
    UpTo(log, now) && Spread(log, limit, window) && Tracks(events, log, id, now - window)
  }

  lemma StepKnows(events: Events, call: Call, log: seq<real>, id: Identity, limit: nat, window: real, was: real)
    requires window > 0.0 && limit > 0 && was <= call.now && Knows(events, log, id, limit, window, was)
    requires (call.id == id ==> call.window == window && call.limit == limit) && !Forgets(events, call, id, window)
    ensures Knows(After(events, call), Noted(events, log, call, id), id, limit, window, call.now)
    ensures call.id == id ==> (Accepts(events, call) <==> CountAfter(log, call.now - window) < limit)
    ensures call.id == id ==> Live(events, call) == Since(log, call.now - window)
  {
    hide After, Forgets, Tracks;
    StepTracks(events, log, was, call, id, window);
    if call.id == id {
      StepCounts(events, log, was, call);
      if Accepts(events, call) {
        AcceptingKeepsSpread(log, call.now, limit, window);
      }
    }
  }

  lemma OwnCallForgetsNothing(events: Events, call: Call)
    ensures !Forgets(events, call, call.id, call.window)
  {
  }

  lemma {:induction false} RunKnows(
    events: Events, log: seq<real>, was: real, calls: seq<Call>, id: Identity, limit: nat, window: real)
    requires window > 0.0 && limit > 0 && Ordered(was, calls) && OneWindow(calls, id, window)
    requires Harmless(events, calls, id, window) && Uniform(calls, id, limit)
    requires Knows(events, log, id, limit, window, was)
    ensures Knows(Run(events, calls), AcceptedTimes(events, log, calls, id), id, limit, window, LastTime(calls, was))
    decreases |calls|
  {
    if calls != [] {
      var call := calls[0];
      StepKnows(events, call, log, id, limit, window, was);
      RunKnows(After(events, call), Noted(events, log, call, id), call.now, calls[1..], id, limit, window);
    }
  }

  /** Any `limit` + 1 accepted calls of an identity span at least its window. */
  lemma AcceptedCallsAreSpread(start: real, calls: seq<Call>, id: Identity, limit: nat, window: real)
    requires window > 0.0 && limit > 0
    requires Ordered(start, calls) && OneWindow(calls, id, window)
    requires Harmless(map[], calls, id, window) && Uniform(calls, id, limit)
    ensures Spread(AcceptedTimes(map[], [], calls, id), limit, window)
  {
    RunKnows(map[], [], start, calls, id, limit, window);
  }

  lemma {:induction false} SinceIsSuffix(times: seq<real>, cutoff: real)
    ensures Since(times, cutoff) == times[|times| - |Since(times, cutoff)|..]
  {
    if times != [] && times[0] <= cutoff {
      SinceIsSuffix(times[1..], cutoff);
    }
  }

  /** A full window holds exactly `limit` calls. */
  lemma FullWindowIsTheLimit(log: seq<real>, now: real, limit: nat, window: real)
    requires UpTo(log, now) && Spread(log, limit, window) && limit > 0
    requires CountAfter(log, now - window) >= limit
    ensures CountAfter(log, now - window) == limit <= |log|
  {
    CountIsBounded(log, now - window);
    if |log| > limit {
      CountFromIndex(log, now - window, |log| - limit);
    }
  }

  /** A rejected caller who waits one second longer than told finds room in the log. */
  lemma WaitingMakesRoom(log: seq<real>, now: real, limit: nat, window: real, oldest: real, later: real)
    requires UpTo(log, now) && Spread(log, limit, window) && limit > 0
    requires CountAfter(log, now - window) >= limit
    requires Since(log, now - window) != [] && oldest == Since(log, now - window)[0]
    requires later >= now + (RetryAfter(oldest, window, now) + 1) as real
    ensures CountAfter(log, later - window) < limit
  {
    FullWindowIsTheLimit(log, now, limit, window);
    SinceCounts(log, now - window);
    SinceIsSuffix(log, now - window);
    assert oldest == log[|log| - limit];
    CountFromIndex(log, later - window, |log| - limit + 1);
  }

  /** The wait of one rejected call, from what the limiter knows. */
  lemma RetryFromKnown(
    events: Events, log: seq<real>, was: real, call: Call, waiting: seq<Call>, again: Call, limit: nat,
    window: real)
    requires window > 0.0 && limit > 0 && call.id == again.id
    requires call.window == window == again.window && call.limit == limit == again.limit
    requires Knows(events, log, call.id, limit, window, was) && was <= call.now && !Accepts(events, call)
    requires Ordered(call.now, waiting) && OneWindow(waiting, call.id, window)
      && Harmless(After(events, call), waiting, call.id, window)
    requires Uniform(waiting, call.id, limit) && !AcceptsAny(After(events, call), waiting, call.id)
    requires LastTime(waiting, call.now) <= again.now
    requires again.now >= call.now + (RetryAfter(Live(events, call)[0], window, call.now) + 1) as real
    ensures Accepts(Run(After(events, call), waiting), again)
  {
    hide Forgets, After, Harmless, OneWindow, Uniform, AcceptsAny, Ordered, Spread, Tracks, UpTo;
    OwnCallForgetsNothing(events, call);
    OwnCallForgetsNothing(Run(After(events, call), waiting), again);
    StepKnows(events, call, log, call.id, limit, window, was);
    WaitingMakesRoom(log, call.now, limit, window, Live(events, call)[0], again.now);
    RunKnows(After(events, call), log, call.now, waiting, call.id, limit, window);
    NothingAccepted(After(events, call), log, waiting, call.id);
    StepKnows(Run(After(events, call), waiting), again, log, call.id, limit, window, LastTime(waiting, call.now));
  }

  /** After any run: a rejected caller of `id` who comes back one second after the
      time he was told, with no other call of `id` accepted meanwhile, gets through. */
  lemma RetryIsHonoured(
    start: real, calls: seq<Call>, call: Call, waiting: seq<Call>, again: Call, limit: nat, window: real)
    requires window > 0.0 && limit > 0 && call.id == again.id
    requires call.window == window == again.window && call.limit == limit == again.limit
    requires Ordered(start, calls) && OneWindow(calls, call.id, window)
      && Harmless(map[], calls, call.id, window) && Uniform(calls, call.id, limit)
    requires LastTime(calls, start) <= call.now && !Accepts(Run(map[], calls), call)
    requires var rejected := After(Run(map[], calls), call);
      && Ordered(call.now, waiting) && OneWindow(waiting, call.id, window)
      && Harmless(rejected, waiting, call.id, window) && Uniform(waiting, call.id, limit)
      && !AcceptsAny(rejected, waiting, call.id)
    requires LastTime(waiting, call.now) <= again.now
    requires again.now >= call.now + (RetryAfter(Live(Run(map[], calls), call)[0], window, call.now) + 1) as real
    ensures Accepts(Run(After(Run(map[], calls), call), waiting), again)
  {
    RunKnows(map[], [], start, calls, call.id, limit, window);
    RetryFromKnown(Run(map[], calls), AcceptedTimes(map[], [], calls, call.id), LastTime(calls, start),
      call, waiting, again, limit, window);
  }

  /** The part of the log that a rejected call met is still there later. */
  lemma {:induction false} AcceptedTimesGrow(events: Events, log: seq<real>, calls: seq<Call>, id: Identity)
    ensures log <= AcceptedTimes(events, log, calls, id)
    decreases |calls|
  {
    if calls != [] {
      AcceptedTimesGrow(After(events, calls[0]), Noted(events, log, calls[0], id), calls[1..], id);
    }
  }

  lemma {:induction false} RunTracks(
    events: Events, log: seq<real>, was: real, calls: seq<Call>, id: Identity, window: real)
    requires window > 0.0 && Ordered(was, calls) && OneWindow(calls, id, window)
    requires Harmless(events, calls, id, window)
    requires UpTo(log, was) && Tracks(events, log, id, was - window)
    ensures var end, after, now := Run(events, calls), AcceptedTimes(events, log, calls, id), LastTime(calls, was);
      was <= now && UpTo(after, now) && Tracks(end, after, id, now - window)
    decreases |calls|
  {
    if calls != [] {
      hide After, Forgets, Tracks, UpTo;
      var call := calls[0];
      StepTracks(events, log, was, call, id, window);
      RunTracks(After(events, call), Noted(events, log, call, id), call.now, calls[1..], id, window);
    }
  }

  lemma {:induction false} LongerLogCounts(log: seq<real>, longer: seq<real>, cutoff: real)
    requires log <= longer
    ensures CountAfter(longer, cutoff) >= CountAfter(log, cutoff)
  {
    if log != [] {
      LongerLogCounts(log[1..], longer[1..], cutoff);
    }
  }

  /** As long as the oldest live entry stays in the window, all of them do. */
  lemma OldestStays(log: seq<real>, cutoff: real, later: real)
    requires Sorted(log) && cutoff <= later && Since(log, cutoff) != [] && later < Since(log, cutoff)[0]
    ensures CountAfter(log, later) == CountAfter(log, cutoff)
  {
    SinceTwice(log, cutoff, later);
    SinceCounts(log, cutoff);
    SinceCounts(log, later);
  }

  /** What the oldest live entry was still in the log blocks an early second call. */
  lemma EarlyIsRejected(
    log: seq<real>, later: seq<real>, cutoff: real, events: Events, again: Call, was: real)
    requires Sorted(log) && Since(log, cutoff) != [] && cutoff <= Cutoff(again) < Since(log, cutoff)[0]
    requires CountAfter(log, cutoff) >= again.limit && log <= later && UpTo(later, was)
    requires Tracks(events, later, again.id, was - again.window) && was <= again.now
    ensures !Accepts(events, again)
  {
    OldestStays(log, cutoff, Cutoff(again));
    LongerLogCounts(log, later, Cutoff(again));
    TracksAges(events, later, again.id, was - again.window, Cutoff(again));
    TrackedCallIsCounted(events, later, again);
  }

  /** What a rejected call meets in the log, and what the log is afterwards. */
  lemma RejectedCallMeets(events: Events, log: seq<real>, was: real, call: Call)
    requires call.window > 0.0 && was <= call.now && UpTo(log, was)
    requires Tracks(events, log, call.id, was - call.window) && !Accepts(events, call)
    ensures UpTo(log, call.now) && Tracks(After(events, call), log, call.id, call.now - call.window)
    ensures Live(events, call) == Since(log, Cutoff(call)) && CountAfter(log, Cutoff(call)) >= call.limit
    ensures |Live(events, call)| >= call.limit
  {
    OwnCallForgetsNothing(events, call);
    StepTracks(events, log, was, call, call.id, call.window);
    TracksAges(events, log, call.id, was - call.window, Cutoff(call));
    TrackedCallIsCounted(events, log, call);
  }

  /** After any run: a rejected caller of `id` who comes back before the time he was
      told, if that is more than a second, is rejected again, whatever other calls are
      made meanwhile, unless one of them forgets a live call of `id`. */
  lemma RetryIsNotTooLong(
    start: real, calls: seq<Call>, call: Call, waiting: seq<Call>, again: Call, window: real, told: int)
    requires window > 0.0 && call.id == again.id && call.limit == again.limit > 0
    requires call.window == window == again.window
    requires Ordered(start, calls) && OneWindow(calls, call.id, window) && Harmless(map[], calls, call.id, window)
    requires LastTime(calls, start) <= call.now && !Accepts(Run(map[], calls), call)
    requires told == RetryAfter(Live(Run(map[], calls), call)[0], window, call.now) > 1
    requires var rejected := After(Run(map[], calls), call);
      && Ordered(call.now, waiting) && OneWindow(waiting, call.id, window)
      && Harmless(rejected, waiting, call.id, window)
    requires LastTime(waiting, call.now) <= again.now < call.now + told as real
    ensures !Accepts(Run(After(Run(map[], calls), call), waiting), again)
  {
    hide After, Harmless, OneWindow, Ordered, Forgets, UpTo, Tracks, Accepts, Live;
    var id, events, log := call.id, Run(map[], calls), AcceptedTimes(map[], [], calls, call.id);
    var rejected := After(events, call);
    assert UpTo([], start) && Tracks(map[], [], id, start - window) by {
      NothingIsTracked(id, start, window);
    }
    RunTracks(map[], [], start, calls, id, window);
    RejectedCallMeets(events, log, LastTime(calls, start), call);
    RunTracks(rejected, log, call.now, waiting, id, window);
    AcceptedTimesGrow(rejected, log, waiting, id);
    LogIsSorted(log, call.now);
    EarlyIsRejected(log, AcceptedTimes(rejected, log, waiting, id), Cutoff(call), Run(rejected, waiting), again,
      LastTime(waiting, call.now));
  }

  lemma NothingIsTracked(id: Identity, now: real, window: real)
    ensures UpTo([], now) && Tracks(map[], [], id, now - window)
  {
  }

  lemma LogIsSorted(log: seq<real>, now: real)
    requires UpTo(log, now)
    ensures Sorted(log)
  {
  }

  // ---- Exactly when the limiter answers as a full log -----------------------

  /** The limiter's entries of an identity are the last ones of its log. */
  predicate Suffix(times: seq<real>, log: seq<real>) {
    |times| <= |log| && times == log[|log| - |times|..]
  }

  lemma SuffixShrinks(times: seq<real>, log: seq<real>, cutoff: real)
    requires Suffix(times, log)
    ensures Suffix(Since(times, cutoff), log)
  {
    SinceIsSuffix(times, cutoff);
  }

  lemma StepKeepsSuffix(events: Events, log: seq<real>, call: Call, id: Identity)
    requires Suffix(EventsOf(events, id), log)
    ensures Suffix(EventsOf(After(events, call), id), Noted(events, log, call, id))
  {
    var touched := EventsOf(Touched(events, call), id);
    SuffixShrinks(EventsOf(events, id), log, Cutoff(call));
    assert Suffix(touched, Noted(events, log, call, id));
    if Prunes(events, call) {
      SuffixShrinks(touched, Noted(events, log, call, id), Cutoff(call));
      assert EventsOf(After(events, call), id) == Since(touched, Cutoff(call));
    }
  }

  lemma {:induction false} CountAppends(log: seq<real>, time: real, cutoff: real)
    ensures CountAfter(log + [time], cutoff) == CountAfter(log, cutoff) + if time > cutoff then 1 else 0
  {
    if log == [] {
      assert [time][1..] == [];
    } else {
      CountAppends(log[1..], time, cutoff);
      assert (log + [time])[1..] == log[1..] + [time];
    }
  }

  /** A forgetful prune leaves the limiter with fewer live calls of `id` than the log. */
  lemma ForgettingLosesCount(events: Events, log: seq<real>, call: Call, id: Identity, window: real)
    requires Sorted(log) && Suffix(EventsOf(events, id), log) && Tracks(events, log, id, call.now - window)
    requires (call.id == id ==> call.window == window) && Forgets(events, call, id, window)
    ensures call.id != id
    ensures |Since(EventsOf(After(events, call), id), call.now - window)| < CountAfter(log, call.now - window)
  {
    assert call.id != id;
    var times, cutoff, pruned := EventsOf(events, id), call.now - window, Cutoff(call);
    assert EventsOf(Touched(events, call), id) == times;
    assert EventsOf(After(events, call), id) == Since(times, pruned);
    assert cutoff < pruned;
    SinceIsLater(times, pruned, cutoff);
    SinceCounts(times, pruned);
    SinceCounts(times, cutoff);
    SinceCounts(log, cutoff);
    FewerAfterLater(times, cutoff, pruned);
  }

  /** Calls of `id` only, with its limit and window. */
  predicate Own(calls: seq<Call>, id: Identity, limit: nat, window: real) {
    forall i :: 0 <= i < |calls| ==> calls[i].id == id && calls[i].limit == limit && calls[i].window == window
  }

  lemma OwnCallIsRemembered(events: Events, call: Call)
    requires call.window > 0.0 && Accepts(events, call)
    ensures Since(EventsOf(After(events, call), call.id), Cutoff(call)) == Live(events, call) + [call.now]
  {
    var live := Live(events, call);
    SinceIsLater(EventsOf(events, call.id), Cutoff(call), Cutoff(call));
    SinceAppends(live, call.now, Cutoff(call));
  }

  /** What a step does to the answers of a run that begins with it. */
  lemma AnswersAfter(events: Events, log: seq<real>, call: Call, rest: seq<Call>, id: Identity)
    requires call.id == id ==> (Accepts(events, call) <==> CountAfter(log, Cutoff(call)) < call.limit)
    ensures Answers(events, [call] + rest, id) == FullLogAnswers(log, [call] + rest, id)
      <==> Answers(After(events, call), rest, id) == FullLogAnswers(Noted(events, log, call, id), rest, id)
  {
    assert ([call] + rest)[1..] == rest;
    if call.id == id {
      var own, full := Answers(After(events, call), rest, id), FullLogAnswers(Noted(events, log, call, id), rest, id);
      assert ([Accepts(events, call)] + own)[1..] == own && ([Accepts(events, call)] + full)[1..] == full;
    }
  }

  lemma OverfullCallTells(events: Events, log: seq<real>, call: Call)
    requires Accepts(events, call) && CountAfter(log, Cutoff(call)) >= call.limit
    ensures Answers(events, [call], call.id) != FullLogAnswers(log, [call], call.id)
  {
    assert Answers(events, [call], call.id)[0] && !FullLogAnswers(log, [call], call.id)[0];
  }

  /** A call that both accept, in front of calls that tell the two apart. */
  lemma BurstGrows(events: Events, log: seq<real>, call: Call, rest: seq<Call>)
    requires Accepts(events, call) && CountAfter(log, Cutoff(call)) < call.limit
    requires Own(rest, call.id, call.limit, call.window) && Ordered(call.now, rest)
    requires Answers(After(events, call), rest, call.id) != FullLogAnswers(log + [call.now], rest, call.id)
    ensures Own([call] + rest, call.id, call.limit, call.window) && Ordered(call.now, [call] + rest)
    ensures Answers(events, [call] + rest, call.id) != FullLogAnswers(log, [call] + rest, call.id)
  {
    AnswersAfter(events, log, call, rest, call.id);
    RestOfSum(call, rest);
  }

  /** A limiter that holds fewer live calls than the log gives itself away: calls of
      `id` at that very instant are refused by the log first. */
  lemma {:induction false} BurstTells(events: Events, log: seq<real>, now: real, id: Identity, limit: nat, window: real)
    returns (more: seq<Call>)
    requires window > 0.0
    requires |Since(EventsOf(events, id), now - window)| < CountAfter(log, now - window) <= limit
    ensures Own(more, id, limit, window) && Ordered(now, more)
    ensures Answers(events, more, id) != FullLogAnswers(log, more, id)
    decreases limit - CountAfter(log, now - window)
  {
    var call := Call(id, limit, window, now);
    if CountAfter(log, now - window) == limit {
      more := [call];
      OverfullCallTells(events, log, call);
    } else {
      OwnCallIsRemembered(events, call);
      CountAppends(log, now, now - window);
      var rest := BurstTells(After(events, call), log + [now], now, id, limit, window);
      more := [call] + rest;
      BurstGrows(events, log, call, rest);
    }
  }

  /** Calls of `id` that follow the first `n` calls of a run tell the limiter from a
      full log. */
  ghost predicate Tells(
    events: Events, log: seq<real>, was: real, calls: seq<Call>, n: nat, more: seq<Call>, id: Identity,
    limit: nat, window: real)
  {
    && n <= |calls|
    && Own(more, id, limit, window)
    && Ordered(LastTime(calls[..n], was), more)
    && Answers(events, calls[..n] + more, id) != FullLogAnswers(log, calls[..n] + more, id)
  }

  lemma ForeignCallTells(
    events: Events, log: seq<real>, was: real, calls: seq<Call>, more: seq<Call>,
    id: Identity, limit: nat, window: real)
    requires calls != [] && calls[0].id != id && Own(more, id, limit, window) && Ordered(calls[0].now, more)
    requires Answers(After(events, calls[0]), more, id) != FullLogAnswers(log, more, id)
    ensures Tells(events, log, was, calls, 1, more, id, limit, window)
  {
    AnswersAfter(events, log, calls[0], more, id);
    hide Answers, FullLogAnswers, After, Own, Ordered;
    assert calls[..1] == [calls[0]];
  }

  /** After a forgetful call the limiter counts less than the log, and the log no more
      than the limit. */
  lemma ForgettingIsShort(
    events: Events, log: seq<real>, was: real, call: Call, id: Identity, limit: nat, window: real)
    requires limit > 0 && was <= call.now && (call.id == id ==> call.window == window)
    requires Knows(events, log, id, limit, window, was) && Suffix(EventsOf(events, id), log)
    requires Forgets(events, call, id, window)
    ensures call.id != id
    ensures |Since(EventsOf(After(events, call), id), call.now - window)| < CountAfter(log, call.now - window) <= limit
  {
    hide Since, CountAfter, EventsOf, Forgets, Tracks, Suffix, After, Spread, Sorted;
    TracksAges(events, log, id, was - window, call.now - window);
    ForgettingLosesCount(events, log, call, id, window);
    CountIsWithinLimit(log, call.now, limit, window);
  }

  lemma ForgetfulCallTells(
    events: Events, log: seq<real>, was: real, calls: seq<Call>, id: Identity, limit: nat, window: real)
    returns (more: seq<Call>)
    requires window > 0.0 && limit > 0 && calls != []
    requires was <= calls[0].now && (calls[0].id == id ==> calls[0].window == window)
    requires Knows(events, log, id, limit, window, was) && Suffix(EventsOf(events, id), log)
    requires Forgets(events, calls[0], id, window)
    ensures Tells(events, log, was, calls, 1, more, id, limit, window)
  {
    hide Since, CountAfter, EventsOf, Forgets, Knows, Suffix, After, Answers, FullLogAnswers, Own, Ordered, Tells;
    ForgettingIsShort(events, log, was, calls[0], id, limit, window);
    more := BurstTells(After(events, calls[0]), log, calls[0].now, id, limit, window);
    ForeignCallTells(events, log, was, calls, more, id, limit, window);
  }

  lemma LaterCallTells(
    events: Events, log: seq<real>, was: real, calls: seq<Call>, n: nat, more: seq<Call>, id: Identity,
    limit: nat, window: real)
    requires calls != []
    requires calls[0].id == id ==> (Accepts(events, calls[0]) <==> CountAfter(log, Cutoff(calls[0])) < calls[0].limit)
    requires var noted := Noted(events, log, calls[0], id);
      Tells(After(events, calls[0]), noted, calls[0].now, calls[1..], n, more, id, limit, window)
    ensures Tells(events, log, was, calls, n + 1, more, id, limit, window)
  {
    hide After, Noted, Own;
    AnswersAfter(events, log, calls[0], calls[1..][..n] + more, id);
    FrontOfPrefix(calls, n + 1);
    FrontOfSum(calls[..n + 1], more);
    assert LastTime(calls[..n + 1], was) == LastTime(calls[1..][..n], calls[0].now);
  }

  /** A run that is not harmless can be told from a full log. */
  lemma {:induction false} HarmTells(
    events: Events, log: seq<real>, was: real, calls: seq<Call>, id: Identity, limit: nat, window: real)
    returns (n: nat, more: seq<Call>)
    requires window > 0.0 && limit > 0 && Ordered(was, calls)
    requires OneWindow(calls, id, window) && Uniform(calls, id, limit)
    requires Knows(events, log, id, limit, window, was) && Suffix(EventsOf(events, id), log)
    requires !Harmless(events, calls, id, window)
    ensures Tells(events, log, was, calls, n, more, id, limit, window)
    decreases |calls|
  {
    hide Tells, Knows, Suffix, Forgets;
    var call := calls[0];
    if Forgets(events, call, id, window) {
      n := 1;
      more := ForgetfulCallTells(events, log, was, calls, id, limit, window);
    } else {
      StepKnows(events, call, log, id, limit, window, was);
      StepKeepsSuffix(events, log, call, id);
      n, more := HarmTells(After(events, call), Noted(events, log, call, id), call.now, calls[1..], id, limit, window);
      LaterCallTells(events, log, was, calls, n, more, id, limit, window);
      n := n + 1;
    }
  }

  lemma CountIsWithinLimit(log: seq<real>, now: real, limit: nat, window: real)
    requires UpTo(log, now) && Spread(log, limit, window) && limit > 0
    ensures CountAfter(log, now - window) <= limit
  {
    if CountAfter(log, now - window) >= limit {
      FullWindowIsTheLimit(log, now, limit, window);
    }
  }

  /** Calls of `id` itself never forget one of its live calls. */
  lemma {:induction false} OwnCallsAreHarmless(events: Events, calls: seq<Call>, id: Identity, limit: nat, window: real)
    requires Own(calls, id, limit, window)
    ensures Harmless(events, calls, id, window) && OneWindow(calls, id, window)
    decreases |calls|
  {
    if calls != [] {
      assert calls[0].id == id && Cutoff(calls[0]) == calls[0].now - window;
      OwnCallsAreHarmless(After(events, calls[0]), calls[1..], id, limit, window);
    }
  }

  lemma HarmlessBehind(events: Events, was: real, call: Call, rest: seq<Call>, id: Identity, window: real)
    requires !Forgets(events, call, id, window) && was <= call.now && (call.id == id ==> call.window == window)
    requires Harmless(After(events, call), rest, id, window) && OneWindow(rest, id, window) && Ordered(call.now, rest)
    ensures Harmless(events, [call] + rest, id, window)
    ensures OneWindow([call] + rest, id, window) && Ordered(was, [call] + rest)
  {
    assert ([call] + rest)[1..] == rest;
  }

  lemma {:induction false} PrefixIsHarmless(
    events: Events, was: real, calls: seq<Call>, n: nat, id: Identity, window: real)
    requires n <= |calls| && Ordered(was, calls) && OneWindow(calls, id, window) && Harmless(events, calls, id, window)
    ensures Harmless(events, calls[..n], id, window)
    ensures OneWindow(calls[..n], id, window) && Ordered(was, calls[..n])
    decreases n
  {
    if n > 0 {
      HarmlessOpens(events, was, calls, id, window);
      PrefixIsHarmless(After(events, calls[0]), calls[0].now, calls[1..], n - 1, id, window);
      HarmlessBehind(events, was, calls[0], calls[1..][..n - 1], id, window);
      hide Forgets, After, Harmless, OneWindow, Ordered;
      FrontOfPrefix(calls, n);
    }
  }

  /** What a harmless run says about its first call and the rest. */
  lemma HarmlessOpens(events: Events, was: real, calls: seq<Call>, id: Identity, window: real)
    requires calls != [] && Ordered(was, calls) && OneWindow(calls, id, window) && Harmless(events, calls, id, window)
    ensures var call, rest := calls[0], calls[1..];
      && !Forgets(events, call, id, window) && was <= call.now && (call.id == id ==> call.window == window)
      && Harmless(After(events, call), rest, id, window) && OneWindow(rest, id, window) && Ordered(call.now, rest)
      && LastTime(calls, was) == LastTime(rest, call.now)
  {
  }

  lemma {:induction false} HarmlessThenOwn(
    events: Events, was: real, calls: seq<Call>, more: seq<Call>, id: Identity, limit: nat, window: real)
    requires Ordered(was, calls) && OneWindow(calls, id, window) && Harmless(events, calls, id, window)
    requires Own(more, id, limit, window) && Ordered(LastTime(calls, was), more)
    ensures Harmless(events, calls + more, id, window)
    ensures OneWindow(calls + more, id, window) && Ordered(was, calls + more)
    decreases |calls|
  {
    if calls == [] {
      OwnCallsAreHarmless(events, more, id, limit, window);
      assert calls + more == more;
    } else {
      HarmlessOpens(events, was, calls, id, window);
      HarmlessThenOwn(After(events, calls[0]), calls[0].now, calls[1..], more, id, limit, window);
      HarmlessBehind(events, was, calls[0], calls[1..] + more, id, window);
      hide Forgets, After, Own, Harmless, OneWindow, Ordered, LastTime;
      FrontOfSum(calls, more);
    }
  }

  /** Over any run from an empty limiter: calls of `id` at some point of the run tell
      the limiter from a full log exactly when some prune of the run finds an entry
      of `id` between the start of its window and the prune's cutoff. */
  lemma FullLogExactlyWhenHarmless(start: real, calls: seq<Call>, id: Identity, limit: nat, window: real)
    requires window > 0.0 && limit > 0
    requires Ordered(start, calls) && OneWindow(calls, id, window) && Uniform(calls, id, limit)
    ensures Harmless(map[], calls, id, window) <==>
      forall n, more :: !Tells(map[], [], start, calls, n, more, id, limit, window)
  {
    if Harmless(map[], calls, id, window) {
      forall n: nat, more: seq<Call> ensures !Tells(map[], [], start, calls, n, more, id, limit, window) {
        if n <= |calls| && Own(more, id, limit, window) && Ordered(LastTime(calls[..n], start), more) {
          PrefixIsHarmless(map[], start, calls, n, id, window);
          HarmlessThenOwn(map[], start, calls[..n], more, id, limit, window);
          AnswersAsFullLog(map[], [], start, calls[..n] + more, id, window);
        }
      }
    } else {
      var n, more := HarmTells(map[], [], start, calls, id, limit, window);
    }
  }

  /** Every prune of the run has at least the window of `id`. */
  predicate PrunesLate(events: Events, calls: seq<Call>, window: real)
    decreases |calls|
  {
    calls != [] ==>
      && (Prunes(events, calls[0]) ==> calls[0].window >= window)
      && PrunesLate(After(events, calls[0]), calls[1..], window)
  }

  lemma {:induction false} LatePrunesAreHarmless(events: Events, calls: seq<Call>, id: Identity, window: real)
    requires PrunesLate(events, calls, window)
    ensures Harmless(events, calls, id, window)
    decreases |calls|
  {
    if calls != [] {
      assert Prunes(events, calls[0]) ==> Cutoff(calls[0]) <= calls[0].now - window;
      LatePrunesAreHarmless(After(events, calls[0]), calls[1..], id, window);
    }
  }

  // ---- A run that overfills ------------------------------------------------

  const VICTIM: Identity := ("push-test", "1")

  const THREE: seq<real> := [0.0, 0.0, 0.0]

  /** One of many identities that search once, each from another address. */
  function Searcher(k: nat): (id: Identity)
    requires k < CAPACITY
  {
    ("tmdb-search", [k as char])
  }

  function Search(k: nat): (call: Call)
    requires k < CAPACITY
  {
    Call(Searcher(k), 30, 60.0, 100.0)
  }

  function Searches(n: nat): (calls: seq<Call>)
    requires n <= CAPACITY
  {
    if n == 0 then [] else Searches(n - 1) + [Search(n - 1)]
  }

  /** The limiter after the victim's three calls at 0 and `n` searches at 100. */
  function Crowd(n: nat): (events: Events)
    requires n <= CAPACITY
  {
    if n == 0 then map[VICTIM := THREE] else Crowd(n - 1)[Searcher(n - 1) := [100.0]]
  }

  lemma {:induction false} CrowdHolds(n: nat)
    requires n <= CAPACITY
    ensures |Crowd(n)| == n + 1 && EventsOf(Crowd(n), VICTIM) == THREE
    ensures forall k: nat :: n <= k < CAPACITY ==> Searcher(k) !in Crowd(n)
  {
    if n > 0 {
      CrowdHolds(n - 1);
    }
  }

  lemma {:induction false} RunAppends(events: Events, calls: seq<Call>, more: seq<Call>)
    ensures Run(events, calls + more) == Run(Run(events, calls), more)
    decreases |calls|
  {
    if calls == [] {
      assert calls + more == more;
    } else {
      hide After;
      RunAppends(After(events, calls[0]), calls[1..], more);
      FrontOfSum(calls, more);
    }
  }

  lemma {:induction false} SearchesGatherCrowd(n: nat)
    requires n < CAPACITY
    ensures Run(Crowd(0), Searches(n)) == Crowd(n)
  {
    if n > 0 {
      SearchesGatherCrowd(n - 1);
      RunAppends(Crowd(0), Searches(n - 1), [Search(n - 1)]);
      CrowdHolds(n - 1);
      SearchJoinsCrowd(n - 1);
    }
  }

  lemma SearchJoinsCrowd(n: nat)
    requires n + 1 < CAPACITY
    ensures Run(Crowd(n), [Search(n)]) == Crowd(n + 1)
  {
    CrowdHolds(n);
    CrowdHolds(n + 1);
    assert Live(Crowd(n), Search(n)) == [];
    assert [] + [100.0] == [100.0];
  }

  lemma {:induction false} SearchesAre(n: nat)
    requires n <= CAPACITY
    ensures |Searches(n)| == n && forall i :: 0 <= i < n ==> Searches(n)[i] == Search(i)
  {
    if n > 0 {
      SearchesAre(n - 1);
    }
  }

  /** Calls of other identities at one time answer nothing of `id`. */
  lemma {:induction false} OthersThen(
    events: Events, log: seq<real>, now: real, others: seq<Call>, rest: seq<Call>, id: Identity, limit: nat,
    window: real)
    requires forall i :: 0 <= i < |others| ==> others[i].id != id && others[i].now == now
    requires Ordered(now, rest) && OneWindow(rest, id, window) && Uniform(rest, id, limit)
    ensures Ordered(now, others + rest) && OneWindow(others + rest, id, window) && Uniform(others + rest, id, limit)
    ensures Answers(events, others + rest, id) == Answers(Run(events, others), rest, id)
    ensures FullLogAnswers(log, others + rest, id) == FullLogAnswers(log, rest, id)
    decreases |others|
  {
    if others == [] {
      assert others + rest == rest;
    } else {
      assert (others + rest)[1..] == others[1..] + rest;
      OthersThen(After(events, others[0]), log, now, others[1..], rest, id, limit, window);
    }
  }

  lemma ThreeEntries()
    ensures Since(THREE, 40.0) == [] && CountAfter(THREE, -500.0) == 3
  {
    assert THREE[1..] == [0.0, 0.0] && [0.0, 0.0][1..] == [0.0] && [0.0][1..] == [];
  }

  /** The search that overfills the limiter forgets the victim's call. */
  lemma LastSearchForgets(n: nat)
    requires n + 1 == CAPACITY
    ensures EventsOf(Run(Crowd(n), [Search(n)]), VICTIM) == []
    ensures Forgets(Crowd(n), Search(n), VICTIM, 600.0)
  {
    CrowdHolds(n);
    var events, call := Crowd(n), Search(n);
    assert Live(events, call) == [];
    var added := events[call.id := Live(events, call) + [call.now]];
    assert |added| == CAPACITY + 1;
    assert Run(events, [call]) == Pruned(added, Cutoff(call));
    assert EventsOf(added, VICTIM) == THREE;
    ThreeEntries();
    assert EventsOf(Touched(events, call), VICTIM)[0] == 0.0;
  }

  /** The push test of request_app/main.py:871: three calls in ten minutes. */
  function Test(now: real): (call: Call) {
    Call(VICTIM, 3, 600.0, now)
  }

  lemma SearchesGather(n: nat)
    requires n + 1 == CAPACITY
    ensures Run(Crowd(0), Searches(n) + [Search(n)]) == Run(Crowd(n), [Search(n)])
    ensures |Searches(n) + [Search(n)]| == n + 1
    ensures forall i :: 0 <= i < n + 1 ==> (Searches(n) + [Search(n)])[i] == Search(i)
  {
    SearchesAre(n);
    SearchesGatherCrowd(n);
    RunAppends(Crowd(0), Searches(n), [Search(n)]);
  }

  lemma FourthTest(events: Events)
    requires EventsOf(events, VICTIM) == []
    ensures Answers(events, [Test(100.0)], VICTIM) == [true]
    ensures FullLogAnswers(THREE, [Test(100.0)], VICTIM) == [false]
  {
    assert [Test(100.0)][1..] == [];
    ThreeEntries();
  }

  /** One test at 0 that both accept. */
  lemma OneTest(events: Events, log: seq<real>, rest: seq<Call>)
    requires |events| <= 1 && events.Keys <= {VICTIM} && EventsOf(events, VICTIM) == log && |log| < 3
    requires forall i :: 0 <= i < |log| ==> log[i] == 0.0
    ensures var next := map[VICTIM := log + [0.0]];
      Answers(events, [Test(0.0)] + rest, VICTIM) == [true] + Answers(next, rest, VICTIM)
    ensures FullLogAnswers(log, [Test(0.0)] + rest, VICTIM) == [true] + FullLogAnswers(log + [0.0], rest, VICTIM)
  {
    RestOfSum(Test(0.0), rest);
    AllCount(log, -600.0);
    assert Live(events, Test(0.0)) == log;
    assert After(events, Test(0.0)) == map[VICTIM := log + [0.0]];
  }

  lemma ThreeTests(rest: seq<Call>)
    ensures var calls := [Test(0.0)] + ([Test(0.0)] + ([Test(0.0)] + rest));
      && Answers(map[], calls, VICTIM) == [true] + ([true] + ([true] + Answers(Crowd(0), rest, VICTIM)))
      && FullLogAnswers([], calls, VICTIM) == [true] + ([true] + ([true] + FullLogAnswers(THREE, rest, VICTIM)))
  {
    hide Answers, FullLogAnswers;
    OneTest(map[], [], [Test(0.0)] + ([Test(0.0)] + rest));
    OneTest(map[VICTIM := [0.0]], [0.0], [Test(0.0)] + rest);
    OneTest(map[VICTIM := [0.0, 0.0]], [0.0, 0.0], rest);
    assert [] + [0.0] == [0.0] && [0.0] + [0.0] == [0.0, 0.0] && [0.0, 0.0] + [0.0] == THREE;
  }

  /** Three tests and what follows them, in the order of the clock. */
  lemma ThreeTestsAreOrdered(rest: seq<Call>)
    requires Ordered(0.0, rest) && OneWindow(rest, VICTIM, 600.0) && Uniform(rest, VICTIM, 3)
    ensures var calls := [Test(0.0)] + ([Test(0.0)] + ([Test(0.0)] + rest));
      Ordered(0.0, calls) && OneWindow(calls, VICTIM, 600.0) && Uniform(calls, VICTIM, 3)
  {
    RestOfSum(Test(0.0), rest);
    RestOfSum(Test(0.0), [Test(0.0)] + rest);
    RestOfSum(Test(0.0), [Test(0.0)] + ([Test(0.0)] + rest));
  }

  lemma SearchesThenTest(n: nat) returns (rest: seq<Call>)
    requires n + 1 == CAPACITY
    ensures Ordered(100.0, rest) && OneWindow(rest, VICTIM, 600.0) && Uniform(rest, VICTIM, 3)
    ensures |rest| == n + 2 && forall i | 0 <= i <= n :: rest[i] == Search(i)
    ensures Answers(Crowd(0), rest, VICTIM) == [true] && FullLogAnswers(THREE, rest, VICTIM) == [false]
  {
    var searches, last := Searches(n) + [Search(n)], [Test(100.0)];
    SearchesGather(n);
    LastSearchForgets(n);
    FourthTest(Run(Crowd(0), searches));
    hide Crowd, Searches, Run, Accepts, Answers, FullLogAnswers;
    RestOfSum(Test(100.0), []);
    OthersThen(Crowd(0), THREE, 100.0, searches, last, VICTIM, 3, 600.0);
    rest := searches + last;
  }

  lemma LaterIsOrdered(calls: seq<Call>)
    requires Ordered(100.0, calls)
    ensures Ordered(0.0, calls)
  {
  }

  lemma TestsAroundSearches(n: nat) returns (calls: seq<Call>)
    requires n + 1 == CAPACITY
    ensures Ordered(0.0, calls) && OneWindow(calls, VICTIM, 600.0) && Uniform(calls, VICTIM, 3)
    ensures |calls| == n + 5 && forall i | 3 <= i < n + 4 :: calls[i] == Search(i - 3)
    ensures Answers(map[], calls, VICTIM) == [true, true, true, true]
    ensures FullLogAnswers([], calls, VICTIM) == [true, true, true, false]
  {
    var rest := SearchesThenTest(n);
    hide Crowd, Answers, FullLogAnswers, Ordered, OneWindow, Uniform;
    calls := [Test(0.0)] + ([Test(0.0)] + ([Test(0.0)] + rest));
    ThreeTests(rest);
    LaterIsOrdered(rest);
    ThreeTestsAreOrdered(rest);
  }

  /** 10000 searches, each from another address and within its own limit of 30 in 60
      seconds, make the limiter forget three push tests made 100 seconds ago: a fourth
      one is accepted although the limit of 3 in 600 seconds is used up. */
  lemma SearchesFreeTheVictim() returns (calls: seq<Call>)
    ensures Ordered(0.0, calls) && OneWindow(calls, VICTIM, 600.0) && Uniform(calls, VICTIM, 3)
    ensures |calls| == 10004
    ensures forall i | 3 <= i < 10003 :: calls[i] == Call(("tmdb-search", [(i - 3) as char]), 30, 60.0, 100.0)
    ensures Answers(map[], calls, VICTIM) == [true, true, true, true]
    ensures FullLogAnswers([], calls, VICTIM) == [true, true, true, false]
  {
    calls := TestsAroundSearches(CAPACITY - 1);
  }
}
