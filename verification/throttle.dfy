/** Ticks that never come in bursts: `ThrottledInterval` in src/common.rs. */
module Throttling {

  type Time = int

  /** One poll: whether the wrapped interval is ready, and the clock. */
  datatype Poll = Poll(ready: bool, now: Time)

  predicate Passes(next: Time, p: Poll) { p.ready && next <= p.now }

  function NextTick(next: Time, minInterval: nat, p: Poll): Time {
    if Passes(next, p) then p.now + minInterval else next
  }

  /** The times of the ticks that get through, from a given first allowed one. */
  function Ticks(next: Time, minInterval: nat, polls: seq<Poll>): seq<Time>
    decreases |polls|
  {
    if polls == [] then []
    else
      var p := polls[0];
      var later := Ticks(NextTick(next, minInterval, p), minInterval, polls[1..]);
      if Passes(next, p) then [p.now] + later else later
  }

  class ThrottledInterval {
    var nextTick: Time
    const minInterval: nat

    /** Nine tenths of the wrapped period. */
    constructor (period: nat, now: Time)
      ensures nextTick == now && minInterval == period * 9 / 10
    {
      nextTick, minInterval := now, period * 9 / 10;
    }

    method PollTick(poll: Poll) returns (ready: bool)
      modifies this
      ensures ready == Passes(old(nextTick), poll)
      ensures nextTick == NextTick(old(nextTick), minInterval, poll)
    {
      ready := false;
      if poll.ready && nextTick <= poll.now {
        nextTick := poll.now + minInterval;
        ready := true;
      }
    }
  }

  /** Ticks keep their distance, so few fit in any span of time. */
  lemma {:induction false} TicksAreSpaced(next: Time, minInterval: nat, polls: seq<Poll>, i: nat, j: nat)
    requires i <= j < |Ticks(next, minInterval, polls)|
    ensures var ticks := Ticks(next, minInterval, polls);
            && next <= ticks[i]
            && ticks[j] - ticks[i] >= (j - i) * minInterval
    decreases |polls|
  {
    var p, rest := polls[0], polls[1..];
    if p.ready && next <= p.now {
      var later := Ticks(p.now + minInterval, minInterval, rest);
      assert forall k | 0 < k < |later| + 1 :: ([p.now] + later)[k] == later[k - 1];
      if i > 0 {
        TicksAreSpaced(p.now + minInterval, minInterval, rest, i - 1, j - 1);
      } else if j > 0 {
        TicksAreSpaced(p.now + minInterval, minInterval, rest, 0, j - 1);
        assert (j - 1) * minInterval + minInterval == j * minInterval;
      }
    } else {
      TicksAreSpaced(next, minInterval, rest, i, j);
    }
  }

  ghost predicate ReadyPollsSpaced(last: Time, minInterval: nat, polls: seq<Poll>)
    decreases |polls|
  {
    polls != [] ==>
      var p := polls[0];
      if p.ready then p.now >= last + minInterval && ReadyPollsSpaced(p.now, minInterval, polls[1..])
      else ReadyPollsSpaced(last, minInterval, polls[1..])
  }

  function ReadyCount(polls: seq<Poll>): nat {
    if polls == [] then 0 else (if polls[0].ready then 1 else 0) + ReadyCount(polls[1..])
  }

  lemma {:induction false} NoMoreThanReady(next: Time, minInterval: nat, polls: seq<Poll>)
    ensures |Ticks(next, minInterval, polls)| <= ReadyCount(polls)
    decreases |polls|
  {
    if polls != [] {
      NoMoreThanReady(polls[0].now + minInterval, minInterval, polls[1..]);
      NoMoreThanReady(next, minInterval, polls[1..]);
    }
  }

  /** The wrapper is invisible, as long as the wrapped interval is ready no
      faster than the minimum, and only then. */
  lemma {:induction false} AllTicksPassIff(last: Time, minInterval: nat, polls: seq<Poll>)
    ensures |Ticks(last + minInterval, minInterval, polls)| == ReadyCount(polls)
            <==> ReadyPollsSpaced(last, minInterval, polls)
    decreases |polls|
  {
    if polls != [] {
      var p := polls[0];
      NoMoreThanReady(last + minInterval, minInterval, polls[1..]);
      AllTicksPassIff(p.now, minInterval, polls[1..]);
      AllTicksPassIff(last, minInterval, polls[1..]);
    }
  }
}
