/** The registration timer and the latency average of `start_udp` in
    src/rendezvous_mediator.rs. Times are microseconds of a monotone clock. */
module RegistrationTimer {
  import opened Options

  // Milliseconds.
  const MIN_REG_TIMEOUT := 3000
  const MAX_REG_TIMEOUT := 30000
  const DNS_INTERVAL := 60000
  const MAX_FAILS1 := 2
  const MAX_FAILS2 := 4
  // Microseconds.
  const MAX_LATENCY := 1000000

  function Micros(since: int, now: int): nat {
    if now >= since then now - since else 0
  }

  function Millis(since: int, now: int): nat {
    Micros(since, now) / 1000
  }

  function Abs(x: int): nat {
    if x >= 0 then x else -x
  }

  /** One step of the integer average. */
  function Smooth(ema: nat, latency: nat): nat {
    if ema == 0 then latency else latency / 30 + ema * 29 / 30
  }

  /** By how much a published latency may be off before the next one is published. */
  function Tolerance(latency: nat): nat {
    if latency / 5 < 3000 then 3000 else latency / 5
  }

  datatype Timer = Timer(
    regTimeout: nat, fails: nat,
    lastResp: Option<int>, lastSent: Option<int>, lastDns: int,
    oldLatency: int, emaLatency: nat)
  {
    /** The latency of a response: 0 if the timer has no request outstanding. */
    function Latency(now: int): nat {
      if lastSent.Some? then Micros(lastSent.value, now) else 0
    }

    predicate Expired(now: int, regInterval: nat) {
      lastResp.None? || Millis(lastResp.value, now) >= regInterval
    }

    predicate TimedOut(now: int) {
      lastSent.Some? && Millis(lastSent.value, now) >= regTimeout
    }

    predicate Sends(now: int, regInterval: nat) {
      TimedOut(now) || (lastSent.None? && Expired(now, regInterval))
    }

    /** What a response hands to `Config::update_latency`, if anything. */
    function Publication(now: int): Option<int> {
      if Latency(now) > MAX_LATENCY then None
      else
        var ema := Smooth(emaLatency, Latency(now));
        if Abs(ema - oldLatency) > Tolerance(ema) || oldLatency <= 0 then Some(ema) else None
    }

    /** The closure `update_latency`. */
    function Respond(now: int): Timer {
      this.(
        lastResp := Some(now), fails := 0, regTimeout := MIN_REG_TIMEOUT, lastSent := None,
        emaLatency := if Latency(now) > MAX_LATENCY then emaLatency else Smooth(emaLatency, Latency(now)),
        oldLatency := if Publication(now).Some? then Publication(now).value else oldLatency)
    }

    /** What a tick hands to `Config::update_latency`, if anything. */
    function TickPublication(now: int): Option<int> {
      if !TimedOut(now) || fails + 1 < MAX_FAILS1 then None
      else if fails + 1 >= MAX_FAILS2 then Some(-1)
      else Some(0)
    }

    /** The timer branch. `backsOff` is true on a desktop that uses the public server. */
    function Tick(now: int, backsOff: bool, regInterval: nat): Timer {
      if TimedOut(now) then
        this.(
          regTimeout := if backsOff && regTimeout < MAX_REG_TIMEOUT then regTimeout + MIN_REG_TIMEOUT else regTimeout,
          fails := fails + 1,
          oldLatency := if fails + 1 >= MAX_FAILS1 then 0 else oldLatency,
          lastDns := if fails + 1 >= MAX_FAILS2 && Millis(lastDns, now) > DNS_INTERVAL then now else lastDns,
          lastSent := Some(now))
      else if Sends(now, regInterval) then this.(lastSent := Some(now))
      else this
    }
  }

  /** The variables of the loop in `start_udp`. */
  class Mediator {
    const regInterval: nat
    var regTimeout: nat
    var fails: nat
    var lastResp: Option<int>
    var lastSent: Option<int>
    var lastDns: int
    var oldLatency: int
    var emaLatency: nat

    function State(): Timer reads this {
      Timer(regTimeout, fails, lastResp, lastSent, lastDns, oldLatency, emaLatency)
    }

    constructor (regInterval: nat, now: int)
      ensures State() == Timer(MIN_REG_TIMEOUT, 0, None, None, now, 0, 0) && this.regInterval == regInterval
    {
      this.regInterval := regInterval;
      regTimeout, fails := MIN_REG_TIMEOUT, 0;
      lastResp, lastSent, lastDns := None, None, now;
      oldLatency, emaLatency := 0, 0;
    }

    /** Returns the latency handed to `Config::update_latency`, if any. */
    method UpdateLatency(now: int) returns (published: Option<int>)
      modifies this
      ensures State() == old(State()).Respond(now)
      ensures published == old(State()).Publication(now)
    {
      published := None;
      lastResp := Some(now);
      fails := 0;
      regTimeout := MIN_REG_TIMEOUT;
      var latency := if lastSent.Some? then Micros(lastSent.value, now) else 0;
      lastSent := None;
      if latency > MAX_LATENCY { return; }
      if emaLatency == 0 {
        emaLatency := latency;
      } else {
        emaLatency := latency / 30 + emaLatency * 29 / 30;
        latency := emaLatency;
      }
      var n := latency / 5;
      if n < 3000 { n := 3000; }
      if Abs(latency - oldLatency) > n || oldLatency <= 0 {
        published := Some(latency);
        oldLatency := latency;
      }
    }

    /** Returns whether `register_peer` is called and what is published. */
    method TimerTick(now: int, backsOff: bool) returns (sends: bool, published: Option<int>)
      modifies this
      ensures State() == old(State()).Tick(now, backsOff, regInterval)
      ensures sends == old(State()).Sends(now, regInterval)
      ensures published == old(State()).TickPublication(now)
    {
      published := None;
      var expired := lastResp.None? || Millis(lastResp.value, now) >= regInterval;
      var timeout := lastSent.Some? && Millis(lastSent.value, now) >= regTimeout;
      if backsOff {
        if timeout && regTimeout < MAX_REG_TIMEOUT {
          regTimeout := regTimeout + MIN_REG_TIMEOUT;
        }
      }
      sends := timeout || (lastSent.None? && expired);
      if sends {
        if timeout {
          fails := fails + 1;
          if fails >= MAX_FAILS2 {
            published := Some(-1);
            oldLatency := 0;
            if Millis(lastDns, now) > DNS_INTERVAL { lastDns := now; }
          } else if fails >= MAX_FAILS1 {
            published := Some(0);
            oldLatency := 0;
          }
        }
        lastSent := Some(now);
      }
    }
  }

  // ---------------------------------------------------------------- runs

  datatype Event = Response(now: int) | Timeout(now: int, backsOff: bool)

  /** A timer with its history. Since the last response: the requests sent and
      the timed-out ticks that backed off. Since the start: the last response, all
      latencies in range, the checks of the address. And the last value that a
      response has published since the start or since failures published 0 or -1. */
  datatype History = History(
    t: Timer, clock: int, sent: seq<int>, backed: nat, answered: Option<int>,
    samples: seq<nat>, record: Option<int>, checks: seq<int>)
  {
    function Next(e: Event, regInterval: nat): History {
      match e
      case Response(now) =>
        History(t.Respond(now), now, [], 0, Some(now),
                if t.Latency(now) > MAX_LATENCY then samples else samples + [t.Latency(now)],
                if t.Publication(now).Some? then t.Publication(now) else record, checks)
      case Timeout(now, backsOff) =>
        this.(t := t.Tick(now, backsOff, regInterval), clock := now,
              sent := if t.Sends(now, regInterval) then sent + [now] else sent,
              backed := if t.TimedOut(now) && backsOff then backed + 1 else backed,
              record := if t.TickPublication(now).Some? then None else record,
              checks := if t.Tick(now, backsOff, regInterval).lastDns != t.lastDns then checks + [now] else checks)
    }

    /** How long the present request has been out. */
    function Outstanding(now: int): nat {
      if sent == [] then 0 else Micros(sent[|sent| - 1], now)
    }

    ghost predicate TimeoutInv() {
      t.regTimeout == Backoff(backed) && backed <= t.fails
    }

    ghost predicate SentInv(regInterval: nat) {
      && (if sent == [] then t.lastSent == None && t.fails == 0
          else t.lastSent == Some(sent[|sent| - 1]) && t.fails == |sent| - 1 && sent[|sent| - 1] <= clock)
      && t.lastResp == answered
      && (answered.Some? ==> answered.value <= clock)
      && (answered.Some? && sent != [] ==> sent[0] - answered.value >= 1000 * regInterval)
      && (backed == t.fails ==> Spaced(sent))
    }

    ghost predicate AverageInv() {
      && t.emaLatency == Average(samples)
      && (forall i | 0 <= i < |samples| :: samples[i] <= MAX_LATENCY)
    }

    ghost predicate RecordInv() {
      t.oldLatency == if record.Some? then record.value else 0
    }

    ghost predicate ChecksInv() {
      && checks != [] && t.lastDns == checks[|checks| - 1] <= clock
      && forall i | 0 < i < |checks| :: checks[i] - checks[i - 1] > 60_000_000
    }

    ghost predicate Inv(regInterval: nat) {
      TimeoutInv() && SentInv(regInterval) && AverageInv() && RecordInv() && ChecksInv()
    }
  }

  /** Every request after the first came a full backoff after the one before it. */
  ghost predicate Spaced(sent: seq<int>) {
    forall i | 0 < i < |sent| :: sent[i] - sent[i - 1] >= 1000 * Backoff(i - 1)
  }

  /** The timeout after a number of timed-out ticks that backed off. */
  function Backoff(n: nat): nat {
    if 3000 * (n + 1) < 30000 then 3000 * (n + 1) else 30000
  }

  function Average(samples: seq<nat>): nat {
    if samples == [] then 0 else Smooth(Average(samples[..|samples| - 1]), samples[|samples| - 1])
  }

  lemma TickKeepsTimeout(h: History, now: int, backsOff: bool, regInterval: nat)
    requires h.TimeoutInv()
    ensures h.Next(Timeout(now, backsOff), regInterval).TimeoutInv()
  {
  }

  lemma TickKeeps(h: History, now: int, backsOff: bool, regInterval: nat)
    requires h.TimeoutInv() && h.SentInv(regInterval) && now >= h.clock
    ensures h.Next(Timeout(now, backsOff), regInterval).TimeoutInv()
    ensures h.Next(Timeout(now, backsOff), regInterval).SentInv(regInterval)
  {
    TickKeepsTimeout(h, now, backsOff, regInterval);
    var h' := h.Next(Timeout(now, backsOff), regInterval);
    if h.t.TimedOut(now) {
      var n := |h.sent|;
      assert now - h.sent[n - 1] >= 1000 * h.t.regTimeout;
      if h'.backed == h'.t.fails { SpacedAppend(h.sent, now); }
    }
  }

  lemma SpacedAppend(sent: seq<int>, now: int)
    requires Spaced(sent) && sent != [] && now - sent[|sent| - 1] >= 1000 * Backoff(|sent| - 1)
    ensures Spaced(sent + [now])
  {
    forall i | 0 < i < |sent| + 1
      ensures (sent + [now])[i] - (sent + [now])[i - 1] >= 1000 * Backoff(i - 1)
    {
      assert i < |sent| ==> sent[i] - sent[i - 1] >= 1000 * Backoff(i - 1);
    }
  }

  lemma NextKeeps(h: History, e: Event, regInterval: nat)
    requires h.Inv(regInterval) && e.now >= h.clock
    ensures h.Next(e, regInterval).Inv(regInterval)
  {
    match e
    case Response(now) =>
      ResponseResets(h.t, now);
      ResponseAverages(h, now, regInterval);
      ResponseRecords(h, now, regInterval);
    case Timeout(now, backsOff) =>
      TickKeeps(h, now, backsOff, regInterval);
      TickLeavesAverage(h.t, now, backsOff, regInterval);
      TickRecords(h, now, backsOff, regInterval);
      TickChecks(h, now, backsOff, regInterval);
  }

  lemma ResponseResets(t: Timer, now: int)
    ensures var t' := t.Respond(now);
            && t'.fails == 0 && t'.regTimeout == Backoff(0) && t'.lastSent == None && t'.lastResp == Some(now)
            && t'.lastDns == t.lastDns
  {
  }

  lemma ResponseAverages(h: History, now: int, regInterval: nat)
    requires h.AverageInv()
    ensures h.Next(Response(now), regInterval).AverageInv()
  {
    assert (h.samples + [h.t.Latency(now)])[..|h.samples|] == h.samples;
  }

  lemma ResponseRecords(h: History, now: int, regInterval: nat)
    requires h.RecordInv()
    ensures h.Next(Response(now), regInterval).RecordInv()
  {
  }

  lemma TickLeavesAverage(t: Timer, now: int, backsOff: bool, regInterval: nat)
    ensures t.Tick(now, backsOff, regInterval).emaLatency == t.emaLatency
  {
  }

  lemma TickRecords(h: History, now: int, backsOff: bool, regInterval: nat)
    requires h.RecordInv()
    ensures h.Next(Timeout(now, backsOff), regInterval).RecordInv()
  {
  }

  lemma TickChecks(h: History, now: int, backsOff: bool, regInterval: nat)
    requires h.ChecksInv() && now >= h.clock
    ensures h.Next(Timeout(now, backsOff), regInterval).ChecksInv()
  {
  }

  function Start(now: int): History {
    History(Timer(MIN_REG_TIMEOUT, 0, None, None, now, 0, 0), now, [], 0, None, [], None, [now])
  }

  ghost function Run(h: History, events: seq<Event>, regInterval: nat): History
    decreases |events|
  {
    if events == [] then h else Run(h.Next(events[0], regInterval), events[1..], regInterval)
  }

  ghost predicate Ordered(clock: int, events: seq<Event>)
    decreases |events|
  {
    events == [] || (clock <= events[0].now && Ordered(events[0].now, events[1..]))
  }

  lemma {:induction false} RunKeeps(h: History, events: seq<Event>, regInterval: nat)
    requires h.Inv(regInterval) && Ordered(h.clock, events)
    ensures Run(h, events, regInterval).Inv(regInterval)
    decreases |events|
  {
    if events != [] {
      NextKeeps(h, events[0], regInterval);
      RunKeeps(h.Next(events[0], regInterval), events[1..], regInterval);
    }
  }

  /** The history after events that begin with the program. */
  ghost function Histories(start: int, events: seq<Event>, regInterval: nat): (h: History)
    requires Ordered(start, events)
    ensures h.Inv(regInterval)
  {
    RunKeeps(Start(start), events, regInterval);
    Run(Start(start), events, regInterval)
  }

  // ---------------------------------------------------------------- backoff

  /** Milliseconds that k unanswered requests take at least. */
  function BackoffSum(k: nat): nat {
    if k == 0 then 0 else BackoffSum(k - 1) + Backoff(k - 1)
  }

  lemma {:induction false} BackoffSumClosed(k: nat)
    requires k <= 10
    ensures BackoffSum(k) == 3000 * k * (k + 1) / 2
  {
    if k > 0 {
      BackoffSumClosed(k - 1);
      Triangle(k);
    }
  }

  lemma Triangle(k: nat)
    requires k > 0
    ensures 3000 * (k - 1) * k / 2 + 3000 * k == 3000 * k * (k + 1) / 2
  {
    var n := (k - 1) * k;
    assert 3000 * (k - 1) * k == 3000 * n;
    assert 3000 * k * (k + 1) == 3000 * n + 6000 * k;
  }

  lemma {:induction false} SentSpread(h: History, k: nat, regInterval: nat)
    requires h.Inv(regInterval) && h.backed == h.t.fails && k < |h.sent|
    ensures h.sent[k] - h.sent[0] >= 1000 * BackoffSum(k)
  {
    if k > 0 { SentSpread(h, k - 1, regInterval); }
  }

  /** Main result: in every run from the start, the timeout is the linear backoff
      of the timed-out ticks that backed off; if all did, k requests after the
      first one have taken the sum of the backoffs; and the first request after a
      response waits for the registration interval. */
  lemma BackoffInEveryRun(events: seq<Event>, start: int, regInterval: nat, k: nat)
    requires Ordered(start, events)
    ensures var h := Histories(start, events, regInterval);
            && h.t.regTimeout == Backoff(h.backed) && h.backed <= h.t.fails
            && h.t.regTimeout % 3000 == 0 && 3000 <= h.t.regTimeout <= 30000
            && (h.backed == h.t.fails && k < |h.sent| ==> h.sent[k] - h.sent[0] >= 1000 * BackoffSum(k))
            && (h.backed == h.t.fails && k < |h.sent| && k <= 10 ==>
                  h.sent[k] - h.sent[0] >= 1000 * (3000 * k * (k + 1) / 2))
            && (h.answered.Some? && h.sent != [] ==> h.sent[0] - h.answered.value >= 1000 * regInterval)
  {
    var h := Histories(start, events, regInterval);
    if h.backed == h.t.fails && k < |h.sent| { SentSpread(h, k, regInterval); }
    if k <= 10 { BackoffSumClosed(k); }
    BackoffBounds(h.backed);
  }

  lemma BackoffBounds(n: nat)
    ensures Backoff(n) % 3000 == 0 && 3000 <= Backoff(n) <= 30000
  {
  }

  /** Main result: in every run a tick sends a request exactly if the last one is
      out for its backoff, or if none is out and no response was ever received or
      the last one is the registration interval ago. */
  lemma SendsIff(events: seq<Event>, start: int, regInterval: nat, now: int)
    requires Ordered(start, events) && Histories(start, events, regInterval).clock <= now
    ensures var h := Histories(start, events, regInterval);
            h.t.Sends(now, regInterval)
            <==> if h.sent != [] then now - h.sent[|h.sent| - 1] >= 1000 * Backoff(h.backed)
                 else h.answered == None || now - h.answered.value >= 1000 * regInterval
  {
  }

  /** What failures publish: nothing at the first in a row, 0 at the second and
      third, and -1 from the fourth on. */
  lemma FailuresPublish(events: seq<Event>, start: int, regInterval: nat, now: int)
    requires Ordered(start, events)
    ensures var h := Histories(start, events, regInterval);
            h.t.TickPublication(now)
            == if !h.t.TimedOut(now) || |h.sent| == 1 then None else if |h.sent| <= 3 then Some(0) else Some(-1)
  {
  }

  /** The address is checked exactly at a fourth or later failure in a row that
      comes more than 60 seconds after the last check or the start. */
  lemma ChecksIff(events: seq<Event>, start: int, regInterval: nat, now: int, backsOff: bool)
    requires Ordered(start, events) && Histories(start, events, regInterval).clock <= now
    ensures var h := Histories(start, events, regInterval);
            && (h.t.Tick(now, backsOff, regInterval).lastDns != h.t.lastDns
                <==> h.t.TimedOut(now) && |h.sent| >= 4 && (now - h.checks[|h.checks| - 1]) / 1000 > 60000)
            && forall i | 0 < i < |h.checks| :: h.checks[i] - h.checks[i - 1] > 60_000_000
  {
  }

  // ---------------------------------------------------------------- latency

  /** The average stays within the samples, up to rounding at the lower end. */
  lemma {:induction false} AverageBounds(samples: seq<nat>, low: nat, high: nat)
    requires samples != [] && forall i | 0 <= i < |samples| :: low <= samples[i] <= high
    ensures 30 * (low / 30) <= Average(samples) <= high
  {
    var n := |samples| - 1;
    if n > 0 {
      AverageBounds(samples[..n], low, high);
    } else {
      assert samples[..n] == [];
    }
  }

  /** Main result: after every response in range, in every run, the average is
      within the range of all latencies so far and the last published latency
      is within the tolerance of it. */
  lemma PublishedLatency(events: seq<Event>, start: int, regInterval: nat, now: int, low: nat, high: nat)
    requires Ordered(start, events)
    requires var h := Histories(start, events, regInterval);
             && h.clock <= now && h.Outstanding(now) <= 1_000_000
             && forall i | 0 <= i <= |h.samples| :: low <= (h.samples + [h.Outstanding(now)])[i] <= high
    ensures var t := Histories(start, events, regInterval).t.Respond(now);
            && 30 * (low / 30) <= t.emaLatency <= high
            && Abs(t.oldLatency - t.emaLatency) <= if t.emaLatency / 5 < 3000 then 3000 else t.emaLatency / 5
  {
    var h := Histories(start, events, regInterval);
    assert h.t.Latency(now) == h.Outstanding(now);
    RespondPublishes(h.t, now);
    AverageInRange(h, now, low, high);
  }

  /** Main result: in every run, a response in range publishes, and then its
      average, if and only if no value or 0 is on record since the start or since
      failures were published, or the average differs from that value by more
      than a fifth of itself and more than 3000; one out of range never does. */
  lemma PublishesIff(events: seq<Event>, start: int, regInterval: nat, now: int)
    requires Ordered(start, events) && Histories(start, events, regInterval).clock <= now
    ensures var h := Histories(start, events, regInterval);
            var ema := h.t.Respond(now).emaLatency;
            && (h.t.Publication(now).Some?
                <==> h.Outstanding(now) <= 1_000_000
                     && (h.record == None || h.record == Some(0)
                         || (Abs(ema - h.record.value) > 3000 && Abs(ema - h.record.value) > ema / 5)))
            && (h.t.Publication(now).Some? ==> h.t.Publication(now).value == ema)
  {
    var h := Histories(start, events, regInterval);
    assert h.t.Latency(now) == h.Outstanding(now);
    RecordNotNegative(Start(start), events, regInterval);
  }

  /** So two successive publications without failures published between them are
      further apart than the tolerance of the second. */
  lemma SuccessivePublications(events: seq<Event>, start: int, regInterval: nat, now: int)
    requires Ordered(start, events) && Histories(start, events, regInterval).clock <= now
    ensures var h := Histories(start, events, regInterval);
            var next := h.t.Publication(now);
            h.record.Some? && h.record.value != 0 && next.Some?
            ==> Abs(next.value - h.record.value) > 3000 && Abs(next.value - h.record.value) > next.value / 5
  {
    PublishesIff(events, start, regInterval, now);
  }

  lemma {:induction false} RecordNotNegative(h: History, events: seq<Event>, regInterval: nat)
    requires h.record.Some? ==> h.record.value >= 0
    ensures var h' := Run(h, events, regInterval); h'.record.Some? ==> h'.record.value >= 0
    decreases |events|
  {
    if events != [] { RecordNotNegative(h.Next(events[0], regInterval), events[1..], regInterval); }
  }

  lemma RespondPublishes(t: Timer, now: int)
    requires t.Latency(now) <= MAX_LATENCY
    ensures var t' := t.Respond(now); Abs(t'.oldLatency - t'.emaLatency) <= Tolerance(t'.emaLatency)
  {
  }

  lemma AverageInRange(h: History, now: int, low: nat, high: nat)
    requires h.AverageInv() && h.t.Latency(now) <= MAX_LATENCY
    requires forall i | 0 <= i <= |h.samples| :: low <= (h.samples + [h.t.Latency(now)])[i] <= high
    ensures 30 * (low / 30) <= h.t.Respond(now).emaLatency <= high
  {
    ResponseAverages(h, now, 0);
    AverageBounds(h.samples + [h.t.Latency(now)], low, high);
  }

  /** With a steady latency the average comes to rest exactly in the last 30
      microseconds up to the latency rounded down to a multiple of 30. */
  lemma RestingAverage(ema: nat, latency: nat)
    requires ema > 0
    ensures Smooth(ema, latency) == ema <==> 30 * (latency / 30) - 30 < ema <= 30 * (latency / 30)
    ensures ema > 30 * (latency / 30) ==> 30 * (latency / 30) <= Smooth(ema, latency) < ema
    ensures ema <= 30 * (latency / 30) - 30 ==> ema < Smooth(ema, latency) <= 30 * (latency / 30)
  {
  }

  function Steady(ema: nat, latency: nat, n: nat): nat {
    if n == 0 then ema else Smooth(Steady(ema, latency, n - 1), latency)
  }

  /** From any average, enough equal samples of at least 30 microseconds bring it to rest. */
  lemma {:induction false} SteadyComesToRest(ema: nat, latency: nat) returns (n: nat)
    requires latency >= 30
    ensures 30 * (latency / 30) - 30 < Steady(ema, latency, n) <= 30 * (latency / 30)
    decreases Abs(ema - 30 * (latency / 30)) + if ema == 0 then 30 * (latency / 30) + 31 else 0
  {
    var rest := 30 * (latency / 30);
    if rest - 30 < ema <= rest {
      n := 0;
    } else {
      if ema > 0 { RestingAverage(ema, latency); }
      var k := SteadyComesToRest(Smooth(ema, latency), latency);
      n := k + 1;
      SteadyShift(ema, latency, k);
    }
  }

  lemma {:induction false} SteadyShift(ema: nat, latency: nat, k: nat)
    ensures Steady(Smooth(ema, latency), latency, k) == Steady(ema, latency, k + 1)
  {
    if k > 0 { SteadyShift(ema, latency, k - 1); }
  }

  /** A response that follows no request of the timer, such as the answer to
      `register_pk` sent from `handle_resp`, counts as a sample of zero. It
      leaves the average alone only if there is none. */
  lemma UntrackedResponse(t: Timer, now: int)
    requires t.lastSent.None?
    ensures t.Respond(now).emaLatency == t.emaLatency - (t.emaLatency + 29) / 30
    ensures t.Respond(now).emaLatency == t.emaLatency <==> t.emaLatency == 0
  {
  }
}
