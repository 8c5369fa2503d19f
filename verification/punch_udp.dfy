/** UDP hole punching with growing pauses: `punch_udp` in src/common.rs.
    Times are in microseconds; the pauses of the program are whole
    milliseconds. */
module UdpPunch {
  import opened Options

  type Time = int

  const MILLISECOND: int := 1_000
  const MAX_TIME: int := 20_000 * MILLISECOND
  // A sleep takes its length as a 32-bit float, so it may end this much early.
  const ROUNDING: int := 1

  /** One branch taken by `select!`. The timer branch waits for the sleep that
      was armed when `select!` was entered, and then reads the clock up to three
      times: for the time limit, for the pause, and after sending. */
  datatype Event =
    | Timer(armed: Time, checked: Time, read: Time, stamped: Time)
    | Received(n: nat)
    | RecvError

  datatype Outcome = TimedOut | Failed | Punched(data: Option<nat>)

  datatype State = State(pause: nat, packets: nat, last: Time, outcome: Option<Outcome>)

  /** Half as much again, in whole milliseconds, up to the maximum. */
  function Longer(pause: nat): nat {
    if pause * 3 / 2 <= 200 then pause * 3 / 2 else 200
  }

  function Step(s: State, listen: bool, start: Time, e: Event): State {
    if s.outcome.Some? then s
    else
      match e
      case Timer(_, checked, read, stamped) =>
        if checked - start > MAX_TIME then s.(outcome := Some(TimedOut))
        else if read - s.last >= s.pause * MILLISECOND then State(Longer(s.pause), s.packets + 1, stamped, None)
        else s
      case RecvError => s.(outcome := Some(Failed))
      case Received(n) =>
        if listen && n == 0 then s
        else s.(outcome := Some(Punched(if listen then Some(n) else None)))
  }

  function Run(listen: bool, first: Time, start: Time, events: seq<Event>): State {
    if events == [] then State(20, 1, first, None)
    else Step(Run(listen, first, start, events[..|events| - 1]), listen, start, events[|events| - 1])
  }

  /** `first` is read after the first packet and `start` right after that. */
  method PunchUdp(listen: bool, first: Time, start: Time, events: seq<Event>)
    returns (outcome: Option<Outcome>, packets: nat)
    ensures var s := Run(listen, first, start, events); outcome == s.outcome && packets == s.packets
  {
    var pause: nat := 20;
    packets := 1;
    var last := first;
    for i := 0 to |events|
      invariant Run(listen, first, start, events[..i]) == State(pause, packets, last, None)
    {
      assert events[..i + 1][..i] == events[..i];
      match events[i]
      case Timer(_, checked, read, stamped) =>
        if checked - start > MAX_TIME {
          OverStays(listen, first, start, events, i + 1);
          return Some(TimedOut), packets;
        }
        if read - last >= pause * MILLISECOND {
          packets := packets + 1;
          pause := if pause * 3 / 2 <= 200 then pause * 3 / 2 else 200;
          last := stamped;
        }
      case RecvError =>
        OverStays(listen, first, start, events, i + 1);
        return Some(Failed), packets;
      case Received(n) =>
        if listen {
          if n == 0 { continue; }
          OverStays(listen, first, start, events, i + 1);
          return Some(Punched(Some(n))), packets;
        }
        OverStays(listen, first, start, events, i + 1);
        return Some(Punched(None)), packets;
    }
    assert events[..|events|] == events;
    outcome := None;
  }

  lemma {:induction false} OverStays(listen: bool, first: Time, start: Time, events: seq<Event>, i: nat)
    requires i <= |events| && Run(listen, first, start, events[..i]).outcome.Some?
    ensures Run(listen, first, start, events) == Run(listen, first, start, events[..i])
  {
    if i == |events| {
      assert events[..i] == events;
    } else {
      var n := |events| - 1;
      assert events[..n][..i] == events[..i];
      OverStays(listen, first, start, events[..n], i);
    }
  }

  // ---------------------------------------------------------------- the pauses

  /** The pause after `k` repeated packets, and the sum of those before it. */
  function Pause(k: nat): nat { if k == 0 then 20 else Longer(Pause(k - 1)) }

  function PauseSum(k: nat): nat { if k == 0 then 0 else PauseSum(k - 1) + Pause(k - 1) }

  /** They are 20, 30, 45, 67, 100, 150 and then 200 milliseconds for ever. */
  lemma {:induction false} Pauses(k: nat)
    ensures k >= 6 ==> Pause(k) == 200 && PauseSum(k) == 412 + 200 * (k - 6)
    ensures 20 <= Pause(k) <= Pause(k + 1) <= 200
  {
    if k <= 6 {
      FirstPauses();
    } else {
      Pauses(k - 1);
    }
  }

  lemma FirstPauses()
    ensures Pause(1) == 30 && Pause(2) == 45 && Pause(3) == 67 && Pause(4) == 100 && Pause(5) == 150
    ensures Pause(6) == 200 && Pause(7) == 200 && PauseSum(6) == 412
  {
    assert Pause(1) == 30 && Pause(2) == 45 && Pause(3) == 67;
    assert Pause(4) == 100 && Pause(5) == 150 && Pause(6) == 200;
    assert PauseSum(1) == 20 && PauseSum(2) == 50 && PauseSum(3) == 95;
    assert PauseSum(4) == 162 && PauseSum(5) == 262;
  }

  // ---------------------------------------------------------------- how many packets

  /** The last reading of the clock, or the start. */
  function LastReading(start: Time, events: seq<Event>): Time {
    if events == [] then start
    else
      var e := events[|events| - 1];
      if e.Timer? then e.stamped else LastReading(start, events[..|events| - 1])
  }

  /** The clock never runs backwards, and a timer branch comes no earlier than
      one pause, as it was when `select!` was entered, after that moment. */
  predicate Schedule(listen: bool, first: Time, start: Time, events: seq<Event>) {
    events != [] ==>
      var before, e := events[..|events| - 1], events[|events| - 1];
      && Schedule(listen, first, start, before)
      && (e.Timer? ==>
            && LastReading(start, before) <= e.armed
            && e.armed + Run(listen, first, start, before).pause * MILLISECOND - ROUNDING <= e.checked
            && e.armed <= e.checked <= e.read <= e.stamped)
  }

  /** When the `k`-th repeated packet can leave at the earliest. */
  function Earliest(start: Time, k: nat): Time { start + PauseSum(k) * MILLISECOND - k * ROUNDING }

  /** Every packet but the first waits for all pauses before it, counted from
      the start, and for the time limit. */
  lemma {:induction false} PacketsPayPauses(listen: bool, first: Time, start: Time, events: seq<Event>)
    requires Schedule(listen, first, start, events)
    ensures var s := Run(listen, first, start, events);
            && 1 <= s.packets && s.pause == Pause(s.packets - 1)
            && Earliest(start, s.packets - 1) <= LastReading(start, events)
            && (s.packets > 1 ==> Earliest(start, s.packets - 1) <= start + MAX_TIME)
  {
    if events != [] { PacketsPayPauses(listen, first, start, events[..|events| - 1]); }
  }

  /** The pauses of a run never shrink. */
  lemma {:induction false} PausesNeverShrink(listen: bool, first: Time, start: Time, events: seq<Event>, i: nat)
    requires Schedule(listen, first, start, events) && i <= |events|
    ensures Run(listen, first, start, events[..i]).pause <= Run(listen, first, start, events).pause
  {
    if i == |events| {
      assert events[..i] == events;
    } else {
      var n := |events| - 1;
      assert events[..n][..i] == events[..i];
      PausesNeverShrink(listen, first, start, events[..n], i);
      var s := Run(listen, first, start, events[..n]);
      PacketsPayPauses(listen, first, start, events[..n]);
      Pauses(s.packets - 1);
    }
  }

  lemma AtMost104(listen: bool, first: Time, start: Time, events: seq<Event>)
    requires Schedule(listen, first, start, events)
    ensures Run(listen, first, start, events).packets <= 104
  {
    PacketsPayPauses(listen, first, start, events);
    Pauses(Run(listen, first, start, events).packets - 1);
  }

  // ---------------------------------------------------------------- the bound is sharp

  /** A schedule without any delay. */
  function Prompt(start: Time, n: nat): (events: seq<Event>)
    ensures |events| == n
  {
    if n == 0 then []
    else
      var from, to := start + PauseSum(n - 1) * MILLISECOND, start + PauseSum(n) * MILLISECOND;
      Prompt(start, n - 1) + [Timer(from, to, to, to)]
  }

  lemma {:induction false} PromptRun(listen: bool, first: Time, start: Time, n: nat)
    requires first <= start && n <= 103
    ensures Schedule(listen, first, start, Prompt(start, n))
    ensures LastReading(start, Prompt(start, n)) == start + PauseSum(n) * MILLISECOND
    ensures Run(listen, first, start, Prompt(start, n)) == PromptState(first, start, n)
  {
    if n > 0 {
      PromptRun(listen, first, start, n - 1);
      assert Prompt(start, n)[..n - 1] == Prompt(start, n - 1);
      var to := start + PauseSum(n) * MILLISECOND;
      PromptStep(listen, first, start, n, start + PauseSum(n - 1) * MILLISECOND, to);
    }
  }

  function PromptState(first: Time, start: Time, n: nat): State {
    State(Pause(n), n + 1, if n == 0 then first else start + PauseSum(n) * MILLISECOND, None)
  }

  lemma PromptStep(listen: bool, first: Time, start: Time, n: nat, from: Time, to: Time)
    requires first <= start && 0 < n <= 103 && to == start + PauseSum(n) * MILLISECOND
    ensures Step(PromptState(first, start, n - 1), listen, start, Timer(from, to, to, to))
         == PromptState(first, start, n)
  {
    InTime(n);
    assert PauseSum(n) == PauseSum(n - 1) + Pause(n - 1);
  }

  lemma InTime(n: nat)
    requires n <= 103
    ensures PauseSum(n) * MILLISECOND <= MAX_TIME
  {
    Pauses(103);
    PauseSumGrows(n, 103);
  }

  lemma {:induction false} PauseSumGrows(m: nat, n: nat)
    requires m <= n
    ensures PauseSum(m) <= PauseSum(n)
  {
    if m < n { PauseSumGrows(m, n - 1); }
  }

  /** Main result: 104 is the least bound on the packets that holds under every
      schedule, however far the two first clock readings are apart. */
  lemma BoundIff(listen: bool, first: Time, start: Time, bound: nat)
    requires first <= start
    ensures (forall events | Schedule(listen, first, start, events) ::
               Run(listen, first, start, events).packets <= bound) <==> bound >= 104
  {
    if bound >= 104 {
      forall events | Schedule(listen, first, start, events)
        ensures Run(listen, first, start, events).packets <= bound
      {
        AtMost104(listen, first, start, events);
      }
    } else {
      PromptRun(listen, first, start, 103);
    }
  }

  // ---------------------------------------------------------------- how it ends

  /** The event ends the punching, whenever it comes. */
  predicate Decides(listen: bool, start: Time, e: Event) {
    match e
    case Timer(_, checked, _, _) => checked - start > 20_000_000
    case Received(n) => !listen || n > 0
    case RecvError => true
  }

  lemma {:induction false} StillPunching(listen: bool, first: Time, start: Time, events: seq<Event>)
    requires forall k | 0 <= k < |events| :: !Decides(listen, start, events[k])
    ensures Run(listen, first, start, events).outcome == None
  {
    if events != [] { StillPunching(listen, first, start, events[..|events| - 1]); }
  }

  /** Main result: the first deciding event gives the outcome: a timer after 20
      seconds the timeout, an error the failure, a packet the success, with its
      data only when listening; a listener goes on after an empty packet. */
  lemma Outcomes(listen: bool, first: Time, start: Time, events: seq<Event>)
    requires events != [] && Decides(listen, start, events[|events| - 1])
    requires forall k | 0 <= k < |events| - 1 :: !Decides(listen, start, events[k])
    ensures Run(listen, first, start, events).outcome
         == (match events[|events| - 1]
             case Timer(_, _, _, _) => Some(TimedOut)
             case RecvError => Some(Failed)
             case Received(n) => Some(Punched(if listen then Some(n) else None)))
  {
    StillPunching(listen, first, start, events[..|events| - 1]);
  }
}
