/** Runs of the audio buffer with packets of one size: what the drop rule can do
    to a device in practice. */
module AudioRuns {
  import opened AudioBuffers

  function Silence(n: nat): (s: seq<Sample>)
    ensures |s| == n
  {
    seq(n, i => 0)
  }

  /** One decoded packet. */
  function Packet(q: nat, now: int): Step { Pcm(Silence(q), 0, now) }

  /** Packets of `q` samples, and whole frames played between them. */
  predicate Regular(step: Step, q: nat, ch: nat)
    requires ch > 0
  {
    match step
    case Pcm(buffer, taken, _) => |buffer| == q && taken == 0
    case Take(n) => n % ch == 0
    case _ => false
  }

  // ---------------------------------------------------------------- the buffer by its gauges

  /** What the drop rule looks at: the window's start, the occupancy and the
      histogram; and how many samples have left. */
  datatype Gauge = Gauge(tms: int, having: nat, head: int, bins: seq<nat>)

  function Push(g: Gauge, rate: nat, q: nat, now: int): (g': Gauge)
    requires rate > 0 && |g.bins| == BINS
    ensures |g'.bins| == BINS
  {
    var total := g.having + q;
    var bins := RecordedIn(g.bins, total, rate);
    if g.tms != 0 && now >= g.tms + WINDOW_MS then
      var dropped := Dropped(Ring(3 * rate, Silence(total)), Mark(bins));
      Gauge(now, if dropped <= total then total - dropped else 0, g.head + dropped, EmptyBins())
    else Gauge(NextTms(g.tms, now), total, g.head, bins)
  }

  function Turn(g: Gauge, rate: nat, q: nat, step: Step): (g': Gauge)
    requires rate > 0 && |g.bins| == BINS
    ensures |g'.bins| == BINS
  {
    match step
    case Pcm(_, _, now) => Push(g, rate, q, now)
    case Take(n) => g.(having := if n <= g.having then g.having - n else 0, head := g.head + n)
    case _ => g
  }

  function After(rate: nat, q: nat, steps: seq<Step>): (g: Gauge)
    requires rate > 0
    ensures |g.bins| == BINS
  {
    if steps == [] then Gauge(0, 0, 0, EmptyBins())
    else Turn(After(rate, q, steps[..|steps| - 1]), rate, q, steps[|steps| - 1])
  }

  /** Nothing overflows and no silence is played. */
  predicate FitsNow(g: Gauge, rate: nat, q: nat, step: Step) {
    (step.Pcm? ==> g.having + q <= 3 * rate) && (step.Take? ==> step.n <= g.having)
  }

  predicate Fits(rate: nat, q: nat, ch: nat, steps: seq<Step>)
    requires rate > 0 && ch > 0
  {
    steps != [] ==>
      var before, step := steps[..|steps| - 1], steps[|steps| - 1];
      Fits(rate, q, ch, before) && Regular(step, q, ch) && FitsNow(After(rate, q, before), rate, q, step)
  }

  ghost predicate Shows(t: Trace, g: Gauge, rate: nat) {
    && t.Inv() && t.s.rate == rate && t.tms == g.tms && |t.s.ring.content| == g.having
    && t.Head() == g.head && t.s.bins == g.bins
  }

  lemma AppendLength(t: Trace, buffer: seq<Sample>, having: nat)
    requires t.Inv() && |t.s.ring.content| + |buffer| == having <= 3 * t.s.rate
    ensures var a := t.Append(buffer);
            && a.Inv() && |a.s.ring.content| == having && a.Head() == t.Head() && a.tms == t.tms
            && a.s == t.s.(ring := a.s.ring) && a.s.ring.capacity == t.s.ring.capacity
  {
    AppendKeeps(t, buffer);
  }

  lemma ShrinkRecords(t: Trace, having: nat, now: int)
    requires t.Inv() && (t.tms == 0 || now < t.tms + WINDOW_MS)
    ensures var t' := t.Shrink(having, now);
            && t'.Inv() && t'.s == t.s.(bins := RecordedIn(t.s.bins, having, t.s.rate))
            && t'.tms == NextTms(t.tms, now) && t'.Head() == t.Head()
  {
    ShrinkKeeps(t, having, now);
  }

  lemma ShrinkCloses(t: Trace, having: nat, now: int)
    requires t.Inv() && t.tms != 0 && now >= t.tms + WINDOW_MS
    ensures var dropped := Dropped(t.s.ring, Mark(RecordedIn(t.s.bins, having, t.s.rate)));
            var t' := t.Shrink(having, now);
            && t'.Head() == t.Head() + dropped && |t'.s.ring.content| == |t.s.ring.content| - dropped
            && t'.s.bins == EmptyBins() && t'.tms == now && t'.s.rate == t.s.rate && t'.Inv()
  {
    ShrinkKeeps(t, having, now);
  }

  lemma SameDrop(a: Ring, b: Ring, mark: nat)
    requires a.capacity == b.capacity && |a.content| == |b.content|
    ensures Dropped(a, mark) == Dropped(b, mark)
  {
  }

  lemma PushShows(t: Trace, g: Gauge, rate: nat, q: nat, step: Step)
    requires rate > 0 && Shows(t, g, rate) && step.Pcm? && |step.buffer| == q && step.taken == 0
    requires FitsNow(g, rate, q, step)
    ensures Shows(Next(t, step), Turn(g, rate, q, step), rate)
  {
    var a, total := t.Append(step.buffer), g.having + q;
    NextPcm(t, step.buffer, step.now);
    AppendLength(t, step.buffer, total);
    if g.tms != 0 && step.now >= g.tms + WINDOW_MS {
      ShrinkCloses(a, total, step.now);
      SameDrop(a.s.ring, Ring(3 * rate, Silence(total)), Mark(RecordedIn(g.bins, total, rate)));
    } else {
      ShrinkRecords(a, total, step.now);
    }
  }

  lemma TakeShows(t: Trace, g: Gauge, rate: nat, q: nat, n: nat)
    requires rate > 0 && Shows(t, g, rate) && n <= g.having
    ensures Shows(Next(t, Take(n)), Turn(g, rate, q, Take(n)), rate)
  {
    TakeKeeps(t, n);
  }

  lemma TurnShows(rate: nat, q: nat, ch: nat, steps: seq<Step>, step: Step, g: Gauge)
    requires rate > 0 && ch > 0 && Fresh(rate).Inv() && forall i | 0 <= i < |steps| :: Allowed(steps[i])
    requires Regular(step, q, ch) && FitsNow(g, rate, q, step) && Shows(Run(Fresh(rate), steps), g, rate)
    ensures Shows(Run(Fresh(rate), steps + [step]), Turn(g, rate, q, step), rate)
  {
    RunLast(Fresh(rate), steps, step);
    match step
    case Pcm(_, _, _) => PushShows(Run(Fresh(rate), steps), g, rate, q, step);
    case Take(n) => TakeShows(Run(Fresh(rate), steps), g, rate, q, n);
  }

  predicate AllRegular(steps: seq<Step>, q: nat, ch: nat)
    requires ch > 0
  {
    forall i | 0 <= i < |steps| :: Regular(steps[i], q, ch)
  }

  lemma RegularIsAllowed(steps: seq<Step>, q: nat, ch: nat)
    requires ch > 0 && AllRegular(steps, q, ch)
    ensures forall i | 0 <= i < |steps| :: Allowed(steps[i])
  {
    forall i | 0 <= i < |steps| ensures Allowed(steps[i]) {
      assert Regular(steps[i], q, ch);
    }
  }

  lemma {:induction false} FitsIsRegular(rate: nat, q: nat, ch: nat, steps: seq<Step>)
    requires rate > 0 && ch > 0 && Fits(rate, q, ch, steps)
    ensures AllRegular(steps, q, ch) && forall i | 0 <= i < |steps| :: Allowed(steps[i])
  {
    if steps != [] { FitsIsRegular(rate, q, ch, steps[..|steps| - 1]); }
    RegularIsAllowed(steps, q, ch);
  }

  /** The gauges of a run are those of its buffer. */
  lemma {:induction false} RunShows(rate: nat, q: nat, ch: nat, steps: seq<Step>)
    requires rate > 0 && ch > 0 && Fits(rate, q, ch, steps)
    ensures Fresh(rate).Inv() && AllRegular(steps, q, ch) && forall i | 0 <= i < |steps| :: Allowed(steps[i])
    ensures Shows(Run(Fresh(rate), steps), After(rate, q, steps), rate)
  {
    FreshInv(rate);
    FitsIsRegular(rate, q, ch, steps);
    if steps != [] {
      var before, step := steps[..|steps| - 1], steps[|steps| - 1];
      RunShows(rate, q, ch, before);
      assert steps == before + [step];
      TurnShows(rate, q, ch, before, step, After(rate, q, before));
    }
  }

  // ---------------------------------------------------------------- phases of a run

  /** A run that fits, with these gauges; the next sample is the first of a frame. */
  predicate At(rate: nat, q: nat, ch: nat, steps: seq<Step>, tms: int, having: nat, bins: seq<nat>)
    requires rate > 0 && ch > 0
  {
    var g := After(rate, q, steps);
    Fits(rate, q, ch, steps) && g == Gauge(tms, having, g.head, bins) && g.head % ch == 0
  }

  lemma PlayAway(rate: nat, q: nat, ch: nat, steps: seq<Step>, n: nat, tms: int, having: nat, bins: seq<nat>)
    returns (more: seq<Step>)
    requires rate > 0 && ch > 0 && At(rate, q, ch, steps, tms, having, bins) && n <= having && n % ch == 0
    ensures At(rate, q, ch, more, tms, having - n, bins)
  {
    more := steps + [Take(n)];
    assert more[..|steps|] == steps;
    SumMultiple(After(rate, q, steps).head, n, ch);
  }

  /** A packet within the window is recorded. */
  lemma PacketOn(rate: nat, q: nat, ch: nat, steps: seq<Step>, now: int, tms: int, having: nat, bins: seq<nat>)
    returns (more: seq<Step>)
    requires rate > 0 && ch > 0 && At(rate, q, ch, steps, tms, having, bins) && |bins| == BINS
    requires having + q <= 3 * rate && (tms == 0 || now < tms + WINDOW_MS)
    ensures At(rate, q, ch, more, NextTms(tms, now), having + q, RecordedIn(bins, having + q, rate))
  {
    more := steps + [Packet(q, now)];
    assert more[..|steps|] == steps;
  }

  /** Each bin has grown by at most `n`, and those below `bin` not at all. */
  ghost predicate Grown(bins: seq<nat>, more: seq<nat>, bin: nat, n: nat) {
    && |bins| == |more| == BINS
    && (forall k | 0 <= k < BINS :: bins[k] <= more[k] <= bins[k] + n)
    && (forall k | 0 <= k < BINS && k < bin :: more[k] == bins[k])
  }

  lemma BinGrows(a: nat, b: nat, rate: nat)
    requires rate > 0 && a <= b
    ensures Bin(a, rate) <= Bin(b, rate)
  {
    Floor(a * 10, rate, a * 10 / rate);
    if a * 10 / rate > b * 10 / rate { Scale(b * 10 / rate + 1, a * 10 / rate, rate); }
  }

  lemma OneMoreGrown(bins: seq<nat>, more: seq<nat>, bin: nat, n: nat, having: nat, rate: nat)
    requires rate > 0 && Grown(bins, more, bin, n) && bin <= Bin(having, rate)
    ensures Grown(bins, RecordedIn(more, having, rate), bin, n + 1)
  {
  }

  /** Packets without playback, up to a target or just above it. */
  lemma Climb(
    rate: nat, q: nat, ch: nat, steps: seq<Step>, now: int, tms: int, having: nat, target: nat, bins: seq<nat>)
    returns (more: seq<Step>, top: nat, bins': seq<nat>)
    requires rate > 0 && ch > 0 && q > 0 && |bins| == BINS && At(rate, q, ch, steps, tms, having, bins)
    requires having <= target && target + q <= 3 * rate && tms != 0 && now < tms + WINDOW_MS
    ensures |bins'| == BINS && At(rate, q, ch, more, tms, top, bins')
    ensures target <= top < target + q && (top - having) % q == 0
    ensures Grown(bins, bins', Bin(having, rate), top - having)
  {
    more, top, bins' := steps, having, bins;
    while top < target
      invariant having <= top < target + q && (top - having) % q == 0 && |bins'| == BINS
      invariant At(rate, q, ch, more, tms, top, bins')
      invariant Grown(bins, bins', Bin(having, rate), top - having)
      decreases target + q - top
    {
      more := PacketOn(rate, q, ch, more, now, tms, top, bins');
      ClimbGrown(bins, bins', having, top, q, rate);
      bins' := RecordedIn(bins', top + q, rate);
      OneMoreTurn(top - having, q);
      top := top + q;
    }
  }

  lemma ClimbGrown(bins: seq<nat>, more: seq<nat>, having: nat, top: nat, q: nat, rate: nat)
    requires rate > 0 && q > 0 && having <= top && Grown(bins, more, Bin(having, rate), top - having)
    ensures Grown(bins, RecordedIn(more, top + q, rate), Bin(having, rate), top + q - having)
  {
    var bin := Bin(having, rate);
    BinGrows(having, top + q, rate);
    OneMoreGrown(bins, more, bin, top - having, top + q, rate);
    WiderGrown(bins, RecordedIn(more, top + q, rate), bin, top - having + 1, top + q - having);
  }

  lemma WiderGrown(bins: seq<nat>, more: seq<nat>, bin: nat, n: nat, m: nat)
    requires Grown(bins, more, bin, n) && n <= m
    ensures Grown(bins, more, bin, m)
  {
  }

  lemma OneMoreTurn(a: nat, q: nat)
    requires q > 0 && a % q == 0
    ensures (a + q) % q == 0
  {
    SumMultiple(a, q, q);
    Multiple(1, q);
  }

  function Counted(bins: seq<nat>, bin: nat, n: nat): (more: seq<nat>)
    requires bin < |bins|
    ensures |more| == |bins|
  {
    bins[bin := bins[bin] + n]
  }

  /** As much is played as comes in, for `n` packets. */
  lemma {:induction false} Steady(
    rate: nat, q: nat, ch: nat, steps: seq<Step>, now: int, tms: int, having: nat, n: nat, bins: seq<nat>)
    returns (more: seq<Step>)
    requires rate > 0 && ch > 0 && q % ch == 0 && |bins| == BINS && At(rate, q, ch, steps, tms, having, bins)
    requires q <= having <= 3 * rate && tms != 0 && now < tms + WINDOW_MS
    ensures At(rate, q, ch, more, tms, having, Counted(bins, Bin(having, rate), n))
  {
    var bin := Bin(having, rate);
    if n == 0 {
      more := steps;
      assert Counted(bins, bin, 0) == bins;
    } else {
      var counts := Counted(bins, bin, n - 1);
      more := Steady(rate, q, ch, steps, now, tms, having, n - 1, bins);
      more := PlayAway(rate, q, ch, more, q, tms, having, counts);
      more := PacketOn(rate, q, ch, more, now, tms, having - q, counts);
      CountOneMore(bins, bin, n, having, rate);
    }
  }

  lemma CountOneMore(bins: seq<nat>, bin: nat, n: nat, having: nat, rate: nat)
    requires rate > 0 && |bins| == BINS && n > 0 && bin == Bin(having, rate)
    ensures RecordedIn(Counted(bins, bin, n - 1), having, rate) == Counted(bins, bin, n)
  {
  }

  // ---------------------------------------------------------------- a first window fills the buffer

  /** A short first packet is recorded in one of the two lowest bins. */
  lemma FirstPacketLow(q: nat, rate: nat)
    requires rate > 0 && 10 * q <= rate
    ensures Bin(q, rate) <= 1
  {
    BinGrows(q, q, rate);
    Floor(q * 10, rate, q * 10 / rate);
    if q * 10 / rate >= 2 { Scale(2, q * 10 / rate, rate); }
  }

  lemma LowRecordNoMark(bins: seq<nat>, bin: nat)
    requires |bins| == BINS && bin <= 1 && bins[bin] > 0
    ensures Mark(bins) == 0
  {
    LeadingIsFirstFilled(bins, BINS);
    MarkCases(bins);
  }

  /** What is above a target of whole frames, after whole packets. */
  lemma FramesAbove(top: nat, from: nat, target: nat, q: nat, ch: nat)
    requires ch > 0 && q > 0 && from <= top && target <= top && (top - from) % q == 0
    requires q % ch == 0 && from % ch == 0 && target % ch == 0
    ensures (top - target + q) % ch == 0
  {
    WholeFrames(top - from, q, ch);
    SumMultiple(top - from, from, ch);
    SumMultiple(top, target, ch);
    SumMultiple(top - target, q, ch);
  }

  lemma WholeFrames(n: nat, q: nat, ch: nat)
    requires ch > 0 && q > 0 && n % q == 0 && q % ch == 0
    ensures n % ch == 0
  {
    var a, b := n / q, q / ch;
    assert n == a * q && q == b * ch;
    assert n == a * b * ch;
    Multiple(a * b, ch);
  }

  lemma FirstClimb(rate: nat, q: nat, ch: nat, target: nat)
    returns (steps: seq<Step>, top: nat, bins: seq<nat>)
    requires rate > 0 && ch > 0 && 0 < q <= target && target + q <= 3 * rate
    ensures |bins| == BINS && At(rate, q, ch, steps, 1, top, bins)
    ensures target <= top < target + q && (top - q) % q == 0 && bins[Bin(q, rate)] > 0
  {
    steps := PacketOn(rate, q, ch, [], 1, 0, 0, EmptyBins());
    steps, top, bins := Climb(rate, q, ch, steps, 1, 1, q, target, RecordedIn(EmptyBins(), q, rate));
  }

  /** The buffer is filled packet by packet. Its window then closes with an empty
      histogram and without a drop. */
  lemma FilledUp(rate: nat, q: nat, ch: nat, target: nat) returns (steps: seq<Step>)
    requires rate > 0 && ch > 0 && q > 0 && q % ch == 0 && target % ch == 0 && 10 * q <= rate
    requires q <= target && target + q <= 3 * rate
    ensures At(rate, q, ch, steps, 1 + WINDOW_MS, target, EmptyBins())
  {
    var top, bins;
    steps, top, bins := FirstClimb(rate, q, ch, target);
    FirstPacketLow(q, rate);
    FramesAbove(top, q, target, q, ch);
    steps := PlayAway(rate, q, ch, steps, top - target + q, 1, top, bins);
    LowRecordNoMark(RecordedIn(bins, target, rate), Bin(q, rate));
    steps := CloseWithoutDrop(rate, q, ch, steps, 1, target - q, bins);
  }

  lemma CloseWithoutDrop(rate: nat, q: nat, ch: nat, steps: seq<Step>, tms: int, having: nat, bins: seq<nat>)
    returns (more: seq<Step>)
    requires rate > 0 && ch > 0 && |bins| == BINS && At(rate, q, ch, steps, tms, having, bins)
    requires having + q <= 3 * rate && tms != 0 && Mark(RecordedIn(bins, having + q, rate)) == 0
    ensures At(rate, q, ch, more, tms + WINDOW_MS, having + q, EmptyBins())
  {
    more := steps + [Packet(q, tms + WINDOW_MS)];
    assert more[..|steps|] == steps;
    NoMarkNoDrop(Ring(3 * rate, Silence(having + q)));
  }

  // ---------------------------------------------------------------- a second window sets the mark

  /** The histogram of a long stay in the high bin and a short one from the low
      bin on. */
  ghost predicate StayedHigh(bins: seq<nat>, low: nat, high: nat, few: nat) {
    && |bins| == BINS && low <= high < BINS && high > 0
    && (forall k | 0 <= k < low :: bins[k] == 0) && bins[low] > 0
    && bins[high] > few && forall k | 0 <= k < BINS && k != high :: bins[k] <= few
  }

  lemma MarkOfStay(bins: seq<nat>, low: nat, high: nat, few: nat)
    requires StayedHigh(bins, low, high, few)
    ensures Leading(bins, BINS) == low && Mode(bins, BINS) == high
    ensures 6 <= low == high ==> Mark(bins) == high
    ensures low == 2 && high == 6 ==> Mark(bins) == 4
    ensures low == 5 && high == 7 ==> Mark(bins) == 7
  {
    LeadingIsFirstFilled(bins, BINS);
    ModeIsFirstLargest(bins, BINS);
    var m := Mode(bins, BINS);
    assert Weight(bins, high) <= Weight(bins, m);
    assert m == high;
  }

  lemma Dip(rate: nat, q: nat, ch: nat, steps: seq<Step>, low: nat, high: nat, tms: int, n: nat)
    returns (more: seq<Step>)
    requires rate > 0 && ch > 0 && q > 0 && q % ch == 0 && low % ch == 0 && high % ch == 0
    requires At(rate, q, ch, steps, tms, high, EmptyBins()) && tms > 0 && q <= low <= high <= 3 * rate
    ensures At(rate, q, ch, more, tms, low, RecordedIn(Counted(EmptyBins(), Bin(high, rate), n), low, rate))
  {
    var bins := Counted(EmptyBins(), Bin(high, rate), n);
    more := Steady(rate, q, ch, steps, 1 + tms, tms, high, n, EmptyBins());
    SumMultiple(high, low, ch);
    SumMultiple(high - low, q, ch);
    more := PlayAway(rate, q, ch, more, high - low + q, tms, high, bins);
    more := PacketOn(rate, q, ch, more, 1 + tms, tms, low - q, bins);
  }

  lemma ClimbBack(rate: nat, q: nat, ch: nat, steps: seq<Step>, low: nat, last: nat, tms: int, bins: seq<nat>)
    returns (more: seq<Step>, top: nat, bins': seq<nat>)
    requires rate > 0 && ch > 0 && q > 0 && q % ch == 0 && low % ch == 0 && last % ch == 0 && |bins| == BINS
    requires At(rate, q, ch, steps, tms, low, bins) && tms > 0 && q <= low <= last && last + q <= 3 * rate
    ensures At(rate, q, ch, more, tms, last - q, bins')
    ensures last <= top < last + q && Grown(bins, bins', Bin(low, rate), top - low)
  {
    more, top, bins' := Climb(rate, q, ch, steps, 1 + tms, tms, low, last, bins);
    FramesAbove(top, low, last, q, ch);
    more := PlayAway(rate, q, ch, more, top - last + q, tms, top, bins');
  }

  /** From a full buffer: a long stay there, one record at the low occupancy, and
      packets up to the last one, whose window is about to close. */
  lemma StayThenDip(rate: nat, q: nat, ch: nat, steps: seq<Step>, low: nat, last: nat, high: nat, tms: int)
    returns (more: seq<Step>, bins: seq<nat>)
    requires rate > 0 && ch > 0 && q > 0 && q % ch == 0 && low % ch == 0 && last % ch == 0 && high % ch == 0
    requires At(rate, q, ch, steps, tms, high, EmptyBins()) && tms > 0
    requires q <= low <= last <= high && high + q <= 3 * rate && Bin(high, rate) > 0
    ensures At(rate, q, ch, more, tms, last - q, bins) && |bins| == BINS
    ensures StayedHigh(RecordedIn(bins, last, rate), Bin(low, rate), Bin(high, rate), high + q + 2)
  {
    var few, top := high + q + 2, 0;
    more := Dip(rate, q, ch, steps, low, high, tms, few + 1);
    var b0 := Counted(EmptyBins(), Bin(high, rate), few + 1);
    more, top, bins := ClimbBack(rate, q, ch, more, low, last, tms, RecordedIn(b0, low, rate));
    BinGrows(low, last, rate);
    BinGrows(last, high, rate);
    StayGrown(b0, RecordedIn(b0, low, rate), bins, Bin(low, rate), Bin(last, rate), Bin(high, rate), top - low, few);
  }

  lemma StayGrown(b0: seq<nat>, b1: seq<nat>, b2: seq<nat>, low: nat, last: nat, high: nat, n: nat, few: nat)
    requires low <= last <= high < BINS && high > 0 && n + 2 <= few
    requires b0 == Counted(EmptyBins(), high, few + 1) && b1 == Counted(b0, low, 1) && Grown(b1, b2, low, n)
    ensures StayedHigh(Counted(b2, last, 1), low, high, few)
  {
  }

  /** The whole run, up to the packet that closes the second window. */
  lemma DipRun(rate: nat, q: nat, ch: nat, low: nat, last: nat, high: nat, mark: nat) returns (steps: seq<Step>)
    requires rate > 0 && ch > 0 && q > 0 && q % ch == 0 && low % ch == 0 && last % ch == 0 && high % ch == 0
    requires 10 * q <= rate && q <= low <= last <= high && high + q <= 3 * rate && Bin(high, rate) > 0
    requires forall bins | StayedHigh(bins, Bin(low, rate), Bin(high, rate), high + q + 2) :: Mark(bins) == mark
    ensures var dropped := Dropped(Ring(3 * rate, Silence(last)), mark);
            var before, after := After(rate, q, steps), After(rate, q, steps + [Packet(q, 1 + 2 * WINDOW_MS)]);
            && Fits(rate, q, ch, steps) && Fits(rate, q, ch, steps + [Packet(q, 1 + 2 * WINDOW_MS)])
            && before.having == last - q && before.head % ch == 0
            && after.having == last - dropped && after.head == before.head + dropped
  {
    steps := FilledUp(rate, q, ch, high);
    var bins;
    steps, bins := StayThenDip(rate, q, ch, steps, low, last, high, 1 + WINDOW_MS);
    var more := steps + [Packet(q, 1 + 2 * WINDOW_MS)];
    assert more[..|steps|] == steps;
    assert Mark(RecordedIn(bins, last, rate)) == mark;
  }

  // ---------------------------------------------------------------- the 600 milliseconds

  /** The promise of 600 milliseconds fails in a run of a usual stereo device with
      packets of 10 milliseconds: it holds 700 milliseconds for most of a window,
      then 550, and 175 of these are dropped when the window closes. */
  lemma DropsBelow600Milliseconds() returns (steps: seq<Step>)
    ensures AllRegular(steps, 960, 2) && forall i | 0 <= i < |steps| :: Allowed(steps[i])
    ensures |OnDevice(48000, 2, steps).s.ring.content| == 52800 - 960
    ensures |OnDevice(48000, 2, steps + [Packet(960, 1 + 2 * WINDOW_MS)]).s.ring.content| == 52800 - 16800
  {
    ResizedIsFresh(48000, 2);
    BinsAt48000();
    steps := DipFrom700(96000, 960, 2, 52800, 67200);
    SkipAt48000(Ring(288000, Silence(52800)));
    RunShows(96000, 960, 2, steps);
    RunShows(96000, 960, 2, steps + [Packet(960, 1 + 2 * WINDOW_MS)]);
    OnDeviceIs(48000, 2, steps);
    OnDeviceIs(48000, 2, steps + [Packet(960, 1 + 2 * WINDOW_MS)]);
  }

  lemma DipFrom700(rate: nat, q: nat, ch: nat, low: nat, high: nat) returns (steps: seq<Step>)
    requires rate > 0 && ch > 0 && q > 0 && q % ch == 0 && low % ch == 0 && high % ch == 0
    requires 10 * q <= rate && q <= low <= high && high + q <= 3 * rate
    requires Bin(low, rate) == 5 && Bin(high, rate) == 7
    ensures var more := steps + [Packet(q, 1 + 2 * WINDOW_MS)];
            && Fits(rate, q, ch, steps) && Fits(rate, q, ch, more)
            && After(rate, q, steps).having == low - q
            && After(rate, q, more).having == low - Dropped(Ring(3 * rate, Silence(low)), 7)
  {
    forall bins | StayedHigh(bins, 5, 7, high + q + 2) ensures Mark(bins) == 7 {
      MarkOfStay(bins, 5, 7, high + q + 2);
    }
    steps := DipRun(rate, q, ch, low, low, high, 7);
  }

  lemma BinsAt48000()
    ensures Bin(67200, 96000) == 7 && Bin(52800, 96000) == 5
  {
  }

  lemma SkipAt48000(ring: Ring)
    requires ring.capacity == 288000 && |ring.content| == 52800
    ensures Dropped(ring, 7) == 16800
  {
  }

  // ---------------------------------------------------------------- a run for every mark

  /** The fewest frames whose occupancy falls into a bin. */
  function FramesOf(sampleRate: nat, bin: nat): nat { (bin * sampleRate + 9) / 10 }

  lemma FramesInBin(sampleRate: nat, bin: nat)
    requires sampleRate >= 10
    ensures bin * sampleRate <= 10 * FramesOf(sampleRate, bin) < bin * sampleRate + sampleRate
  {
  }

  lemma BinOfFrames(sampleRate: nat, ch: nat, bin: nat)
    requires sampleRate >= 10 && ch > 0 && bin < BINS && sampleRate * ch > 0
    ensures Bin(FramesOf(sampleRate, bin) * ch, sampleRate * ch) == bin
    ensures FramesOf(sampleRate, bin) * ch <= 3 * (sampleRate * ch)
    ensures bin * (sampleRate * ch) <= 10 * (FramesOf(sampleRate, bin) * ch)
  {
    var f, rate := FramesOf(sampleRate, bin), sampleRate * ch;
    FramesInBin(sampleRate, bin);
    TimesChannels(bin * sampleRate, 10 * f, bin * sampleRate + sampleRate, ch);
    Regroup(bin, sampleRate, f, ch);
    BinAround(f * ch, bin, rate);
  }

  lemma Regroup(bin: nat, sampleRate: nat, f: nat, ch: nat)
    ensures bin * sampleRate * ch == bin * (sampleRate * ch) && 10 * f * ch == 10 * (f * ch)
    ensures (bin * sampleRate + sampleRate) * ch == bin * (sampleRate * ch) + sampleRate * ch
  {
  }

  lemma BinAround(having: nat, bin: nat, rate: nat)
    requires rate > 0 && bin < BINS && bin * rate <= 10 * having < bin * rate + rate
    ensures Bin(having, rate) == bin && having <= 3 * rate
  {
    Between(having * 10, bin, rate);
    Scale(bin, 29, rate);
  }

  lemma TimesChannels(a: int, b: int, c: int, ch: nat)
    requires a <= b < c && ch > 0
    ensures a * ch <= b * ch < c * ch
  {
    Scale(a, b, ch);
    Scale(b + 1, c, ch);
    assert (b + 1) * ch == b * ch + ch;
  }

  lemma FramesGrow(sampleRate: nat, low: nat, high: nat)
    requires low <= high
    ensures FramesOf(sampleRate, low) <= FramesOf(sampleRate, high)
  {
    Scale(low, high, sampleRate);
  }

  lemma EnoughToDrop(rate: nat, mark: nat, bin: nat, having: nat)
    requires rate >= 30 && (6 <= mark == bin || (mark == 4 && bin == 6)) && bin * rate <= 10 * having
    ensures having > 3 * SkipSize(3 * rate, mark)
  {
    var n := rate * mark;
    assert 3 * rate * mark == 3 * n && rate * bin == bin * rate;
    assert 3 * n / 120 <= n / 40;
    if mark == 4 {
      assert n == 4 * rate;
    } else {
      Scale(30, rate, mark);
    }
  }

  /** A packet of `p` frames, in samples, and an occupancy of whole frames. */
  lemma Samples(sampleRate: nat, ch: nat, p: nat, bin: nat)
    requires ch > 0 && p > 0 && sampleRate >= 10 * p + 9 && 1 <= bin < BINS && sampleRate * ch > 0
    ensures 0 < p * ch && p * ch % ch == 0 && 10 * (p * ch) <= sampleRate * ch
    ensures FramesOf(sampleRate, bin) * ch % ch == 0
    ensures p * ch <= FramesOf(sampleRate, bin) * ch
    ensures FramesOf(sampleRate, bin) * ch + p * ch <= 3 * (sampleRate * ch)
  {
    var f := FramesOf(sampleRate, bin);
    Multiple(p, ch);
    Multiple(f, ch);
    Scale(1, p, ch);
    FramesFit(sampleRate, p, bin);
    Scale(10 * p, sampleRate, ch);
    Scale(p, f, ch);
    Scale(f + p, 3 * sampleRate, ch);
    Distribute(sampleRate, p, f, ch);
  }

  lemma FramesFit(sampleRate: nat, p: nat, bin: nat)
    requires p > 0 && sampleRate >= 10 * p + 9 && 1 <= bin < BINS
    ensures p <= FramesOf(sampleRate, bin) && FramesOf(sampleRate, bin) + p <= 3 * sampleRate
  {
    FramesGrow(sampleRate, 1, bin);
    FramesGrow(sampleRate, bin, 29);
  }

  lemma Distribute(sampleRate: nat, p: nat, f: nat, ch: nat)
    ensures 10 * p * ch == 10 * (p * ch) && (f + p) * ch == f * ch + p * ch
    ensures 3 * sampleRate * ch == 3 * (sampleRate * ch)
  {
  }

  /** With three or more channels every reachable mark is reached by a run of
      packets of any one size up to about a tenth of a second, whose last packet
      then drops the mark's amount. */
  lemma MarkReached(sampleRate: nat, ch: nat, p: nat, mark: nat) returns (steps: seq<Step>, played: int)
    requires p > 0 && sampleRate >= 10 * p + 9 && ch >= 3 && sampleRate * ch >= 30 && Reachable(mark) && mark > 0
    ensures AllRegular(steps, p * ch, ch) && forall i | 0 <= i < |steps| :: Allowed(steps[i])
    ensures OnDevice(sampleRate, ch, steps).Head() == played + SkipSize(3 * (sampleRate * ch), mark)
    ensures played % ch == 0
  {
    var low, high := if mark == 4 then 2 else mark, if mark == 4 then 6 else mark;
    Samples(sampleRate, ch, p, low);
    Samples(sampleRate, ch, p, high);
    BinOfFrames(sampleRate, ch, low);
    BinOfFrames(sampleRate, ch, high);
    FramesGrow(sampleRate, low, high);
    Scale(FramesOf(sampleRate, low), FramesOf(sampleRate, high), ch);
    steps, played := MarkInRun(
      sampleRate * ch, p * ch, ch, FramesOf(sampleRate, low) * ch, FramesOf(sampleRate, high) * ch, low, high, mark);
    ShownOnDevice(sampleRate, ch, steps);
  }

  lemma ShownOnDevice(sampleRate: nat, ch: nat, steps: seq<Step>)
    requires sampleRate * ch > 0 && forall i | 0 <= i < |steps| :: Allowed(steps[i])
    ensures Fresh(sampleRate * ch).Inv() && OnDevice(sampleRate, ch, steps) == Run(Fresh(sampleRate * ch), steps)
  {
    ResizedIsFresh(sampleRate, ch);
    OnDeviceIs(sampleRate, ch, steps);
  }

  lemma MarkInRun(rate: nat, q: nat, ch: nat, low: nat, high: nat, lowBin: nat, highBin: nat, mark: nat)
    returns (steps: seq<Step>, played: int)
    requires rate >= 30 && ch > 0 && q > 0 && q % ch == 0 && low % ch == 0 && high % ch == 0 && 10 * q <= rate
    requires q <= low <= high && high + q <= 3 * rate && lowBin == Bin(low, rate) && highBin == Bin(high, rate)
    requires (6 <= mark == lowBin == highBin) || (mark == 4 && lowBin == 2 && highBin == 6)
    requires highBin * rate <= 10 * high
    ensures AllRegular(steps, q, ch) && forall i | 0 <= i < |steps| :: Allowed(steps[i])
    ensures Fresh(rate).Inv() && Run(Fresh(rate), steps).Head() == played + SkipSize(3 * rate, mark)
    ensures played % ch == 0
  {
    forall bins | StayedHigh(bins, lowBin, highBin, high + q + 2) ensures Mark(bins) == mark {
      MarkOfStay(bins, lowBin, highBin, high + q + 2);
    }
    steps := DipRun(rate, q, ch, low, high, high, mark);
    EnoughToDrop(rate, mark, highBin, high);
    played := After(rate, q, steps).head;
    steps := steps + [Packet(q, 1 + 2 * WINDOW_MS)];
    RunShows(rate, q, ch, steps);
  }

  // ---------------------------------------------------------------- devices

  /** As `KeepsFrames`, for a device whose packets all have `q` samples. */
  ghost predicate KeepsFramesOf(sampleRate: nat, ch: nat, q: nat)
    requires sampleRate * ch > 0 && ch > 0
  {
    forall steps: seq<Step> | AllRegular(steps, q, ch) && (forall i | 0 <= i < |steps| :: Allowed(steps[i])) ::
      Aligned(OnDevice(sampleRate, ch, steps), ch)
  }

  lemma KeepsFramesOfAnySize(sampleRate: nat, ch: nat, q: nat)
    requires sampleRate * ch > 0 && ch > 0 && q % ch == 0 && KeepsFrames(sampleRate, ch)
    ensures KeepsFramesOf(sampleRate, ch, q)
  {
    forall steps: seq<Step> | AllRegular(steps, q, ch) && (forall i | 0 <= i < |steps| :: Allowed(steps[i]))
      ensures Aligned(OnDevice(sampleRate, ch, steps), ch)
    {
      forall i | 0 <= i < |steps| ensures Whole(steps[i], ch) { RegularIsWhole(steps[i], q, ch); }
      KeptInRun(sampleRate, ch, steps);
    }
  }

  lemma KeptInRun(sampleRate: nat, ch: nat, steps: seq<Step>)
    requires sampleRate * ch > 0 && ch > 0 && KeepsFrames(sampleRate, ch)
    requires forall i | 0 <= i < |steps| :: Allowed(steps[i]) && Whole(steps[i], ch)
    ensures Aligned(OnDevice(sampleRate, ch, steps), ch)
  {
  }

  lemma RegularIsWhole(step: Step, q: nat, ch: nat)
    requires ch > 0 && q % ch == 0 && Regular(step, q, ch)
    ensures Whole(step, ch)
  {
  }

  /** Main result for a device and its packet size: whole frames stay whole in all
      runs, of such packets or of any whole frames, if and only if every
      reachable mark drops whole frames. */
  lemma DeviceKeepsFramesIff(sampleRate: nat, ch: nat, p: nat)
    requires p > 0 && sampleRate >= 10 * p + 9 && ch > 0 && sampleRate * ch > 0
    ensures KeepsFramesOf(sampleRate, ch, p * ch) <==> FrameDrops(3 * (sampleRate * ch), ch)
    ensures KeepsFrames(sampleRate, ch) <==> FrameDrops(3 * (sampleRate * ch), ch)
  {
    Multiple(p, ch);
    if FrameDrops(3 * (sampleRate * ch), ch) {
      FrameDropsKeepAll(sampleRate, ch, p * ch);
    } else {
      SomeMarkBreaks(sampleRate, ch, p);
      NotEvenOfOneSize(sampleRate, ch, p * ch);
    }
  }

  lemma FrameDropsKeepAll(sampleRate: nat, ch: nat, q: nat)
    requires sampleRate * ch > 0 && ch > 0 && q % ch == 0 && FrameDrops(3 * (sampleRate * ch), ch)
    ensures KeepsFrames(sampleRate, ch) && KeepsFramesOf(sampleRate, ch, q)
  {
    FrameDropsKeepFrames(sampleRate, ch);
    KeepsFramesOfAnySize(sampleRate, ch, q);
  }

  lemma SomeMarkBreaks(sampleRate: nat, ch: nat, p: nat)
    requires p > 0 && sampleRate >= 10 * p + 9 && ch > 0 && sampleRate * ch > 0
    requires !FrameDrops(3 * (sampleRate * ch), ch)
    ensures !KeepsFramesOf(sampleRate, ch, p * ch)
  {
    var mark: nat :| mark < BINS && Reachable(mark) && SkipSize(3 * (sampleRate * ch), mark) % ch != 0;
    MarkBreaksFrames(sampleRate, ch, p, mark);
  }

  lemma NotEvenOfOneSize(sampleRate: nat, ch: nat, q: nat)
    requires sampleRate * ch > 0 && ch > 0 && q % ch == 0 && !KeepsFramesOf(sampleRate, ch, q)
    ensures !KeepsFrames(sampleRate, ch)
  {
    if KeepsFrames(sampleRate, ch) { KeepsFramesOfAnySize(sampleRate, ch, q); }
  }

  /** Only with three channels or more can a drop split a frame. */
  lemma EvenDrop(capacity: nat, mark: nat, ch: nat)
    requires ch > 0 && SkipSize(capacity, mark) % ch != 0
    ensures ch >= 3 && mark > 0
  {
    NoMarkNoDrop(Ring(capacity, []));
  }

  lemma MarkBreaksFrames(sampleRate: nat, ch: nat, p: nat, mark: nat)
    requires p > 0 && sampleRate >= 10 * p + 9 && ch > 0 && sampleRate * ch > 0 && Reachable(mark)
    requires SkipSize(3 * (sampleRate * ch), mark) % ch != 0
    ensures !KeepsFramesOf(sampleRate, ch, p * ch)
  {
    EvenDrop(3 * (sampleRate * ch), mark, ch);
    Scale(10, sampleRate, ch);
    var steps, played := MarkReached(sampleRate, ch, p, mark);
    NotWhole(played, SkipSize(3 * (sampleRate * ch), mark), ch);
    SplitFrame(sampleRate, ch, p, steps);
  }

  lemma NotWhole(a: int, b: nat, ch: nat)
    requires ch > 0 && a % ch == 0 && b % ch != 0
    ensures (a + b) % ch != 0
  {
    if (a + b) % ch == 0 { SumMultiple(a + b, a, ch); }
  }

  lemma SplitFrame(sampleRate: nat, ch: nat, p: nat, steps: seq<Step>)
    requires sampleRate * ch > 0 && ch > 0
    requires AllRegular(steps, p * ch, ch) && forall i | 0 <= i < |steps| :: Allowed(steps[i])
    requires OnDevice(sampleRate, ch, steps).Head() % ch != 0
    ensures !KeepsFramesOf(sampleRate, ch, p * ch)
  {
    assert !Aligned(OnDevice(sampleRate, ch, steps), ch);
  }

  /** A usual device with six channels at 44100 Hz does lose its place, with
      packets of 10 milliseconds. */
  lemma SurroundLosesFrames()
    ensures !KeepsFramesOf(44100, 6, 2646)
  {
    assert Reachable(7) && SkipSize(3 * (44100 * 6), 7) == 46306;
    DeviceKeepsFramesIff(44100, 6, 441);
  }

  lemma SkipOfFull(ch: nat)
    requires ch >= 3
    ensures SkipSize(60 * ch, 29) % ch != 0
  {
    var skip := SkipSize(60 * ch, 29);
    assert 14 * ch < skip < 15 * ch;
    Between(skip, 14, ch);
  }

  /** Main result: rounding the dropped amount to an even number keeps left and
      right apart, but no more than that. Frames stay whole at every sample
      rate exactly for devices with one or two channels. */
  lemma KeepsFramesIff(ch: nat)
    requires ch > 0
    ensures (forall sampleRate: nat | sampleRate * ch > 0 :: KeepsFrames(sampleRate, ch)) <==> ch <= 2
  {
    if ch <= 2 {
      forall sampleRate: nat | sampleRate * ch > 0 ensures KeepsFrames(sampleRate, ch) {
        FrameDropsKeepFrames(sampleRate, ch);
      }
    } else {
      BreaksAt20(20, ch);
      assert !KeepsFrames(20, ch);
    }
  }

  lemma BreaksAt20(sampleRate: nat, ch: nat)
    requires sampleRate == 20 && ch >= 3
    ensures !KeepsFrames(sampleRate, ch)
  {
    SkipOfFull(ch);
    assert Reachable(29) && 3 * (sampleRate * ch) == 60 * ch;
    DeviceKeepsFramesIff(sampleRate, ch, 1);
  }
}
