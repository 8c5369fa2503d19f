/** The audio jitter buffer of src/client.rs: a ring of samples, a histogram of
    its occupancy, and the rule that drops samples every twelve seconds. */
module AudioBuffers {

  // Samples are only moved around.
  type Sample = int

  // Milliseconds of audio that the ring can hold.
  const AUDIO_BUFFER_MS := 3000
  // Milliseconds between two attempts to drop.
  const WINDOW_MS := 12000
  const BINS := 30

  /** The ring buffer of the `ringbuf` crate, by its contract. */
  datatype Ring = Ring(capacity: nat, content: seq<Sample>) {
    function Skip(n: nat): Ring {
      this.(content := content[if n <= |content| then n else |content|..])
    }

    function PushOverwrite(buffer: seq<Sample>): Ring {
      this.(content := LastOf(content + buffer, capacity))
    }
  }

  function LastOf(s: seq<Sample>, n: nat): seq<Sample> {
    if |s| <= n then s else s[|s| - n..]
  }

  // ---------------------------------------------------------------- the drop rule

  /** The bin of an occupancy: tenths of a second, at most 29. */
  function Bin(having: nat, rate: nat): (i: nat)
    requires rate > 0
    ensures i < BINS
  {
    if having * 10 / rate > 29 then 29 else having * 10 / rate
  }

  /** How many of the first n bins are empty before the first filled one. */
  function Leading(bins: seq<nat>, n: nat): (z: nat)
    requires n <= |bins|
    ensures z <= n
  {
    if n == 0 then 0
    else if Leading(bins, n - 1) == n - 1 && bins[n - 1] == 0 then n
    else Leading(bins, n - 1)
  }

  lemma {:induction false} LeadingIsFirstFilled(bins: seq<nat>, n: nat)
    requires n <= |bins|
    ensures var z := Leading(bins, n);
            (forall k | 0 <= k < z :: bins[k] == 0) && (z < n ==> bins[z] > 0)
  {
    if n > 0 { LeadingIsFirstFilled(bins, n - 1); }
  }

  /** The count the code compares: its loop has cleared bin 0 by then. */
  function Weight(bins: seq<nat>, k: nat): nat
    requires k < |bins|
  {
    if k == 0 then 0 else bins[k]
  }

  /** The first of n bins with the largest count. */
  function Mode(bins: seq<nat>, n: nat): (m: nat)
    requires 1 <= n <= |bins|
    ensures m < n
  {
    if n == 1 then 0
    else if Weight(bins, n - 1) > Weight(bins, Mode(bins, n - 1)) then n - 1
    else Mode(bins, n - 1)
  }

  lemma {:induction false} ModeIsFirstLargest(bins: seq<nat>, n: nat)
    requires 1 <= n <= |bins|
    ensures var m := Mode(bins, n);
            && (forall k | 0 <= k < n :: Weight(bins, k) <= Weight(bins, m))
            && (forall k | 0 <= k < m :: Weight(bins, k) < Weight(bins, m))
  {
    if n > 1 { ModeIsFirstLargest(bins, n - 1); }
  }

  /** The mark that decides the drop, in 120ths of the capacity. */
  function Mark(bins: seq<nat>): nat
    requires |bins| == BINS
  {
    var zero := Leading(bins, BINS) * 2 / 3;
    var max := Mode(bins, BINS);
    if max < 6 then 0 else if max > zero * 4 then zero * 4 else max
  }

  /** Rounded up to an even number. */
  function SkipSize(capacity: nat, mark: nat): (skip: nat)
    ensures skip % 2 == 0 && capacity * mark / 120 <= skip <= capacity * mark / 120 + 1
  {
    var n := capacity * mark / 120 + 1;
    n - n % 2
  }

  function Dropped(ring: Ring, mark: nat): nat {
    var skip := SkipSize(ring.capacity, mark);
    if |ring.content| > skip * 3 then skip else 0
  }

  function EmptyBins(): (bins: seq<nat>)
    ensures |bins| == BINS && forall k | 0 <= k < BINS :: bins[k] == 0
  {
    seq(BINS, k => 0)
  }

  datatype Audio = Audio(ring: Ring, rate: nat, bins: seq<nat>) {
    ghost predicate Valid() {
      rate > 0 && |bins| == BINS && ring.capacity == 3 * rate && |ring.content| <= ring.capacity
    }

    function Resize(sampleRate: nat, channels: nat): Audio {
      var capacity := sampleRate * channels * AUDIO_BUFFER_MS / 1000;
      if capacity == ring.capacity then this
      else Audio(Ring(capacity, []), sampleRate * channels, bins)
    }

    function Append(buffer: seq<Sample>): Audio {
      this.(ring := ring.PushOverwrite(buffer))
    }

    function Play(n: nat): Audio {
      this.(ring := ring.Skip(n))
    }

    function Record(having: nat): Audio
      requires rate > 0 && |bins| == BINS
    {
      var i := Bin(having, rate);
      this.(bins := bins[i := bins[i] + 1])
    }

    function Close(): Audio
      requires |bins| == BINS
    {
      this.(ring := ring.Skip(Dropped(ring, Mark(bins))), bins := EmptyBins())
    }

    predicate Closes(tms: int, now: int) {
      tms != 0 && now >= tms + WINDOW_MS
    }

    function TryShrink(having: nat, tms: int, now: int): Audio
      requires rate > 0 && |bins| == BINS
    {
      if Closes(tms, now) then Record(having).Close() else Record(having)
    }
  }

  function NextTms(tms: int, now: int): int {
    if tms != 0 && now < tms + WINDOW_MS then tms else now
  }

  // ---------------------------------------------------------------- the buffer as the program keeps it

  /** The process-wide time of the last window. */
  class WindowClock {
    var tms: int
    constructor () ensures tms == 0 { tms := 0; }
  }

  class AudioBuffer {
    var ring: Ring
    var rate: nat
    const bins: array<nat>
    const clock: WindowClock

    ghost predicate Valid() reads this, bins {
      bins.Length == BINS && State().Valid()
    }

    function State(): Audio reads this, bins {
      Audio(ring, rate, bins[..])
    }

    constructor (clock: WindowClock)
      ensures Valid() && fresh(bins) && this.clock == clock
      ensures State() == Audio(Ring(288000, []), 96000, EmptyBins())
    {
      this.clock := clock;
      ring := Ring(48000 * 2 * AUDIO_BUFFER_MS / 1000, []);
      rate := 48000 * 2;
      bins := new nat[BINS](k => 0);
      new;
      assert bins[..] == EmptyBins();
    }

    method Resize(sampleRate: nat, channels: nat)
      requires Valid() && sampleRate * channels > 0
      modifies this
      ensures Valid() && State() == old(State()).Resize(sampleRate, channels)
    {
      var capacity := sampleRate * channels * AUDIO_BUFFER_MS / 1000;
      if capacity != ring.capacity {
        ring := Ring(capacity, []);
        rate := sampleRate * channels;
      }
    }

    method AppendPcm2(buffer: seq<Sample>) returns (having: nat)
      requires Valid()
      modifies this`ring
      ensures Valid() && State() == old(State()).Append(buffer)
      ensures having == |ring.content|
    {
      var cap := ring.capacity;
      if |buffer| > cap {
        ring := ring.PushOverwrite(buffer);
        return cap;
      }
      var occupied := |ring.content| + |buffer|;
      ghost var all := ring.content + buffer;
      if occupied > cap {
        ring := ring.Skip(occupied - cap);
        assert ring.content + buffer == all[occupied - cap..];
      }
      ring := ring.PushOverwrite(buffer);
      return |ring.content|;
    }

    /** The two water marks of the closing window; the histogram is cleared on the way. */
    method TakeMark() returns (mark: nat)
      requires Valid()
      modifies bins
      ensures mark == Mark(old(bins[..])) && bins[..] == EmptyBins()
    {
      ghost var counts := bins[..];
      var zero, max := 0, 0;
      for j := 0 to BINS
        modifies bins
        invariant zero == Leading(counts, j)
        invariant max == if j == 0 then 0 else Mode(counts, j)
        invariant forall k | 0 <= k < j :: bins[k] == if k == max then Weight(counts, k) else 0
        invariant forall k | j <= k < BINS :: bins[k] == counts[k]
      {
        if bins[j] == 0 && zero == j {
          zero := zero + 1;
        }
        if bins[j] > bins[max] {
          bins[max] := 0;
          max := j;
        } else {
          bins[j] := 0;
        }
      }
      zero := zero * 2 / 3;
      bins[max] := 0;
      assert bins[..] == EmptyBins();
      if max < 6 {
        return 0;
      } else if max > zero * 4 {
        max := zero * 4;
      }
      return max;
    }

    method Drop(mark: nat)
      requires Valid()
      modifies this`ring
      ensures Valid() && ring == old(ring).Skip(Dropped(old(ring), mark))
    {
      var cap := ring.capacity;
      var occupied := |ring.content|;
      var skip := cap * mark / (30 * 4) + 1;
      skip := skip - skip % 2;
      if occupied > skip * 3 && skip > 0 {
        ring := ring.Skip(skip);
      }
    }

    method TryShrink(having: nat, now: int)
      requires Valid()
      modifies this`ring, bins, clock
      ensures Valid() && State() == old(State()).TryShrink(having, old(clock.tms), now)
      ensures clock.tms == NextTms(old(clock.tms), now)
    {
      var i := having * 10 / rate;
      if i > 29 { i := 29; }
      bins[i] := bins[i] + 1;
      assert State() == old(State()).Record(having);

      if clock.tms == 0 {
        clock.tms := now;
        return;
      } else if now < clock.tms + WINDOW_MS {
        return;
      }
      clock.tms := now;

      var mark := TakeMark();
      Drop(mark);
    }

    method AppendPcm(buffer: seq<Sample>, now: int)
      requires Valid()
      modifies this`ring, bins, clock
      ensures Valid()
      ensures var s := old(State()).Append(buffer);
              State() == s.TryShrink(|s.ring.content|, old(clock.tms), now)
      ensures clock.tms == NextTms(old(clock.tms), now)
    {
      var having := AppendPcm2(buffer);
      TryShrink(having, now);
    }

    /** The playback callback: what it hands to the device, silence at the end. */
    method Play(n: nat) returns (data: seq<Sample>)
      requires Valid()
      modifies this`ring
      ensures Valid() && State() == old(State()).Play(n)
      ensures |data| == n
      ensures forall k | 0 <= k < n ::
                data[k] == if k < |old(ring.content)| then old(ring.content)[k] else 0
    {
      var k := if |ring.content| < n then |ring.content| else n;
      data := ring.content[..k] + seq(n - k, j => 0);
      ring := ring.Skip(k);
    }
  }

  // ---------------------------------------------------------------- what one drop removes

  /** Bin 0 never wins the comparison, but then nothing is dropped either; in
      every other case the winner is the fullest of all bins. */
  lemma ModeIsTheFullest(bins: seq<nat>)
    requires |bins| == BINS
    ensures bins[0] > 0 ==> Mark(bins) == 0
    ensures bins[0] == 0 ==> forall k | 0 <= k < BINS :: bins[k] <= bins[Mode(bins, BINS)]
  {
    LeadingIsFirstFilled(bins, BINS);
    ModeIsFirstLargest(bins, BINS);
    forall k | 0 <= k < BINS ensures bins[0] == 0 ==> bins[k] <= bins[Mode(bins, BINS)] {
      assert Weight(bins, k) <= Weight(bins, Mode(bins, BINS));
    }
  }

  /** A drop needs a window whose most frequent tenth of a second is at least
      the seventh and in which the buffer never fell below two tenths; what is
      buffered at the drop itself may be less than 600 milliseconds. */
  lemma DropNeedsHighWater(ring: Ring, bins: seq<nat>)
    requires |bins| == BINS && Dropped(ring, Mark(bins)) > 0
    ensures Mode(bins, BINS) >= 6 && bins[0] == 0 == bins[1]
    ensures forall k | 0 <= k < BINS :: bins[k] <= bins[Mode(bins, BINS)]
    ensures forall k | 0 <= k < Mode(bins, BINS) :: bins[k] < bins[Mode(bins, BINS)]
  {
    NoMarkNoDrop(ring);
    MarkNeedsHighWater(bins);
  }

  lemma MarkNeedsHighWater(bins: seq<nat>)
    requires |bins| == BINS && Mark(bins) > 0
    ensures Mode(bins, BINS) >= 6 && bins[0] == 0 == bins[1]
    ensures forall k | 0 <= k < BINS :: bins[k] <= bins[Mode(bins, BINS)]
    ensures forall k | 0 <= k < Mode(bins, BINS) :: bins[k] < bins[Mode(bins, BINS)]
  {
    LeadingIsFirstFilled(bins, BINS);
    ModeIsFirstLargest(bins, BINS);
    var m := Mode(bins, BINS);
    assert Leading(bins, BINS) >= 2;
    forall k | 0 <= k < BINS ensures bins[k] <= bins[m] && (k < m ==> bins[k] < bins[m]) {
      assert Weight(bins, k) <= Weight(bins, m) && (k < m ==> Weight(bins, k) < Weight(bins, m));
    }
  }

  lemma NoMarkNoDrop(ring: Ring)
    ensures Dropped(ring, 0) == 0 && SkipSize(ring.capacity, 0) == 0
  {
    assert ring.capacity * 0 / 120 == 0;
  }

  /** Nothing is dropped from less than 600 milliseconds. */
  ghost predicate Spares600(rate: nat, mark: nat) {
    forall ring: Ring | ring.capacity == 3 * rate && 10 * |ring.content| < 6 * rate :: Dropped(ring, mark) == 0
  }

  /** Whether a mark spares them: exactly if it drops nothing at all, or only
      from more than three times its amount where that is 600 milliseconds. */
  lemma Spares600Iff(rate: nat, mark: nat)
    ensures Spares600(rate, mark)
            <==> SkipSize(3 * rate, mark) == 0 || 10 * (3 * SkipSize(3 * rate, mark) + 1) >= 6 * rate
  {
    var skip := SkipSize(3 * rate, mark);
    var ring := Ring(3 * rate, seq(3 * skip + 1, i => 0));
    assert |ring.content| == 3 * skip + 1 && Dropped(ring, mark) == skip;
    if skip == 0 || 10 * (3 * skip + 1) >= 6 * rate {
      forall ring: Ring | ring.capacity == 3 * rate && 10 * |ring.content| < 6 * rate
        ensures Dropped(ring, mark) == 0
      {
      }
    }
  }

  /** Main result, by the two water marks of the window, for rates that are
      multiples of five: the promise holds exactly if the fullest tenth of a
      second lies below 600 milliseconds, or the occupancy fell below 200, or
      it never fell below 300 and the fullest tenth lies at 800 or more. */
  lemma WindowSpares600Iff(rate: nat, bins: seq<nat>)
    requires |bins| == BINS && rate % 5 == 0 && rate >= 60
    ensures var low, full := Leading(bins, BINS), Mode(bins, BINS);
            Spares600(rate, Mark(bins)) <==> full < 6 || low < 2 || (full >= 8 && low >= 3)
  {
    var mark := Mark(bins);
    Spares600Iff(rate, mark);
    MarkCases(bins);
    SkipOfMark(rate / 5, mark);
    assert 3 * rate == 15 * (rate / 5);
    NoMarkNoDrop(Ring(3 * rate, []));
  }

  lemma MarkCases(bins: seq<nat>)
    requires |bins| == BINS
    ensures var low, full, mark := Leading(bins, BINS), Mode(bins, BINS), Mark(bins);
            && (mark == 0 <==> full < 6 || low < 2)
            && (mark >= 8 <==> full >= 8 && low >= 3)
            && (mark == 0 || mark == 4 || 6 <= mark < 30)
            && mark == if full < 6 || low < 2 then 0 else if full <= 4 * (2 * low / 3) then full else 4 * (2 * low / 3)
  {
  }

  /** Bins are tenths of a second; the last one takes all from 2.9 seconds on. */
  lemma BinMeans(having: nat, rate: nat)
    requires rate > 0
    ensures var bin := Bin(having, rate);
            bin * rate <= 10 * having && (if bin < 29 then 10 * having < (bin + 1) * rate else 10 * having >= 29 * rate)
  {
    var bin, tenths := Bin(having, rate), having * 10 / rate;
    Floor(having * 10, rate, bin);
    if having * 10 >= (tenths + 1) * rate { assert false; }
    if tenths >= 29 { Floor(having * 10, rate, 29); }
  }

  lemma SkipOfMark(q: nat, mark: nat)
    requires q >= 12
    ensures mark >= 8 ==> 3 * SkipSize(15 * q, mark) + 1 >= 3 * q
    ensures 4 <= mark <= 7 ==> 0 < SkipSize(15 * q, mark) && 3 * SkipSize(15 * q, mark) + 1 < 3 * q
    ensures mark == 0 ==> SkipSize(15 * q, mark) == 0
  {
    assert 15 * q * mark == 15 * (q * mark);
    Eighth(q * mark);
    if mark >= 8 { Scale(8, mark, q); }
    if 4 <= mark <= 7 {
      Scale(4, mark, q);
      Scale(mark, 7, q);
    }
  }

  lemma Eighth(n: nat)
    ensures 15 * n / 120 == n / 8
  {
  }

  /** A drop stays within two thirds of every occupancy h that the histogram
      remembers, scaled from the rate r of its time to the present rate. */
  lemma DropBound(rate: nat, bins: seq<nat>, h: nat, r: nat)
    requires rate > 0 && r > 0 && |bins| == BINS && bins[Bin(h, r)] > 0
    ensures 3 * (SkipSize(3 * rate, Mark(bins)) - 1) * r <= 2 * h * rate
  {
    var z, m := Leading(bins, BINS), Mark(bins);
    LeadingIsFirstFilled(bins, BINS);
    Floor(h * 10, r, z);
    Product(z, m, SkipSize(3 * rate, m) - 1, rate, r, h);
  }

  lemma Product(z: nat, m: nat, d: int, rate: nat, r: nat, h: nat)
    requires z * r <= 10 * h && 3 * m <= 8 * z && d <= 3 * rate * m / 120
    ensures 3 * d * r <= 2 * h * rate
  {
    var a, b := rate * m, rate * z;
    assert 3 * rate * m == 3 * a;
    assert 3 * a <= 8 * b by { Scale(3 * m, 8 * z, rate); assert 3 * m * rate == 3 * a && 8 * z * rate == 8 * b; }
    assert 15 * d <= b;
    TwoProducts(z, d, b, rate, r, h);
  }

  lemma TwoProducts(z: nat, d: int, b: int, rate: nat, r: nat, h: nat)
    requires 15 * d <= b && b == rate * z && z * r <= 10 * h
    ensures 3 * d * r <= 2 * h * rate
  {
    Scale(15 * d, b, r);
    Scale(z * r, 10 * h, rate);
    assert b * r == z * r * rate;
    assert 15 * d * r == 5 * (3 * d * r);
    assert 10 * h * rate == 5 * (2 * h * rate);
  }

  lemma Scale(a: int, b: int, c: nat)
    requires a <= b
    ensures a * c <= b * c
  {
  }

  lemma Floor(a: nat, b: nat, q: nat)
    requires b > 0 && q <= a / b
    ensures q * b <= a
  {
    Scale(q, a / b, b);
  }

  // ---------------------------------------------------------------- runs

  /** What can happen to a buffer. `Pcm` is one `append_pcm`; the playback
      callback may take samples between its two halves. */
  datatype Step =
    | Pcm(buffer: seq<Sample>, taken: nat, now: int)
    | Take(n: nat)
    | Resize(sampleRate: nat, channels: nat)
    | OtherWindow(now: int) // another buffer used the common clock

  /** A buffer with the history since its last resize: all samples appended,
      the places of those played, and each (occupancy, rate) recorded since
      this buffer's histogram was last cleared. */
  datatype Trace = Trace(s: Audio, tms: int, log: seq<(nat, nat)>, appended: seq<Sample>, played: seq<nat>) {
    // How many appended samples have left the ring.
    function Head(): int { |appended| - |s.ring.content| }

    ghost predicate Inv() {
      && s.Valid() && Head() >= 0
      && s.ring.content == appended[Head()..]
      && (forall i, j | 0 <= i < j < |played| :: played[i] < played[j])
      && (forall i | 0 <= i < |played| :: played[i] < Head())
      && (forall i | 0 <= i < |log| :: log[i].1 > 0 && s.bins[Bin(log[i].0, log[i].1)] > 0)
    }

    function Append(buffer: seq<Sample>): Trace {
      this.(s := s.Append(buffer), appended := appended + buffer)
    }

    function Take(n: nat): Trace
      requires Head() >= 0
    {
      var k := if n <= |s.ring.content| then n else |s.ring.content|;
      this.(s := s.Play(n), played := played + seq(k, i => Head() + i))
    }

    function Shrink(having: nat, now: int): Trace
      requires s.rate > 0 && |s.bins| == BINS
    {
      this.(s := s.TryShrink(having, tms, now), tms := NextTms(tms, now),
            log := if s.Closes(tms, now) then [] else log + [(having, s.rate)])
    }
  }

  ghost predicate Allowed(step: Step) {
    step.Resize? ==> step.sampleRate * step.channels > 0
  }

  ghost function Next(t: Trace, step: Step): (t': Trace)
    requires t.Inv() && Allowed(step)
    ensures t'.Inv()
  {
    match step
    case Pcm(buffer, taken, now) =>
      AppendKeeps(t, buffer);
      var a := t.Append(buffer);
      TakeKeeps(a, taken);
      ShrinkKeeps(a.Take(taken), |a.s.ring.content|, now);
      a.Take(taken).Shrink(|a.s.ring.content|, now)
    case Take(n) =>
      TakeKeeps(t, n);
      t.Take(n)
    case Resize(sampleRate, channels) =>
      var s := t.s.Resize(sampleRate, channels);
      if s == t.s then t else Trace(s, t.tms, t.log, [], [])
    case OtherWindow(now) =>
      t.(tms := now)
  }

  ghost function Run(t: Trace, steps: seq<Step>): (t': Trace)
    requires t.Inv() && forall i | 0 <= i < |steps| :: Allowed(steps[i])
    ensures t'.Inv()
    decreases |steps|
  {
    if steps == [] then t else Run(Next(t, steps[0]), steps[1..])
  }

  lemma AppendKeeps(t: Trace, buffer: seq<Sample>)
    requires t.Inv()
    ensures t.Append(buffer).Inv() && t.Append(buffer).Head() >= t.Head()
    ensures var n := |t.s.ring.content| + |buffer|;
            |t.Append(buffer).s.ring.content| == if n <= t.s.ring.capacity then n else t.s.ring.capacity
  {
    var t' := t.Append(buffer);
    var all := t.s.ring.content + buffer;
    assert all == t'.appended[t.Head()..];
    assert t'.s.ring.content == t'.appended[t'.Head()..];
  }

  lemma TakeKeeps(t: Trace, n: nat)
    requires t.Inv()
    ensures t.Take(n).Inv() && t.Take(n).Head() == t.Head() + if n <= |t.s.ring.content| then n else |t.s.ring.content|
  {
    var t' := t.Take(n);
    assert t'.s.ring.content == t'.appended[t'.Head()..];
  }

  lemma ShrinkKeeps(t: Trace, having: nat, now: int)
    requires t.Inv()
    ensures t.Shrink(having, now).Inv()
  {
    var t' := t.Shrink(having, now);
    assert t'.s.ring.content == t'.appended[t'.Head()..];
  }

  /** Main result: in every run, closing a window clears the histogram, and
      what it drops is less than a third of what is buffered and at most one
      more than two thirds of every occupancy recorded in that window. */
  lemma WindowDrop(t: Trace, having: nat, now: int, i: nat)
    requires t.Inv() && t.s.Closes(t.tms, now)
    requires i <= |t.log|
    ensures var (h, r) := (t.log + [(having, t.s.rate)])[i];
            var dropped := |t.s.ring.content| - |t.Shrink(having, now).s.ring.content|;
            && 3 * (dropped - 1) * r <= 2 * h * t.s.rate
            && (r == t.s.rate ==> 3 * (dropped - 1) <= 2 * h)
            && (dropped > 0 ==> 3 * dropped < |t.s.ring.content|)
            && dropped % 2 == 0
    ensures t.Shrink(having, now).s.bins == EmptyBins()
  {
    var (h, r) := (t.log + [(having, t.s.rate)])[i];
    var bins := t.s.Record(having).bins;
    var rate := t.s.rate;
    assert bins[Bin(h, r)] > 0;
    DropBound(rate, bins, h, r);
    var skip := SkipSize(t.s.ring.capacity, Mark(bins));
    var dropped := |t.s.ring.content| - |t.Shrink(having, now).s.ring.content|;
    assert dropped == 0 || dropped == skip;
    Negative(r, h, rate);
    if r == rate { Unscale(3 * (dropped - 1), 2 * h, r); }
  }

  lemma Negative(r: nat, h: nat, rate: nat)
    ensures 3 * (0 - 1) * r <= 2 * h * rate
  {
  }

  lemma Unscale(a: int, b: int, c: nat)
    requires c > 0 && a * c <= b * c
    ensures a <= b
  {
    if a > b { Scale(b + 1, a, c); }
  }

  /** The histogram is cleared, and only then can anything be dropped, exactly
      twelve seconds or more after the last time on the common clock, which is
      then set anew; within them the clock stays. */
  lemma WindowClosesIff(t: Trace, having: nat, now: int)
    requires t.Inv()
    ensures var t', closes := t.Shrink(having, now), t.tms != 0 && now - t.tms >= 12000;
            && (t'.s.bins == EmptyBins() <==> closes)
            && (!closes ==> t'.s.ring == t.s.ring)
            && t'.tms == if t.tms == 0 || closes then now else t.tms
  {
    var more := t.s.Record(having).bins;
    assert more[Bin(having, t.s.rate)] > 0;
  }

  /** In every run the ring holds the newest samples, never more than its
      capacity, and the samples played are some of those appended, in order. */
  lemma PlayedInOrder(start: Trace, steps: seq<Step>)
    requires start.Inv() && forall i | 0 <= i < |steps| :: Allowed(steps[i])
    ensures var t := Run(start, steps);
            && |t.s.ring.content| <= t.s.ring.capacity == 3 * t.s.rate
            && t.Head() >= 0 && t.appended == t.appended[..t.Head()] + t.s.ring.content
            && forall i, j | 0 <= i < j < |t.played| :: 0 <= t.played[i] < t.played[j] < t.Head()
  {
  }

  // ---------------------------------------------------------------- channels

  /** Buffers and requests of whole frames, between two resizes. */
  predicate Whole(step: Step, ch: nat)
    requires ch > 0
  {
    match step
    case Pcm(buffer, taken, _) => |buffer| % ch == 0 && taken % ch == 0
    case Take(n) => n % ch == 0
    case Resize(_, _) => false
    case OtherWindow(_) => true
  }

  /** The next sample played is the first of a frame. */
  predicate Aligned(t: Trace, ch: nat)
    requires ch > 0
  {
    t.Head() % ch == 0 && |t.appended| % ch == 0 && t.s.ring.capacity % ch == 0
  }

  /** The marks that a histogram can give. */
  predicate Reachable(mark: nat) { mark == 0 || mark == 4 || 6 <= mark < BINS }

  /** Whatever the mark, whole frames are dropped. */
  predicate FrameDrops(capacity: nat, ch: nat)
    requires ch > 0
  {
    forall mark: nat | mark < BINS && Reachable(mark) :: SkipSize(capacity, mark) % ch == 0
  }

  lemma SumMultiple(a: int, b: int, c: nat)
    requires c > 0 && a % c == 0 && b % c == 0
    ensures (a + b) % c == 0 && (a - b) % c == 0
  {
    Multiple(a / c + b / c, c);
    Multiple(a / c - b / c, c);
    assert a + b == (a / c + b / c) * c;
    assert a - b == (a / c - b / c) * c;
  }

  lemma Multiple(k: int, c: nat)
    requires c > 0
    ensures (k * c) % c == 0
  {
    var q, r := k * c / c, k * c % c;
    assert k * c == c * q + r && 0 <= r < c;
    assert (k - q) * c == r;
    OneOrMore(k - q, c);
  }

  lemma OneOrMore(d: int, c: nat)
    ensures d >= 1 ==> d * c >= c
    ensures d <= -1 ==> d * c <= 0 - c
    ensures d == 0 ==> d * c == 0
  {
    if d >= 1 { Scale(1, d, c); } else if d <= -1 { Scale(d, -1, c); }
  }

  lemma NextStaysAligned(t: Trace, step: Step, ch: nat)
    requires ch > 0 && t.Inv() && Allowed(step) && Aligned(t, ch) && Whole(step, ch)
    requires FrameDrops(t.s.ring.capacity, ch)
    ensures Aligned(Next(t, step), ch) && Next(t, step).s.ring.capacity == t.s.ring.capacity
  {
    match step
    case Pcm(buffer, taken, now) =>
      AppendKeeps(t, buffer);
      var a := t.Append(buffer);
      SumMultiple(|t.appended|, |buffer|, ch);
      SumMultiple(|a.appended|, a.s.ring.capacity, ch);
      TakeKeeps(a, taken);
      TakeStaysAligned(a, taken, ch);
      ShrinkStaysAligned(a.Take(taken), |a.s.ring.content|, now, ch);
    case Take(n) =>
      TakeKeeps(t, n);
      TakeStaysAligned(t, n, ch);
    case OtherWindow(_) =>
  }

  lemma ShrinkStaysAligned(t: Trace, having: nat, now: int, ch: nat)
    requires ch > 0 && t.Inv() && Aligned(t, ch) && FrameDrops(t.s.ring.capacity, ch)
    ensures Aligned(t.Shrink(having, now), ch) && t.Shrink(having, now).s.ring.capacity == t.s.ring.capacity
  {
    var mark := Mark(t.s.Record(having).bins);
    MarkCases(t.s.Record(having).bins);
    assert Reachable(mark);
    SumMultiple(t.Head(), SkipSize(t.s.ring.capacity, mark), ch);
    ShrinkMoves(t, having, now);
  }

  lemma ShrinkMoves(t: Trace, having: nat, now: int)
    requires t.Inv()
    ensures var t' := t.Shrink(having, now);
            && t'.appended == t.appended && t'.s.ring.capacity == t.s.ring.capacity
            && (t'.Head() == t.Head()
                || t'.Head() == t.Head() + SkipSize(t.s.ring.capacity, Mark(t.s.Record(having).bins)))
  {
  }

  lemma TakeStaysAligned(t: Trace, n: nat, ch: nat)
    requires ch > 0 && t.Inv() && Aligned(t, ch) && n % ch == 0
    ensures Aligned(t.Take(n), ch) && t.Take(n).s.ring.capacity == t.s.ring.capacity
  {
    TakeKeeps(t, n);
    SumMultiple(t.Head(), n, ch);
  }

  lemma {:induction false} RunStaysAligned(t: Trace, steps: seq<Step>, ch: nat)
    requires ch > 0 && t.Inv() && Aligned(t, ch) && FrameDrops(t.s.ring.capacity, ch)
    requires forall i | 0 <= i < |steps| :: Allowed(steps[i]) && Whole(steps[i], ch)
    ensures Aligned(Run(t, steps), ch)
    decreases |steps|
  {
    if steps != [] {
      NextStaysAligned(t, steps[0], ch);
      RunStaysAligned(Next(t, steps[0]), steps[1..], ch);
    }
  }

  /** A buffer just resized for a device. */
  function Resized(sampleRate: nat, ch: nat): Trace {
    Trace(Audio(Ring(sampleRate * ch * AUDIO_BUFFER_MS / 1000, []), sampleRate * ch, EmptyBins()), 0, [], [], [])
  }

  function Fresh(rate: nat): Trace {
    Trace(Audio(Ring(3 * rate, []), rate, EmptyBins()), 0, [], [], [])
  }

  lemma ResizedIsFresh(sampleRate: nat, ch: nat)
    ensures Resized(sampleRate, ch) == Fresh(sampleRate * ch)
  {
    assert sampleRate * ch * AUDIO_BUFFER_MS / 1000 == 3 * (sampleRate * ch);
  }

  /** A buffer as the program creates it: 48000 Hz, two channels. */
  function Initial(): Trace {
    Trace(Audio(Ring(288000, []), 96000, EmptyBins()), 0, [], [], [])
  }

  /** What a change of the device does to any buffer, at any time: a ring of three
      seconds of its samples takes the place of the old one, and the history
      begins anew; a device that needs the same ring changes nothing. */
  lemma ResizeMeans(t: Trace, sampleRate: nat, ch: nat)
    requires t.Inv() && sampleRate * ch > 0
    ensures var t' := Next(t, Resize(sampleRate, ch));
            if t.s.ring.capacity == 3 * (sampleRate * ch) then t' == t
            else var anew := Resized(sampleRate, ch);
                 t' == anew.(s := anew.s.(bins := t.s.bins), tms := t.tms, log := t.log)
    ensures Resized(sampleRate, ch).s == Audio(Ring(3 * (sampleRate * ch), []), sampleRate * ch, EmptyBins())
  {
    ResizedIsFresh(sampleRate, ch);
  }

  /** The first device. */
  lemma FirstResize(sampleRate: nat, ch: nat)
    requires sampleRate * ch > 0
    ensures Initial().Inv() && Next(Initial(), Resize(sampleRate, ch)) == Resized(sampleRate, ch)
  {
    FreshInv(96000);
    ResizeMeans(Initial(), sampleRate, ch);
  }

  /** A run that begins with the device. */
  ghost function OnDevice(sampleRate: nat, ch: nat, steps: seq<Step>): Trace
    requires sampleRate * ch > 0 && forall i | 0 <= i < |steps| :: Allowed(steps[i])
  {
    FirstResize(sampleRate, ch);
    Run(Initial(), [Resize(sampleRate, ch)] + steps)
  }

  lemma OnDeviceIs(sampleRate: nat, ch: nat, steps: seq<Step>)
    requires sampleRate * ch > 0 && forall i | 0 <= i < |steps| :: Allowed(steps[i])
    ensures Resized(sampleRate, ch).Inv() && OnDevice(sampleRate, ch, steps) == Run(Resized(sampleRate, ch), steps)
  {
    FirstResize(sampleRate, ch);
    RunFirst(Initial(), [Resize(sampleRate, ch)] + steps);
    assert ([Resize(sampleRate, ch)] + steps)[1..] == steps;
  }

  /** Every run of whole frames on the given device plays every frame from its
      first sample on. */
  ghost predicate KeepsFrames(sampleRate: nat, ch: nat)
    requires sampleRate * ch > 0 && ch > 0
  {
    forall steps: seq<Step> | (forall i | 0 <= i < |steps| :: Allowed(steps[i]) && Whole(steps[i], ch)) ::
      Aligned(OnDevice(sampleRate, ch, steps), ch)
  }

  lemma FrameDropsKeepFrames(sampleRate: nat, ch: nat)
    requires sampleRate * ch > 0 && ch > 0 && FrameDrops(3 * (sampleRate * ch), ch)
    ensures KeepsFrames(sampleRate, ch)
  {
    var t := Resized(sampleRate, ch);
    Multiple(3 * sampleRate, ch);
    assert 3 * (sampleRate * ch) == 3 * sampleRate * ch == t.s.ring.capacity;
    forall steps: seq<Step> | (forall i | 0 <= i < |steps| :: Allowed(steps[i]) && Whole(steps[i], ch))
      ensures Aligned(OnDevice(sampleRate, ch, steps), ch)
    {
      OnDeviceIs(sampleRate, ch, steps);
      RunStaysAligned(t, steps, ch);
    }
  }

  /** A sample rate that is a multiple of 80, such as 48000, keeps frames
      whole for any number of channels. */
  lemma RoundRatesKeepFrames(sampleRate: nat, ch: nat)
    requires sampleRate > 0 && ch > 0 && sampleRate % 80 == 0 && sampleRate * ch > 0
    ensures KeepsFrames(sampleRate, ch)
  {
    var q := sampleRate / 80;
    forall mark: nat | mark < BINS && Reachable(mark) ensures SkipSize(3 * (sampleRate * ch), mark) % ch == 0 {
      var n := 2 * q * mark;
      assert sampleRate == 80 * q;
      assert 3 * (sampleRate * ch) * mark == 120 * (n * ch);
      assert n * ch == 2 * (q * mark * ch);
      Multiple(n, ch);
      assert SkipSize(3 * (sampleRate * ch), mark) == n * ch;
    }
    FrameDropsKeepFrames(sampleRate, ch);
  }

  // ---------------------------------------------------------------- runs, step by step

  lemma FreshInv(rate: nat)
    requires rate > 0
    ensures Fresh(rate).Inv() && Fresh(rate).Head() == 0
  {
  }

  lemma TakeNothing(t: Trace)
    requires t.Inv()
    ensures t.Take(0) == t
  {
    assert t.s.ring.content[0..] == t.s.ring.content;
    assert t.played + [] == t.played;
  }

  /** One call without playback in its middle. */
  lemma NextPcm(t: Trace, buffer: seq<Sample>, now: int)
    requires t.Inv()
    ensures t.Append(buffer).Inv()
    ensures Next(t, Pcm(buffer, 0, now)) == t.Append(buffer).Shrink(|t.Append(buffer).s.ring.content|, now)
  {
    AppendKeeps(t, buffer);
    TakeNothing(t.Append(buffer));
  }

  lemma RunFirst(t: Trace, steps: seq<Step>)
    requires t.Inv() && steps != [] && forall i | 0 <= i < |steps| :: Allowed(steps[i])
    ensures Run(t, steps) == Run(Next(t, steps[0]), steps[1..])
  {
  }

  lemma RunOne(t: Trace, a: Step)
    requires t.Inv() && Allowed(a)
    ensures Run(t, [a]) == Next(t, a)
  {
    RunFirst(t, [a]);
    assert [a][1..] == [];
  }

  lemma {:induction false} RunLast(t: Trace, steps: seq<Step>, step: Step)
    requires t.Inv() && Allowed(step) && forall i | 0 <= i < |steps| :: Allowed(steps[i])
    ensures Run(t, steps + [step]) == Next(Run(t, steps), step)
    decreases |steps|
  {
    if steps == [] {
      assert steps + [step] == [step];
      RunOne(t, step);
    } else {
      RunFirst(t, steps + [step]);
      RunFirst(t, steps);
      assert (steps + [step])[1..] == steps[1..] + [step];
      RunLast(Next(t, steps[0]), steps[1..], step);
    }
  }

  /** The histogram with one more record. */
  function RecordedIn(bins: seq<nat>, having: nat, rate: nat): (more: seq<nat>)
    requires |bins| == BINS && rate > 0
    ensures |more| == BINS
  {
    bins[Bin(having, rate) := bins[Bin(having, rate)] + 1]
  }

  lemma Between(x: nat, q: nat, c: nat)
    requires q * c <= x < q * c + c
    ensures x % c == x - q * c && x / c == q
  {
    assert x / c == q by {
      if x / c > q { Scale(q + 1, x / c, c); }
      if x / c < q { Scale(x / c + 1, q, c); }
    }
  }
}
