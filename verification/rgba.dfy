/** The single-slot hand-off of decoded frames to the user interface
    (src/flutter.rs): one buffer per display, guarded by a `valid` flag. */
module RgbaHandOff {
  import opened Options

  type Display = nat
  type SessionId = nat
  /** A pixel buffer, the vector that is swapped. */
  datatype Buffer = Buffer(bytes: seq<int>)

  const EMPTY := Buffer([])

  datatype Rgba = Rgba(data: Buffer, valid: bool)

  /** A UI session: its displays and whether it has an event stream. */
  datatype Handler = Handler(displays: seq<Display>, stream: bool)

  type Slots = map<Display, Rgba>
  type Handlers = map<SessionId, Handler>

  /** First locked section: store the frame unless one is waiting. */
  function Store(slots: Slots, d: Display, raw: Buffer): Slots {
    if d in slots && slots[d].valid then slots else slots[d := Rgba(raw, true)]
  }

  /** What the decoder gets back for its next frame. */
  function Returned(slots: Slots, d: Display, raw: Buffer): Buffer {
    if d !in slots then EMPTY else if slots[d].valid then raw else slots[d].data
  }

  predicate Notifies(h: Handler, d: Display, multi: bool) {
    |h.displays| <= 1 && (multi ==> d in h.displays) && h.stream
  }

  function Notified(handlers: Handlers, d: Display, multi: bool): set<SessionId> {
    set s | s in handlers && Notifies(handlers[s], d, multi)
  }

  /** `next_rgba`, and the last section when no session was notified. */
  function Invalidate(slots: Slots, d: Display): Slots {
    if d in slots then slots[d := slots[d].(valid := false)] else slots
  }

  class FlutterHandler {
    var displayRgbas: Slots
    var sessionHandlers: Handlers

    constructor ()
      ensures displayRgbas == map[] && sessionHandlers == map[]
    {
      displayRgbas, sessionHandlers := map[], map[];
    }

    /** Returns the buffer for the decoder and the sessions that were told. */
    method OnRgbaSoftRender(d: Display, raw: Buffer) returns (back: Buffer, told: set<SessionId>)
      modifies this`displayRgbas
      ensures back == Returned(old(displayRgbas), d, raw)
      ensures var waiting := d in old(displayRgbas) && old(displayRgbas)[d].valid;
              && told == (if waiting then {} else Notified(sessionHandlers, d, |sessionHandlers| > 1))
              && displayRgbas == (if waiting || told != {} then Store(old(displayRgbas), d, raw)
                                  else Invalidate(Store(old(displayRgbas), d, raw), d))
    {
      told := {};
      if d in displayRgbas {
        if displayRgbas[d].valid { return raw, {}; }
        back := displayRgbas[d].data;
        displayRgbas := displayRgbas[d := Rgba(raw, true)];
      } else {
        back := EMPTY;
        displayRgbas := displayRgbas[d := Rgba(raw, true)];
      }
      ghost var stored := displayRgbas;

      var isSent := false;
      var multi := |sessionHandlers| > 1;
      var rest := sessionHandlers;
      while rest != map[]
        invariant rest.Keys <= sessionHandlers.Keys && forall s | s in rest :: rest[s] == sessionHandlers[s]
        invariant told == set s | s in Notified(sessionHandlers, d, multi) && s !in rest
        invariant isSent <==> told != {}
        invariant displayRgbas == stored
        decreases rest.Keys
      {
        var s :| s in rest;
        var h := rest[s];
        rest := rest - {s};
        if |h.displays| > 1 { continue; }
        if multi && d !in h.displays { continue; }
        if h.stream {
          told := told + {s};
          isSent := true;
        }
      }
      if !isSent && d in displayRgbas {
        displayRgbas := displayRgbas[d := displayRgbas[d].(valid := false)];
      }
    }

    method GetRgba(d: Display) returns (data: Option<Buffer>)
      ensures data == if d in displayRgbas && displayRgbas[d].valid then Some(displayRgbas[d].data) else None
    {
      data := None;
      if d in displayRgbas && displayRgbas[d].valid { data := Some(displayRgbas[d].data); }
    }

    method NextRgba(d: Display)
      modifies this`displayRgbas
      ensures displayRgbas == Invalidate(old(displayRgbas), d)
    {
      if d in displayRgbas { displayRgbas := displayRgbas[d := displayRgbas[d].(valid := false)]; }
    }

    method UpdateUseTextureRender()
      modifies this`displayRgbas
      ensures displayRgbas == map[]
    {
      displayRgbas := map[];
    }
  }

  // ---------------------------------------------------------------- buffers

  ghost function Pick(slots: Slots): (d: Display)
    requires slots != map[]
    ensures d in slots
  {
    var d :| d in slots;
    d
  }

  /** All stored buffers. */
  ghost function Stored(slots: Slots): multiset<Buffer> {
    if slots == map[] then multiset{}
    else multiset{slots[Pick(slots)].data} + Stored(slots - {Pick(slots)})
  }

  lemma {:induction false} StoredWithout(slots: Slots, d: Display)
    requires d in slots
    ensures Stored(slots) == multiset{slots[d].data} + Stored(slots - {d})
    decreases |slots|
  {
    var e := Pick(slots);
    if e != d {
      var both := slots - {e} - {d};
      assert both == slots - {d} - {e};
      Smaller(slots, e);
      Smaller(slots, d);
      StoredWithout(slots - {e}, d);
      StoredWithout(slots - {d}, e);
      Exchange(multiset{slots[e].data}, multiset{slots[d].data}, Stored(both));
    }
  }

  lemma Smaller(slots: Slots, d: Display)
    requires d in slots
    ensures |slots - {d}| < |slots|
  {
    assert (slots - {d}).Keys == slots.Keys - {d};
    assert |slots.Keys - {d}| == |slots.Keys| - 1;
  }

  lemma Exchange(a: multiset<Buffer>, b: multiset<Buffer>, c: multiset<Buffer>)
    ensures a + (b + c) == b + (a + c)
  {
  }

  /** The empty buffer with which a display's slot is created. */
  function Created(slots: Slots, d: Display): multiset<Buffer> {
    if d in slots then multiset{} else multiset{EMPTY}
  }

  /** Main result: the swap neither loses nor copies a buffer. The decoder's
      buffer and the stored ones are the same ones afterwards; a display's
      first frame adds one empty buffer. */
  lemma BuffersAreConserved(slots: Slots, d: Display, raw: Buffer)
    ensures Stored(Store(slots, d, raw)) + multiset{Returned(slots, d, raw)}
         == Stored(slots) + multiset{raw} + Created(slots, d)
  {
    if d !in slots {
      FirstFrame(slots, d, raw);
    } else if !slots[d].valid {
      NextFrame(slots, d, raw);
    } else {
      assert Store(slots, d, raw) == slots;
    }
  }

  lemma FirstFrame(slots: Slots, d: Display, raw: Buffer)
    requires d !in slots
    ensures Stored(Store(slots, d, raw)) == multiset{raw} + Stored(slots)
  {
    assert slots - {d} == slots;
    assert Store(slots, d, raw) == slots[d := Rgba(raw, true)];
    StoredAfterPut(slots, d, raw);
  }

  lemma NextFrame(slots: Slots, d: Display, raw: Buffer)
    requires d in slots && !slots[d].valid
    ensures Stored(Store(slots, d, raw)) + multiset{Returned(slots, d, raw)} == Stored(slots) + multiset{raw}
  {
    StoredAfterPut(slots, d, raw);
    StoredWithout(slots, d);
    SwapSums(multiset{raw}, multiset{slots[d].data}, Stored(slots - {d}));
  }

  lemma SwapSums(x: multiset<Buffer>, y: multiset<Buffer>, others: multiset<Buffer>)
    ensures (x + others) + y == (y + others) + x
  {
  }

  lemma StoredAfterPut(slots: Slots, d: Display, raw: Buffer)
    ensures Stored(slots[d := Rgba(raw, true)]) == multiset{raw} + Stored(slots - {d})
  {
    assert slots[d := Rgba(raw, true)] - {d} == slots - {d};
    StoredWithout(slots[d := Rgba(raw, true)], d);
  }

  // ---------------------------------------------------------------- interleavings

  /** Where the decoding thread of a display is between its locked sections. */
  datatype Pc = Idle | FrameStored | Unsent

  datatype State = State(
    slots: Slots,
    handlers: Handlers,
    pc: map<Display, Pc>,
    // history: displays whose present frame was announced after it was stored
    announced: set<Display>)

  datatype Step =
    | StoreFrame(d: Display, raw: Buffer)
    | Announce(d: Display, multi: bool) // `multi` was read in a section of its own
    | Withdraw(d: Display)
    | Ack(d: Display) // next_rgba, from the UI or a session change
    | Clear // update_use_texture_render
    | SetHandlers(handlers: Handlers) // UI sessions come, go and switch displays

  function At(s: State, d: Display): Pc {
    if d in s.pc then s.pc[d] else Idle
  }

  predicate Enabled(s: State, step: Step) {
    match step
    case StoreFrame(d, _) => At(s, d) == Idle
    case Announce(d, _) => At(s, d) == FrameStored
    case Withdraw(d) => At(s, d) == Unsent
    case _ => true
  }

  function Next(s: State, step: Step): State
    requires Enabled(s, step)
  {
    match step
    case StoreFrame(d, raw) =>
      if d in s.slots && s.slots[d].valid then s
      else s.(slots := Store(s.slots, d, raw), pc := s.pc[d := FrameStored], announced := s.announced - {d})
    case Announce(d, multi) =>
      if Notified(s.handlers, d, multi) != {}
      then s.(pc := s.pc[d := Idle], announced := s.announced + {d})
      else s.(pc := s.pc[d := Unsent])
    case Withdraw(d) => s.(slots := Invalidate(s.slots, d), pc := s.pc[d := Idle])
    case Ack(d) => s.(slots := Invalidate(s.slots, d))
    case Clear => s.(slots := map[])
    case SetHandlers(handlers) => s.(handlers := handlers)
  }

  /** A waiting frame was announced, unless its thread is still at it. */
  ghost predicate Inv(s: State) {
    forall d | d in s.slots && s.slots[d].valid :: d in s.announced || At(s, d) != Idle
  }

  ghost predicate IsRun(states: seq<State>, steps: seq<Step>) {
    && |states| == |steps| + 1 && states[0].slots == map[] && states[0].pc == map[]
    && forall i | 0 <= i < |steps| :: Enabled(states[i], steps[i]) && states[i + 1] == Next(states[i], steps[i])
  }

  /** Main result: in every interleaving, whenever the decoding thread of a
      display is not in the middle of a frame, a valid slot holds a frame that
      was announced to some session since it was stored. */
  lemma {:induction false} ValidMeansAnnounced(states: seq<State>, steps: seq<Step>, i: nat)
    requires IsRun(states, steps) && i < |states|
    ensures Inv(states[i])
  {
    if i > 0 { ValidMeansAnnounced(states, steps, i - 1); }
  }

  /** Main result: from the moment a slot is valid until it is acknowledged,
      withdrawn or cleared, its bytes stay the same, so the address that
      `get_rgba` hands out stays readable. */
  lemma {:induction false} ValidBytesStay(states: seq<State>, steps: seq<Step>, i: nat, j: nat, d: Display)
    requires IsRun(states, steps) && i <= j < |states|
    requires d in states[i].slots && states[i].slots[d].valid
    requires forall k | i <= k < j :: steps[k] != Ack(d) && steps[k] != Withdraw(d) && steps[k] != Clear
    ensures d in states[j].slots && states[j].slots[d] == states[i].slots[d]
    decreases j - i
  {
    if i < j { ValidBytesStay(states, steps, i, j - 1, d); }
  }

  /** A frame is withdrawn only if no session was told of it: the thread that
      withdraws has announced nothing since it stored the frame. */
  lemma {:induction false} WithdrawnWasNotAnnounced(states: seq<State>, steps: seq<Step>, i: nat, d: Display)
    requires IsRun(states, steps) && i < |states| && At(states[i], d) != Idle
    ensures d !in states[i].announced
  {
    if i > 0 && At(states[i - 1], d) != Idle { WithdrawnWasNotAnnounced(states, steps, i - 1, d); }
  }

  // ---------------------------------------------------------------- who is told, and of what

  /** Which sessions hear of a frame: a lone session with an event stream, unless
      it shows several displays; of several sessions, those that show just this
      display and have a stream. */
  lemma ToldMeans(handlers: Handlers, d: Display, s: SessionId)
    requires s in handlers
    ensures s in Notified(handlers, d, |handlers| > 1)
       <==> handlers[s].stream
            && if |handlers| == 1 then |handlers[s].displays| <= 1 else handlers[s].displays == [d]
  {
    assert s in handlers.Keys && |handlers| == |handlers.Keys|;
    if |handlers[s].displays| == 1 && d in handlers[s].displays { assert handlers[s].displays[0] == d; }
  }

  /** A frame is stored exactly if none waits; other displays are not touched. */
  lemma StoreMeans(slots: Slots, d: Display, raw: Buffer, other: Display)
    ensures var waits := d in slots && slots[d].valid;
            && Store(slots, d, raw) == (if waits then slots else slots[d := Rgba(raw, true)])
            && (other != d ==> (other in Store(slots, d, raw) <==> other in slots))
            && (other != d && other in slots ==> Store(slots, d, raw)[other] == slots[other])
  {
  }

  /** Acknowledging and withdrawing keep every buffer and the other displays. */
  lemma InvalidateMeans(slots: Slots, d: Display, other: Display)
    ensures Invalidate(slots, d).Keys == slots.Keys
    ensures other in slots ==>
              Invalidate(slots, d)[other] == slots[other].(valid := slots[other].valid && other != d)
  {
  }

  /** A step stores this buffer for the display, as nothing waits there. */
  ghost predicate StoresNow(s: State, step: Step, d: Display, raw: Buffer) {
    step == StoreFrame(d, raw) && !(d in s.slots && s.slots[d].valid)
  }

  /** Main result: what a valid slot holds is the buffer of a frame that was
      stored there, with no later frame stored, withdrawn or acknowledged since. */
  lemma {:induction false} ValidHoldsAFrame(states: seq<State>, steps: seq<Step>, i: nat, d: Display)
    requires IsRun(states, steps) && i < |states| && d in states[i].slots && states[i].slots[d].valid
    ensures exists j :: 0 <= j < i && StoresNow(states[j], steps[j], d, states[i].slots[d].data)
                        && forall k | j < k < i :: steps[k] != Ack(d) && steps[k] != Withdraw(d) && steps[k] != Clear
  {
    var s, step := states[i - 1], steps[i - 1];
    if d in s.slots && s.slots[d].valid {
      ValidHoldsAFrame(states, steps, i - 1, d);
      ValidStays(s, step, d);
    } else {
      BecomesValid(s, step, d);
      assert StoresNow(states[i - 1], steps[i - 1], d, states[i].slots[d].data);
    }
  }

  lemma ValidStays(s: State, step: Step, d: Display)
    requires Enabled(s, step) && d in s.slots && s.slots[d].valid
    requires d in Next(s, step).slots && Next(s, step).slots[d].valid
    ensures Next(s, step).slots[d] == s.slots[d] && step != Ack(d) && step != Withdraw(d) && step != Clear
  {
  }

  lemma BecomesValid(s: State, step: Step, d: Display)
    requires Enabled(s, step) && !(d in s.slots && s.slots[d].valid)
    requires d in Next(s, step).slots && Next(s, step).slots[d].valid
    ensures step.StoreFrame? && StoresNow(s, step, d, Next(s, step).slots[d].data)
  {
  }
}
