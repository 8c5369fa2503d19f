/** A forwarded local connection: first the login, then bytes both ways.
    `connect_and_login` and `run_forward` in src/port_forward.rs. */
module PortForwarding {
  type Bytes = seq<bv8>

  datatype Frame = Frame(content: int)

  /** What the program puts on the stream to the peer. */
  datatype Packet = Framed(frame: Frame) | Raw(bytes: Bytes)

  datatype Meaning = Unparsable | Hash | LoginError(retry: bool) | PeerInfo | TestDelay | Other

  /** One branch taken by `select!`. `replies` are the frames that the interface
      sends in reaction, `sent` tells whether the send of raw bytes succeeds. */
  datatype Event =
    | FromPeer(bytes: Bytes, meaning: Meaning, replies: seq<Frame>, sent: bool)
    | PeerTimeout
    | PeerGone
    | FromUi(replies: seq<Frame>)
    | FromLocal(bytes: Bytes, sent: bool)
    | LocalGone

  datatype Outcome = GaveUp | Failed | Finished

  datatype Stage = LoggingIn | Forwarding | Ended(outcome: Outcome)

  datatype State = State(stage: Stage, received: bool, buffer: Bytes, toPeer: seq<Packet>, toLocal: Bytes)

  const START := State(LoggingIn, false, [], [], [])

  function AsFramed(frames: seq<Frame>): (packets: seq<Packet>)
    ensures |packets| == |frames| && forall i | 0 <= i < |frames| :: packets[i] == Framed(frames[i])
  {
    seq(|frames|, i requires 0 <= i < |frames| => Framed(frames[i]))
  }

  function AsRaw(bytes: Bytes, sent: bool): seq<Packet> { if sent then [Raw(bytes)] else [] }

  // ---------------------------------------------------------------- specification

  function LoginStep(s: State, e: Event): State {
    match e
    case FromPeer(_, meaning, replies, sent) => LoginMessage(s.(received := true), meaning, replies, sent)
    case PeerTimeout => s.(stage := Ended(Failed))
    case PeerGone => s.(stage := Ended(Failed))
    case FromUi(replies) => s.(toPeer := s.toPeer + AsFramed(replies))
    case FromLocal(bytes, _) => s.(buffer := s.buffer + bytes)
    case LocalGone => s.(stage := Ended(GaveUp))
  }

  function LoginMessage(s: State, meaning: Meaning, replies: seq<Frame>, sent: bool): State {
    match meaning
    case Unparsable => s.(stage := Ended(Failed))
    case Hash => s.(toPeer := s.toPeer + AsFramed(replies))
    case LoginError(retry) => if retry then s else s.(stage := Ended(GaveUp))
    case PeerInfo =>
      s.(stage := Forwarding, buffer := [],
         toPeer := if s.buffer == [] then s.toPeer else s.toPeer + AsRaw(s.buffer, sent))
    case TestDelay => s.(toPeer := s.toPeer + AsFramed(replies))
    case Other => s
  }

  /** The stream is raw and the UI is no longer listened to. */
  function ForwardStep(s: State, e: Event): State {
    match e
    case FromPeer(bytes, _, _, sent) => if sent then s.(toLocal := s.toLocal + bytes) else s
    case PeerGone => s.(stage := Ended(Finished))
    case FromLocal(bytes, sent) => s.(toPeer := s.toPeer + AsRaw(bytes, sent))
    case LocalGone => s.(stage := Ended(Finished))
    case _ => s
  }

  function Step(s: State, e: Event): State {
    match s.stage
    case LoggingIn => LoginStep(s, e)
    case Forwarding => ForwardStep(s, e)
    case Ended(_) => s
  }

  function After(s: State, events: seq<Event>): State {
    if events == [] then s else Step(After(s, events[..|events| - 1]), events[|events| - 1])
  }

  // ---------------------------------------------------------------- the loops

  class PortForward {
    var stage: Stage
    var received: bool
    var buffer: Bytes
    var toPeer: seq<Packet>
    var toLocal: Bytes

    function Now(): State
      reads this
    {
      State(stage, received, buffer, toPeer, toLocal)
    }

    constructor ()
      ensures Now() == START
    {
      stage, received, buffer, toPeer, toLocal := LoggingIn, false, [], [], [];
    }

    method HandleMessage(meaning: Meaning, replies: seq<Frame>, sent: bool)
      modifies this
      ensures Now() == LoginMessage(old(Now()), meaning, replies, sent)
    {
      match meaning
      case Unparsable => stage := Ended(Failed);
      case Hash => toPeer := toPeer + AsFramed(replies);
      case LoginError(retry) => if !retry { stage := Ended(GaveUp); }
      case PeerInfo =>
        stage := Forwarding;
        if buffer != [] { toPeer := toPeer + AsRaw(buffer, sent); }
        buffer := [];
      case TestDelay => toPeer := toPeer + AsFramed(replies);
      case Other =>
    }

    /** One turn of the login loop. */
    method HandleLogin(e: Event)
      modifies this
      ensures Now() == LoginStep(old(Now()), e)
    {
      match e
      case FromPeer(_, meaning, replies, sent) =>
        if !received { received := true; }
        HandleMessage(meaning, replies, sent);
      case PeerTimeout => stage := Ended(Failed);
      case PeerGone => stage := Ended(Failed);
      case FromUi(replies) => toPeer := toPeer + AsFramed(replies);
      case FromLocal(bytes, _) => buffer := buffer + bytes;
      case LocalGone => stage := Ended(GaveUp);
    }

    /** Leaves the loop at the first event that ends the login, or when no
        more events come. */
    method ConnectAndLogin(events: seq<Event>) returns (used: nat)
      requires stage == LoggingIn
      modifies this
      ensures used <= |events| && Now() == After(old(Now()), events[..used])
      ensures stage == LoggingIn ==> used == |events|
      ensures used > 0 ==> After(old(Now()), events[..used - 1]).stage == LoggingIn
    {
      used := 0;
      ghost var start := Now();
      while used < |events|
        invariant used <= |events| && stage == LoggingIn && Now() == After(start, events[..used])
        invariant used > 0 ==> After(start, events[..used - 1]).stage == LoggingIn
      {
        AfterLast(start, events[..used], events[used]);
        assert events[..used] + [events[used]] == events[..used + 1];
        HandleLogin(events[used]);
        used := used + 1;
        if stage != LoggingIn { return; }
      }
    }

    method RunForward(events: seq<Event>) returns (used: nat)
      requires stage == Forwarding
      modifies this
      ensures used <= |events| && Now() == After(old(Now()), events[..used])
      ensures (stage == Forwarding && used == |events|) || stage == Ended(Finished)
    {
      used := 0;
      ghost var start := Now();
      while used < |events|
        invariant used <= |events| && stage == Forwarding && Now() == After(start, events[..used])
      {
        var e := events[used];
        assert events[..used + 1][..used] == events[..used];
        used := used + 1;
        match e
        case FromPeer(bytes, _, _, sent) => if sent { toLocal := toLocal + bytes; }
        case PeerGone => stage := Ended(Finished); return;
        case FromLocal(bytes, sent) => toPeer := toPeer + AsRaw(bytes, sent);
        case LocalGone => stage := Ended(Finished); return;
        case _ =>
      }
    }
  }

  // ---------------------------------------------------------------- what went where

  function Run(events: seq<Event>): State { After(START, events) }

  function RawBytes(packets: seq<Packet>): Bytes {
    if packets == [] then []
    else
      var last := packets[|packets| - 1];
      RawBytes(packets[..|packets| - 1]) + if last.Raw? then last.bytes else []
  }

  /** Bytes read from the local socket up to now. */
  function ReadLocal(events: seq<Event>): Bytes {
    if events == [] then []
    else
      var before, e := events[..|events| - 1], events[|events| - 1];
      ReadLocal(before) + ReadNow(Run(before), e)
  }

  /** Bytes whose send to the peer failed; the run goes on nevertheless. */
  function LostUp(events: seq<Event>): Bytes {
    if events == [] then []
    else
      var before, e := events[..|events| - 1], events[|events| - 1];
      LostUp(before) + LostNow(Run(before), e)
  }

  function LostNow(s: State, e: Event): Bytes {
    if s.stage == LoggingIn && e.FromPeer? && e.meaning == PeerInfo && !e.sent then s.buffer
    else if s.stage == Forwarding && e.FromLocal? && !e.sent then e.bytes
    else []
  }

  /** Raw bytes read from the peer, and those the local socket refused. */
  function ReadPeer(events: seq<Event>, refused: bool): Bytes {
    if events == [] then []
    else
      var before, e := events[..|events| - 1], events[|events| - 1];
      ReadPeer(before, refused)
      + if e.FromPeer? && Run(before).stage == Forwarding && (refused ==> !e.sent) then e.bytes else []
  }

  lemma RawBytesAppend(packets: seq<Packet>, p: Packet)
    ensures RawBytes(packets + [p]) == RawBytes(packets) + if p.Raw? then p.bytes else []
  {
    assert (packets + [p])[..|packets|] == packets;
  }

  lemma {:induction false} FramesAddNoRaw(packets: seq<Packet>, frames: seq<Frame>)
    ensures RawBytes(packets + AsFramed(frames)) == RawBytes(packets)
  {
    if frames == [] {
      assert packets + AsFramed(frames) == packets;
    } else {
      var n := |frames| - 1;
      FramesAddNoRaw(packets, frames[..n]);
      assert packets + AsFramed(frames) == (packets + AsFramed(frames[..n])) + [Framed(frames[n])];
      RawBytesAppend(packets + AsFramed(frames[..n]), Framed(frames[n]));
    }
  }

  /** Bytes on the way to the peer: sent raw, then pending. */
  function Moved(s: State): Bytes { RawBytes(s.toPeer) + s.buffer }

  function ReadNow(s: State, e: Event): Bytes {
    if e.FromLocal? && !s.stage.Ended? then e.bytes else []
  }

  lemma LoginStepMoves(s: State, e: Event)
    requires s.stage == LoggingIn
    ensures LostNow(s, e) == [] ==> Moved(LoginStep(s, e)) == Moved(s) + ReadNow(s, e)
    ensures |Moved(LoginStep(s, e))| + |LostNow(s, e)| == |Moved(s)| + |ReadNow(s, e)|
  {
    match e
    case FromPeer(_, _, replies, _) =>
      FramesAddNoRaw(s.toPeer, replies);
      RawBytesAppend(s.toPeer, Raw(s.buffer));
      assert s.toPeer + [] == s.toPeer;
    case FromUi(replies) => FramesAddNoRaw(s.toPeer, replies);
    case FromLocal(bytes, _) => assert Moved(LoginStep(s, e)) == Moved(s) + bytes;
    case _ =>
  }

  lemma ForwardStepMoves(s: State, e: Event)
    requires s.stage == Forwarding && s.buffer == []
    ensures LostNow(s, e) == [] ==> Moved(ForwardStep(s, e)) == Moved(s) + ReadNow(s, e)
    ensures |Moved(ForwardStep(s, e))| + |LostNow(s, e)| == |Moved(s)| + |ReadNow(s, e)|
  {
    if e.FromLocal? {
      RawBytesAppend(s.toPeer, Raw(e.bytes));
      assert s.toPeer + [] == s.toPeer;
    }
  }

  /** The raw bytes and the buffer grow by what was read and not lost. */
  lemma StepMoves(s: State, e: Event)
    requires s.stage == Forwarding ==> s.buffer == []
    ensures Step(s, e).stage == Forwarding ==> Step(s, e).buffer == []
    ensures LostNow(s, e) == [] ==> Moved(Step(s, e)) == Moved(s) + ReadNow(s, e)
    ensures |Moved(Step(s, e))| + |LostNow(s, e)| == |Moved(s)| + |ReadNow(s, e)|
  {
    match s.stage
    case LoggingIn => LoginStepMoves(s, e);
    case Forwarding => ForwardStepMoves(s, e);
    case Ended(_) =>
  }

  lemma {:induction false} UpIsConserved(events: seq<Event>)
    ensures Run(events).stage == Forwarding ==> Run(events).buffer == []
    ensures |Moved(Run(events))| + |LostUp(events)| == |ReadLocal(events)|
    ensures LostUp(events) == [] ==> Moved(Run(events)) == ReadLocal(events)
  {
    if events != [] {
      var n := |events| - 1;
      UpIsConserved(events[..n]);
      StepMoves(Run(events[..n]), events[n]);
    }
  }

  /** Main result: at every point the raw bytes sent and the pending buffer are
      all the bytes read from the local socket, in order, if and only if every
      failed send was of no bytes. */
  lemma UpInOrderIff(events: seq<Event>)
    ensures RawBytes(Run(events).toPeer) + Run(events).buffer == ReadLocal(events) <==> LostUp(events) == []
  {
    UpIsConserved(events);
  }

  lemma {:induction false} DownIsConserved(events: seq<Event>)
    ensures |Run(events).toLocal| + |ReadPeer(events, true)| == |ReadPeer(events, false)|
    ensures ReadPeer(events, true) == [] ==> Run(events).toLocal == ReadPeer(events, false)
  {
    if events != [] { DownIsConserved(events[..|events| - 1]); }
  }

  /** Main result, other direction. */
  lemma DownInOrderIff(events: seq<Event>)
    ensures Run(events).toLocal == ReadPeer(events, false) <==> ReadPeer(events, true) == []
  {
    DownIsConserved(events);
  }

  // ---------------------------------------------------------------- login first

  predicate IsPeerInfo(e: Event) { e.FromPeer? && e.meaning == PeerInfo }

  ghost predicate FramesThenRaw(packets: seq<Packet>) {
    forall i, j | 0 <= i < j < |packets| :: packets[i].Raw? ==> packets[j].Raw?
  }

  lemma {:induction false} NothingRawInLogin(events: seq<Event>)
    requires Run(events).stage == LoggingIn || forall k | 0 <= k < |events| :: !IsPeerInfo(events[k])
    ensures forall i | 0 <= i < |Run(events).toPeer| :: Run(events).toPeer[i].Framed?
    ensures Run(events).toLocal == [] && Run(events).stage != Forwarding
  {
    if events != [] {
      var n := |events| - 1;
      assert forall k | 0 <= k < n :: events[..n][k] == events[k];
      NothingRawInLogin(events[..n]);
    }
  }

  lemma {:induction false} FramesFirst(events: seq<Event>)
    ensures FramesThenRaw(Run(events).toPeer)
  {
    if events != [] {
      var n := |events| - 1;
      FramesFirst(events[..n]);
      if Run(events[..n]).stage == LoggingIn { NothingRawInLogin(events[..n]); }
    }
  }

  /** Main result: no raw byte reaches either side before the peer has sent its
      PeerInfo, and after the first raw bytes no message frame follows. */
  lemma LoginBeforeBytes(events: seq<Event>)
    ensures FramesThenRaw(Run(events).toPeer)
    ensures RawBytes(Run(events).toPeer) != [] || Run(events).toLocal != []
            ==> exists k :: 0 <= k < |events| && IsPeerInfo(events[k])
  {
    FramesFirst(events);
    if forall k | 0 <= k < |events| :: !IsPeerInfo(events[k]) {
      NothingRawInLogin(events);
      OnlyFramesNoBytes(Run(events).toPeer);
    }
  }

  lemma {:induction false} OnlyFramesNoBytes(packets: seq<Packet>)
    requires forall i | 0 <= i < |packets| :: packets[i].Framed?
    ensures RawBytes(packets) == []
  {
    if packets != [] { OnlyFramesNoBytes(packets[..|packets| - 1]); }
  }

  lemma AfterLast(s: State, events: seq<Event>, e: Event)
    ensures After(s, events + [e]) == Step(After(s, events), e)
  {
    assert (events + [e])[..|events|] == events;
  }

  lemma {:induction false} AfterSplits(s: State, first: seq<Event>, rest: seq<Event>)
    ensures After(After(s, first), rest) == After(s, first + rest)
  {
    if rest == [] {
      assert first + rest == first;
    } else {
      var n := |rest| - 1;
      AfterSplits(s, first, rest[..n]);
      AfterLast(After(s, first), rest[..n], rest[n]);
      AfterLast(s, first + rest[..n], rest[n]);
      assert rest[..n] + [rest[n]] == rest && (first + rest[..n]) + [rest[n]] == first + rest;
    }
  }

  /** Once over, the rest of the events changes nothing. */
  lemma {:induction false} EndedStays(s: State, first: seq<Event>, rest: seq<Event>)
    requires After(s, first).stage.Ended?
    ensures After(s, first + rest) == After(s, first)
  {
    if rest == [] {
      assert first + rest == first;
    } else {
      var n := |rest| - 1;
      EndedStays(s, first, rest[..n]);
      assert (first + rest)[..|first| + n] == first + rest[..n];
    }
  }

  /** What `listen` does with a connection: the login, then the forwarding on
      the events that are left. */
  method Serve(events: seq<Event>) returns (f: PortForward)
    ensures f.Now() == Run(events)
  {
    f := new PortForward();
    var used := f.ConnectAndLogin(events);
    assert events[..used] + events[used..] == events;
    if f.stage == Forwarding {
      ghost var s := f.Now();
      var rest := events[used..];
      var more := f.RunForward(rest);
      AfterSplits(START, events[..used], rest);
      assert rest[..more] + rest[more..] == rest;
      if f.stage.Ended? { EndedStays(s, rest[..more], rest[more..]); } else { assert rest[..more] == rest; }
    } else if f.stage.Ended? {
      EndedStays(START, events[..used], events[used..]);
    } else {
      assert events[..used] == events;
    }
  }

  // ---------------------------------------------------------------- replies and outcomes

  function Frames(packets: seq<Packet>): seq<Frame> {
    if packets == [] then []
    else
      var last := packets[|packets| - 1];
      Frames(packets[..|packets| - 1]) + if last.Framed? then [last.frame] else []
  }

  /** What is said to the peer before its PeerInfo: every reply to a hash, to a
      test of the delay and to the user interface. */
  function Replies(events: seq<Event>): seq<Frame> {
    if events == [] then []
    else
      var before, e := events[..|events| - 1], events[|events| - 1];
      Replies(before)
      + if Run(before).stage == LoggingIn && IsReply(e) then e.replies else []
  }

  lemma {:induction false} FramesAppend(packets: seq<Packet>, frames: seq<Frame>)
    ensures Frames(packets + AsFramed(frames)) == Frames(packets) + frames
  {
    if frames == [] {
      assert packets + AsFramed(frames) == packets;
    } else {
      var n := |frames| - 1;
      var before := packets + AsFramed(frames[..n]);
      FramesAppend(packets, frames[..n]);
      assert packets + AsFramed(frames) == before + [Framed(frames[n])];
      OneFrame(before, frames[n]);
      assert Frames(packets) + frames[..n] + [frames[n]] == Frames(packets) + frames;
    }
  }

  lemma OneFrame(packets: seq<Packet>, frame: Frame)
    ensures Frames(packets + [Framed(frame)]) == Frames(packets) + [frame]
  {
    assert (packets + [Framed(frame)])[..|packets|] == packets;
  }

  lemma RawAddsNoFrame(packets: seq<Packet>, bytes: Bytes, sent: bool)
    ensures Frames(packets + AsRaw(bytes, sent)) == Frames(packets)
  {
    if sent {
      assert (packets + [Raw(bytes)])[..|packets|] == packets;
    } else {
      assert packets + [] == packets;
    }
  }

  predicate IsReply(e: Event) {
    e.FromUi? || (e.FromPeer? && (e.meaning == Hash || e.meaning == TestDelay))
  }

  lemma LoginReplies(s: State, e: Event)
    requires s.stage == LoggingIn
    ensures Frames(LoginStep(s, e).toPeer) == Frames(s.toPeer) + if IsReply(e) then e.replies else []
  {
    if e.FromUi? || e.FromPeer? { FramesAppend(s.toPeer, e.replies); }
    if e.FromPeer? { RawAddsNoFrame(s.toPeer, s.buffer, e.sent); }
  }

  lemma StepReplies(s: State, e: Event)
    ensures Frames(Step(s, e).toPeer)
         == Frames(s.toPeer) + if s.stage == LoggingIn && IsReply(e) then e.replies else []
  {
    match s.stage
    case LoggingIn => LoginReplies(s, e);
    case Forwarding => if e.FromLocal? { RawAddsNoFrame(s.toPeer, e.bytes, e.sent); }
    case Ended(_) =>
  }

  /** Main result: the frames sent in a run are exactly these replies, in order. */
  lemma {:induction false} FramesAreReplies(events: seq<Event>)
    ensures Frames(Run(events).toPeer) == Replies(events)
  {
    if events != [] {
      var n := |events| - 1;
      FramesAreReplies(events[..n]);
      StepReplies(Run(events[..n]), events[n]);
    }
  }

  /** The event ends the login. */
  predicate EndsLogin(e: Event) {
    match e
    case FromPeer(_, meaning, _, _) => meaning == Unparsable || meaning == LoginError(false) || meaning == PeerInfo
    case PeerTimeout => true
    case PeerGone => true
    case LocalGone => true
    case _ => false
  }

  lemma {:induction false} StillLoggingIn(events: seq<Event>)
    requires forall k | 0 <= k < |events| :: !EndsLogin(events[k])
    ensures Run(events).stage == LoggingIn
  {
    if events != [] { StillLoggingIn(events[..|events| - 1]); }
  }

  /** Main result: the first event that ends the login decides: PeerInfo starts
      the forwarding; a refused login and the end of the local side give up;
      everything else is an error. */
  lemma LoginOutcome(events: seq<Event>)
    requires events != [] && EndsLogin(events[|events| - 1])
    requires forall k | 0 <= k < |events| - 1 :: !EndsLogin(events[k])
    ensures var e := events[|events| - 1];
            Run(events).stage
            == if IsPeerInfo(e) then Forwarding
               else if e.LocalGone? || (e.FromPeer? && e.meaning.LoginError?) then Ended(GaveUp)
               else Ended(Failed)
  {
    StillLoggingIn(events[..|events| - 1]);
  }

  /** Forwarding ends, as finished, exactly when one of the sides does. */
  lemma {:induction false} ForwardOutcome(events: seq<Event>, i: nat)
    requires i <= |events| && Run(events[..i]).stage == Forwarding
    ensures Run(events).stage
         == if exists k :: i <= k < |events| && (events[k] == PeerGone || events[k] == LocalGone)
            then Ended(Finished) else Forwarding
  {
    if i == |events| {
      assert events[..i] == events;
    } else {
      var n := |events| - 1;
      assert events[..n][..i] == events[..i];
      ForwardOutcome(events[..n], i);
      assert forall k | 0 <= k < n :: events[..n][k] == events[k];
    }
  }

  /** The interface hears of a first message exactly when the peer sent one
      before the login was over. */
  lemma {:induction false} ReceivedIff(events: seq<Event>)
    ensures Run(events).received
       <==> exists k :: 0 <= k < |events| && events[k].FromPeer? && Run(events[..k]).stage == LoggingIn
  {
    if events != [] {
      var n := |events| - 1;
      ReceivedIff(events[..n]);
      assert forall k | 0 <= k < n :: events[..n][..k] == events[..k] && events[..n][k] == events[k];
      assert Run(events).received
        <==> Run(events[..n]).received || (events[n].FromPeer? && Run(events[..n]).stage == LoggingIn);
    }
  }
}
