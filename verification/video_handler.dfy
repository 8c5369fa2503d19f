/** Counting decoding failures and giving up on codecs: `VideoHandler` and the
    loop of `start_video_thread` in src/client.rs. */
module VideoDecoding {
  import opened Options

  type Format = int

  const MAX_DECODE_FAIL_COUNTER: nat := 3

  /** `usize::MAX` on a 64-bit machine. */
  const MAX_COUNTER: nat := 0xFFFF_FFFF_FFFF_FFFF

  /** `decoded` is absent when the frame carries no picture; otherwise it tells
      whether a picture came out. `valid` is what the decoder says of itself. */
  datatype Event =
    | Frame(format: Format, decoded: Option<bool>, valid: bool) // up to the mark
    | SendOwn // the message for that mark
    | ResetDecoder
    | OtherMark(format: Format) // the same two steps of another display's thread
    | OtherSend(format: Format)

  datatype Handler = Handler(format: Format, failCounter: nat, firstFrame: bool)

  /** A message to the peer: the mark it is sent for, and the list in it. */
  datatype Message = Message(cause: Format, list: seq<Format>)

  /** `marks` and `sent` are shared by the threads of all displays. A thread
      marks under a lock that it releases before it reads the list again for
      its message: `own` and `others` are the marks whose message is due. */
  datatype State = State(
    handler: Option<Handler>, marks: seq<Format>, own: Option<Format>, others: set<Format>, sent: seq<Message>)

  // ---------------------------------------------------------------- specification

  function AfterReset(h: Handler, format: Option<Format>): Handler {
    Handler(if format.Some? then format.value else h.format, 0, true)
  }

  function CountFailure(h: Handler): nat {
    if h.failCounter == MAX_COUNTER then MAX_COUNTER
    else if h.firstFrame && h.failCounter < MAX_DECODE_FAIL_COUNTER then MAX_DECODE_FAIL_COUNTER
    else h.failCounter + 1
  }

  function AfterFrame(h: Handler, format: Format, decoded: Option<bool>): Handler {
    var h := if format != h.format then AfterReset(h, Some(format)) else h;
    match decoded
    case None => h
    case Some(ok) => h.(failCounter := if ok then 0 else CountFailure(h), firstFrame := false)
  }

  function Send(s: State, cause: Format): State { s.(sent := s.sent + [Message(cause, s.marks)]) }

  predicate GivesUp(h: Handler, valid: bool) {
    !valid || h.failCounter >= MAX_DECODE_FAIL_COUNTER
  }

  /** A thread sends its message before it goes on. */
  predicate Enabled(s: State, e: Event) {
    match e
    case Frame(_, _, _) => s.own == None
    case SendOwn => s.own.Some?
    case ResetDecoder => s.own == None
    case OtherMark(_) => true
    case OtherSend(format) => format in s.others
  }

  function Step(s: State, e: Event): State {
    match e
    case Frame(format, decoded, valid) =>
      var h := AfterFrame(if s.handler.Some? then s.handler.value else Handler(format, 0, true), format, decoded);
      var s := s.(handler := Some(h));
      if GivesUp(h, valid) && h.format !in s.marks then s.(marks := s.marks + [h.format], own := Some(h.format)) else s
    case SendOwn => if s.own.Some? then Send(s, s.own.value).(own := None) else s
    case ResetDecoder =>
      if s.handler.Some? then s.(handler := Some(AfterReset(s.handler.value, None))) else s
    case OtherMark(format) =>
      if format in s.marks then s else s.(marks := s.marks + [format], others := s.others + {format})
    case OtherSend(format) => Send(s, format).(others := s.others - {format})
  }

  function Run(events: seq<Event>): State {
    if events == [] then State(None, [], None, {}, [])
    else Step(Run(events[..|events| - 1]), events[|events| - 1])
  }

  /** What the threads can do. */
  ghost predicate IsRun(events: seq<Event>) {
    forall i | 0 <= i < |events| :: Enabled(Run(events[..i]), events[i])
  }

  // ---------------------------------------------------------------- the program

  class VideoHandler {
    var format: Format
    var failCounter: nat
    var firstFrame: bool

    function Now(): Handler
      reads this
    {
      Handler(format, failCounter, firstFrame)
    }

    constructor (format: Format)
      ensures Now() == Handler(format, 0, true)
    {
      this.format, failCounter, firstFrame := format, 0, true;
    }

    method Reset(format: Option<Format>)
      modifies this
      ensures Now() == AfterReset(old(Now()), format)
    {
      if format.Some? { this.format := format.value; }
      failCounter, firstFrame := 0, true;
    }

    method HandleFrame(format: Format, decoded: Option<bool>)
      requires failCounter <= MAX_COUNTER
      modifies this
      ensures Now() == AfterFrame(old(Now()), format, decoded) && failCounter <= MAX_COUNTER
    {
      if format != this.format { Reset(Some(format)); }
      if decoded.Some? {
        if decoded.value {
          failCounter := 0;
        } else if failCounter < MAX_COUNTER {
          if firstFrame && failCounter < MAX_DECODE_FAIL_COUNTER {
            failCounter := MAX_DECODE_FAIL_COUNTER;
          } else {
            failCounter := failCounter + 1;
          }
        }
        firstFrame := false;
      }
    }
  }

  class VideoThread {
    var handler: VideoHandler?
    var markUnsupported: seq<Format>
    var shouldUpdateSupported: Option<Format>
    var others: set<Format>
    var sent: seq<Message>

    function Now(): State
      reads this, handler
    {
      State(if handler == null then None else Some(handler.Now()), markUnsupported, shouldUpdateSupported, others, sent)
    }

    constructor ()
      ensures Now() == State(None, [], None, {}, [])
    {
      handler, markUnsupported, shouldUpdateSupported, others, sent := null, [], None, {}, [];
    }

    method Handle(e: Event)
      requires Enabled(Now(), e)
      requires handler != null ==> handler.failCounter <= MAX_COUNTER
      modifies this, handler
      ensures Now() == Step(old(Now()), e)
      ensures handler != null ==> handler.failCounter <= MAX_COUNTER
      ensures handler == old(handler) || fresh(handler)
    {
      match e
      case Frame(format, decoded, valid) =>
        if handler == null { handler := new VideoHandler(format); }
        handler.HandleFrame(format, decoded);
        if !valid || handler.failCounter >= MAX_DECODE_FAIL_COUNTER {
          if handler.format !in markUnsupported {
            markUnsupported := markUnsupported + [handler.format];
            shouldUpdateSupported := Some(handler.format);
          }
        }
      case SendOwn =>
        sent := sent + [Message(shouldUpdateSupported.value, markUnsupported)];
        shouldUpdateSupported := None;
      case ResetDecoder => if handler != null { handler.Reset(None); }
      case OtherMark(format) =>
        if format !in markUnsupported {
          markUnsupported := markUnsupported + [format];
          others := others + {format};
        }
      case OtherSend(format) =>
        sent := sent + [Message(format, markUnsupported)];
        others := others - {format};
    }
  }

  // ---------------------------------------------------------------- the failure streak

  /** The format of the decoder, read off the events alone. */
  function FormatAfter(events: seq<Event>): Option<Format> {
    if events == [] then None
    else
      var e := events[|events| - 1];
      if e.Frame? then Some(e.format) else FormatAfter(events[..|events| - 1])
  }

  /** Outcomes of the pictures decoded since the last reset or format change. */
  function Results(events: seq<Event>): seq<bool> {
    if events == [] then []
    else
      var before, e := events[..|events| - 1], events[|events| - 1];
      match e
      case Frame(format, decoded, _) =>
        var kept := if FormatAfter(before) == Some(format) then Results(before) else [];
        if decoded.Some? then kept + [decoded.value] else kept
      case ResetDecoder => []
      case _ => Results(before)
  }

  /** How many failures end the list. */
  function Streak(results: seq<bool>): (n: nat)
    ensures n <= |results|
    ensures forall i | |results| - n <= i < |results| :: !results[i]
    ensures n < |results| ==> results[|results| - n - 1]
  {
    if results == [] || results[|results| - 1] then 0 else Streak(results[..|results| - 1]) + 1
  }

  /** The current streak, plus 2 when it began with the first picture. */
  function Expected(results: seq<bool>): nat {
    var n := Streak(results) + if results != [] && Streak(results) == |results| then 2 else 0;
    if n <= 0xFFFF_FFFF_FFFF_FFFF then n else 0xFFFF_FFFF_FFFF_FFFF
  }

  ghost predicate CountedBy(h: Handler, results: seq<bool>) {
    (h.firstFrame <==> results == []) && h.failCounter == Expected(results)
  }

  ghost predicate Counted(s: State, events: seq<Event>) {
    match s.handler
    case None => FormatAfter(events) == None && Results(events) == []
    case Some(h) => FormatAfter(events) == Some(h.format) && CountedBy(h, Results(events))
  }

  lemma ExpectedGrows(results: seq<bool>, ok: bool)
    ensures Expected(results + [ok])
         == if ok then 0 else CountFailure(Handler(0, Expected(results), results == []))
  {
    assert (results + [ok])[..|results|] == results;
  }

  function Extended(results: seq<bool>, decoded: Option<bool>): seq<bool> {
    if decoded.Some? then results + [decoded.value] else results
  }

  lemma HandlerCounted(h: Handler, format: Format, decoded: Option<bool>, results: seq<bool>)
    requires CountedBy(h, results)
    ensures var kept := if format == h.format then results else [];
            CountedBy(AfterFrame(h, format, decoded), Extended(kept, decoded))
    ensures AfterFrame(h, format, decoded).format == format
  {
    var kept := if format == h.format then results else [];
    if decoded.Some? { ExpectedGrows(kept, decoded.value); }
  }

  lemma FrameCounted(events: seq<Event>, e: Event)
    requires Counted(Run(events), events) && e.Frame?
    ensures Counted(Step(Run(events), e), events + [e])
  {
    assert (events + [e])[..|events|] == events;
    var s := Run(events);
    var h := if s.handler.Some? then s.handler.value else Handler(e.format, 0, true);
    HandlerCounted(h, e.format, e.decoded, Results(events));
    var kept := if FormatAfter(events) == Some(e.format) then Results(events) else [];
    assert Results(events + [e]) == Extended(kept, e.decoded);
    assert Step(s, e).handler == Some(AfterFrame(h, e.format, e.decoded));
  }

  lemma OtherCounted(events: seq<Event>, e: Event)
    requires Counted(Run(events), events) && !e.Frame?
    ensures Counted(Step(Run(events), e), events + [e])
  {
    assert (events + [e])[..|events|] == events;
  }

  /** Main result: the counter is the failure streak since the last picture that
      came out, plus 2 if that streak includes the first picture since the last
      reset, up to the largest counter. */
  lemma {:induction false} CounterIsStreak(events: seq<Event>)
    ensures Counted(Run(events), events)
  {
    if events != [] {
      var n := |events| - 1;
      CounterIsStreak(events[..n]);
      assert events == events[..n] + [events[n]];
      if events[n].Frame? { FrameCounted(events[..n], events[n]); } else { OtherCounted(events[..n], events[n]); }
    }
  }

  /** The last three pictures failed, or all since the last reset did. */
  predicate Hopeless(results: seq<bool>) {
    || (results != [] && forall i | 0 <= i < |results| :: !results[i])
    || (|results| >= 3 && forall i | |results| - 3 <= i < |results| :: !results[i])
  }

  lemma HopelessMeans(results: seq<bool>)
    ensures Expected(results) >= MAX_DECODE_FAIL_COUNTER <==> Hopeless(results)
  {
    var n := Streak(results);
    if n < |results| { assert results[|results| - n - 1]; }
  }

  lemma FrameMarks(s: State, e: Event)
    requires e.Frame? && e.format !in s.marks
    ensures var s' := Step(s, e);
            && s'.handler.Some? && s'.handler.value.format == e.format
            && s'.marks == s.marks + if GivesUp(s'.handler.value, e.valid) then [e.format] else []
  {
  }

  /** Main result: a frame makes the thread mark its format, if it was not
      marked, exactly when the decoder is invalid, or all pictures since the
      last reset or the last three have failed. */
  lemma MarkedIff(events: seq<Event>, e: Event)
    requires e.Frame? && e.format !in Run(events).marks
    ensures e.format in Run(events + [e]).marks <==> !e.valid || Hopeless(Results(events + [e]))
    ensures Run(events + [e]).marks
         == Run(events).marks + if e.format in Run(events + [e]).marks then [e.format] else []
  {
    assert (events + [e])[..|events|] == events;
    FrameMarks(Run(events), e);
    CounterIsStreak(events + [e]);
    HopelessMeans(Results(events + [e]));
  }

  ghost predicate NoDuplicates(marks: seq<Format>) {
    forall i, j | 0 <= i < j < |marks| :: marks[i] != marks[j]
  }

  /** No format is marked twice, the marks are those announced and those due,
      and every message lists the marks up to some moment, its own included. */
  ghost predicate Announced(s: State) {
    && NoDuplicates(s.marks)
    && Causes(s.sent) + Due(s) == multiset(s.marks)
    && ListsInOrder(s.sent, s.marks)
  }

  ghost predicate ListsInOrder(sent: seq<Message>, marks: seq<Format>) {
    && (forall k | 0 <= k < |sent| :: sent[k].list <= marks && sent[k].cause in sent[k].list)
    && (forall i, j | 0 <= i < j < |sent| :: sent[i].list <= sent[j].list)
  }

  /** The marks for which messages were sent, and those for which they are due. */
  function Causes(sent: seq<Message>): multiset<Format> {
    if sent == [] then multiset{} else Causes(sent[..|sent| - 1]) + multiset{sent[|sent| - 1].cause}
  }

  function Due(s: State): multiset<Format> {
    (if s.own.Some? then multiset{s.own.value} else multiset{}) + multiset(s.others)
  }

  lemma MarkKeeps(s: State, format: Format, s': State)
    requires Announced(s) && format !in s.marks
    requires s'.marks == s.marks + [format] && s'.sent == s.sent && Due(s') == Due(s) + multiset{format}
    ensures Announced(s')
  {
    forall k | 0 <= k < |s.sent| ensures s.sent[k].list <= s'.marks {
      assert s.sent[k].list <= s.marks;
    }
  }

  lemma SendKeeps(s: State, cause: Format, s': State)
    requires Announced(s) && cause in Due(s)
    requires s'.marks == s.marks && s'.sent == s.sent + [Message(cause, s.marks)]
    requires Due(s') == Due(s) - multiset{cause}
    ensures Announced(s')
  {
    DueIsMarked(s, cause);
    SendBalances(s, cause, s');
    ListsGrow(s.sent, Message(cause, s.marks), s.marks);
  }

  lemma DueIsMarked(s: State, cause: Format)
    requires Announced(s) && cause in Due(s)
    ensures cause in s.marks
  {
    assert cause in Causes(s.sent) + Due(s);
    assert cause in multiset(s.marks);
  }

  /** What is announced is no longer due. */
  lemma SendBalances(s: State, cause: Format, s': State)
    requires Causes(s.sent) + Due(s) == multiset(s.marks) && cause in Due(s)
    requires s'.marks == s.marks && s'.sent == s.sent + [Message(cause, s.marks)]
    requires Due(s') == Due(s) - multiset{cause}
    ensures Causes(s'.sent) + Due(s') == multiset(s'.marks)
  {
    CausesGrow(s.sent, Message(cause, s.marks));
    Moved(Causes(s.sent), Due(s), cause);
  }

  lemma Moved(sent: multiset<Format>, due: multiset<Format>, cause: Format)
    requires cause in due
    ensures (sent + multiset{cause}) + (due - multiset{cause}) == sent + due
  {
  }

  lemma CausesGrow(sent: seq<Message>, m: Message)
    ensures Causes(sent + [m]) == Causes(sent) + multiset{m.cause}
  {
    assert (sent + [m])[..|sent|] == sent;
  }

  lemma ListsGrow(sent: seq<Message>, m: Message, marks: seq<Format>)
    requires ListsInOrder(sent, marks) && m.list == marks && m.cause in marks
    ensures ListsInOrder(sent + [m], marks)
  {
  }

  /** A mark that another thread owes is not owed by this one. */
  lemma OneDebtor(s: State)
    requires Announced(s)
    ensures s.own.Some? ==> s.own.value !in s.others
    ensures forall f | f in Due(s) :: f in s.marks
  {
    assert forall f :: multiset(s.marks)[f] <= 1 by {
      MarkedOnce(s.marks);
    }
    if s.own.Some? { assert (Causes(s.sent) + Due(s))[s.own.value] <= 1; }
    forall f | f in Due(s) ensures f in s.marks {
      assert f in multiset(s.marks);
    }
  }

  lemma {:induction false} MarkedOnce(marks: seq<Format>)
    requires NoDuplicates(marks)
    ensures forall f :: multiset(marks)[f] <= 1
  {
    if marks != [] {
      var n := |marks| - 1;
      MarkedOnce(marks[..n]);
      assert marks == marks[..n] + [marks[n]];
      assert marks[n] !in marks[..n];
    }
  }

  lemma FrameAnnounces(s: State, e: Event)
    requires Announced(s) && e.Frame? && s.own == None
    ensures Announced(Step(s, e))
  {
    var s' := Step(s, e);
    if s'.marks != s.marks {
      MarkKeeps(s, s'.handler.value.format, s');
    } else {
      assert Due(s') == Due(s) && s'.sent == s.sent;
    }
  }

  lemma OtherMarkAnnounces(s: State, format: Format)
    requires Announced(s)
    ensures Announced(Step(s, OtherMark(format)))
  {
    OneDebtor(s);
    if format !in s.marks {
      assert format !in Due(s);
      MarkKeeps(s, format, Step(s, OtherMark(format)));
    }
  }

  lemma SendAnnounces(s: State, e: Event)
    requires Announced(s) && Enabled(s, e) && (e.SendOwn? || e.OtherSend?)
    ensures Announced(Step(s, e))
  {
    OneDebtor(s);
    var cause := if e.SendOwn? then s.own.value else e.format;
    assert Due(Step(s, e)) == Due(s) - multiset{cause};
    SendKeeps(s, cause, Step(s, e));
  }

  lemma StepAnnounces(s: State, e: Event)
    requires Announced(s) && Enabled(s, e)
    ensures Announced(Step(s, e))
  {
    match e
    case Frame(_, _, _) => FrameAnnounces(s, e);
    case OtherMark(format) => OtherMarkAnnounces(s, format);
    case ResetDecoder => assert Due(Step(s, e)) == Due(s);
    case _ => SendAnnounces(s, e);
  }

  /** Main result: in every interleaving of the threads no format is marked
      twice, each mark has one message, sent or due, and each message lists all
      marks up to some moment, its own among them. */
  lemma {:induction false} OneMessagePerMark(events: seq<Event>)
    requires IsRun(events)
    ensures Announced(Run(events))
  {
    if events != [] {
      var n := |events| - 1;
      forall i | 0 <= i < n ensures Enabled(Run(events[..n][..i]), events[..n][i]) {
        assert events[..n][..i] == events[..i];
      }
      OneMessagePerMark(events[..n]);
      StepAnnounces(Run(events[..n]), events[n]);
    }
  }

  lemma {:induction false} CauseHasMessage(sent: seq<Message>, f: Format) returns (k: nat)
    requires f in Causes(sent)
    ensures k < |sent| && sent[k].cause == f
  {
    var n := |sent| - 1;
    if sent[n].cause == f { k := n; } else { k := CauseHasMessage(sent[..n], f); }
  }

  /** Main result: once no message is due, the peer has the whole list. */
  lemma PeerHasAllMarks(events: seq<Event>)
    requires IsRun(events) && Due(Run(events)) == multiset{} && Run(events).marks != []
    ensures Run(events).sent != [] && Run(events).sent[|Run(events).sent| - 1].list == Run(events).marks
  {
    OneMessagePerMark(events);
    LastIsNewest(Run(events));
  }

  lemma LastIsNewest(s: State)
    requires Announced(s) && Due(s) == multiset{} && s.marks != []
    ensures s.sent != [] && s.sent[|s.sent| - 1].list == s.marks
  {
    var last := s.marks[|s.marks| - 1];
    assert last in multiset(s.marks);
    var k := CauseHasMessage(s.sent, last);
    WholeList(s.marks, s.sent[k].list);
    var n := |s.sent| - 1;
    assert s.sent[k].list <= s.sent[n].list <= s.marks;
  }

  /** Only the whole list contains the last mark. */
  lemma WholeList(marks: seq<Format>, list: seq<Format>)
    requires NoDuplicates(marks) && marks != [] && list <= marks && marks[|marks| - 1] in list
    ensures list == marks
  {
    var i :| 0 <= i < |list| && list[i] == marks[|marks| - 1];
    assert marks[i] == list[i];
  }

  /** Two threads may both send the newest list: a message may list more than
      the marks up to its own. */
  lemma SameListTwice(a: Format, b: Format)
    requires a != b
    ensures var events := [OtherMark(a), OtherMark(b), OtherSend(a), OtherSend(b)];
            IsRun(events) && Run(events).sent == [Message(a, [a, b]), Message(b, [a, b])]
  {
    var events := [OtherMark(a), OtherMark(b), OtherSend(a), OtherSend(b)];
    var s0 := State(None, [], None, {}, []);
    var s1 := State(None, [a], None, {a}, []);
    var s2 := State(None, [a, b], None, {a, b}, []);
    var s3 := State(None, [a, b], None, {b}, [Message(a, [a, b])]);
    assert events[..0] == [] && Run(events[..0]) == s0;
    assert events[..1][..0] == events[..0] && Step(s0, events[0]) == s1 && Run(events[..1]) == s1;
    assert events[..2][..1] == events[..1] && Step(s1, events[1]) == s2 && Run(events[..2]) == s2;
    assert events[..3][..2] == events[..2] && Step(s2, events[2]) == s3 && Run(events[..3]) == s3;
  }
}
