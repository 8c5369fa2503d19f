/** Clipboard exchange between the two ends of a session (src/clipboard.rs):
    what is sent, how it is marked, and why it is not sent back. */
module Clipboards {
  import opened Options

  type Byte = x: int | 0 <= x < 256

  datatype ImageKind = Rgba | Png | Svg

  /** One format of the system clipboard. Texts are their UTF-8 bytes. */
  datatype Data =
    | Text(bytes: seq<Byte>) | Rtf(bytes: seq<Byte>) | Html(bytes: seq<Byte>)
    | Image(kind: ImageKind, width: nat, height: nat, bytes: seq<Byte>)
    | Special(name: seq<Byte>, bytes: seq<Byte>)
    | FileUrl(urls: seq<string>)

  datatype Format = FText | FRtf | FHtml | FRgba | FPng | FSvg | FSpecial | FUnknown

  /** One format on the wire. */
  datatype Clip = Clip(compress: bool, content: seq<Byte>, format: Format,
                       width: nat, height: nat, specialName: seq<Byte>)

  datatype Side = Host | Client

  /** Compression and the UTF-8 check, from other crates. */
  datatype Codec = Codec(
    compress: seq<Byte> -> seq<Byte>,
    decompress: seq<Byte> -> seq<Byte>,
    utf8: seq<Byte> -> bool)

  ghost predicate Lossless(c: Codec) {
    forall b :: c.decompress(c.compress(b)) == b
  }

  // "dyn.com.rustdesk.owner"
  const OWNER: seq<Byte> :=
    [100, 121, 110, 46, 99, 111, 109, 46, 114, 117, 115, 116, 100, 101, 115, 107, 46, 111, 119, 110, 101, 114]

  // ---------------------------------------------------------------- wire format

  predicate Shrinks(b: seq<Byte>, c: Codec) { |c.compress(b)| < |b| }

  function Pack(b: seq<Byte>, c: Codec): seq<Byte> {
    if Shrinks(b, c) then c.compress(b) else b
  }

  /** `clipboard_data_to_proto`. A special format that does not shrink is sent
      with its name in place of its bytes, as `special_to_proto` has it. */
  function ToProto(d: Data, c: Codec): Option<Clip> {
    match d
    case Text(b) => Some(Clip(Shrinks(b, c), Pack(b, c), FText, 0, 0, []))
    case Rtf(b) => Some(Clip(Shrinks(b, c), Pack(b, c), FRtf, 0, 0, []))
    case Html(b) => Some(Clip(Shrinks(b, c), Pack(b, c), FHtml, 0, 0, []))
    case Image(kind, w, h, b) =>
      (match kind
       case Rgba => Some(Clip(Shrinks(b, c), Pack(b, c), FRgba, w, h, []))
       case Png => Some(Clip(false, b, FPng, 0, 0, []))
       case Svg => Some(Clip(Shrinks(b, c), Pack(b, c), FSvg, 0, 0, [])))
    case Special(name, b) =>
      Some(Clip(Shrinks(b, c), if Shrinks(b, c) then c.compress(b) else name, FSpecial, 0, 0, name))
    case FileUrl(_) => None
  }

  /** `from_clipboard`. */
  function FromProto(p: Clip, c: Codec): Option<Data> {
    var b := if p.compress then c.decompress(p.content) else p.content;
    match p.format
    case FText => if c.utf8(b) then Some(Text(b)) else None
    case FRtf => if c.utf8(b) then Some(Rtf(b)) else None
    case FHtml => if c.utf8(b) then Some(Html(b)) else None
    case FRgba => Some(Image(Rgba, p.width, p.height, b))
    case FPng => Some(Image(Png, 0, 0, b))
    case FSvg => Some(Image(Svg, 0, 0, if c.utf8(b) then b else []))
    case FSpecial => Some(Special(p.specialName, b))
    case FUnknown => None
  }

  /** What the system clipboard can hold: texts are UTF-8, and only raw images
      carry their size outside their bytes. */
  predicate Proper(d: Data, c: Codec) {
    match d
    case Text(b) => c.utf8(b)
    case Rtf(b) => c.utf8(b)
    case Html(b) => c.utf8(b)
    case Image(kind, w, h, b) => (kind == Rgba || (w == 0 && h == 0)) && (kind == Svg ==> c.utf8(b))
    case _ => true
  }

  /** Main result: every format but file names survives the wire, except
      exactly the special formats that do not shrink and differ from their name. */
  lemma WireRoundTripIff(d: Data, c: Codec)
    requires Lossless(c) && Proper(d, c) && !d.FileUrl?
    ensures ToProto(d, c).Some?
    ensures FromProto(ToProto(d, c).value, c) == Some(d)
       <==> (d.Special? ==> Shrinks(d.bytes, c) || d.bytes == d.name)
  {
    if !d.FileUrl? { assert c.decompress(c.compress(d.bytes)) == d.bytes; }
  }

  function ToProtos(ds: seq<Data>, c: Codec): seq<Clip> {
    if ds == [] then []
    else
      var p := ToProto(ds[0], c);
      (if p.Some? then [p.value] else []) + ToProtos(ds[1..], c)
  }

  function FromProtos(ps: seq<Clip>, c: Codec): seq<Data> {
    if ps == [] then []
    else
      var d := FromProto(ps[0], c);
      (if d.Some? then [d.value] else []) + FromProtos(ps[1..], c)
  }

  // ---------------------------------------------------------------- reading and writing

  /** `is_owner`: either side's mark counts for both sides. */
  predicate IsOwner(b: seq<Byte>) { b != [] && b[0] % 4 != 0 }

  function OwnerData(side: Side): seq<Byte> {
    if side == Host then [1] else [2]
  }

  predicate IsMark(d: Data) { d.Special? && d.name == OWNER && IsOwner(d.bytes) }

  predicate Marked(content: seq<Data>) {
    exists i | 0 <= i < |content| :: IsMark(content[i])
  }

  predicate Keep(d: Data) {
    match d
    case Special(name, _) => name != OWNER
    case Text(b) => b != []
    case _ => true
  }

  function Filter(content: seq<Data>): seq<Data> {
    if content == [] then []
    else (if Keep(content[0]) then [content[0]] else []) + Filter(content[1..])
  }

  predicate HasFiles(content: seq<Data>) {
    exists i | 0 <= i < |content| :: content[i].FileUrl?
  }

  /** `ClipboardContext::get`; `files` says whether file copy has its own service. */
  function Get(content: seq<Data>, force: bool, files: bool): seq<Data> {
    if !force && Marked(content) then []
    else
      var kept := Filter(content);
      if files && HasFiles(kept) then [] else kept
  }

  /** `check_clipboard`; None for the content is a clipboard that cannot be read. */
  function Check(read: Option<seq<Data>>, force: bool, files: bool, c: Codec): Option<seq<Clip>> {
    if read.None? then None
    else
      var content := Get(read.value, force, files);
      if content == [] then None else Some(ToProtos(content, c))
  }

  /** `update_clipboard`: the new content of the system clipboard. */
  function Update(content: seq<Data>, clips: seq<Clip>, side: Side, writable: bool, c: Codec): seq<Data> {
    var ds := FromProtos(clips, c);
    if ds == [] || !writable then content else ds + [Special(OWNER, OwnerData(side))]
  }

  /** The system clipboard of one end, and the last message made from it. */
  class ClipboardContext {
    var content: seq<Data>
    var lastMultiClipboards: seq<Clip>

    constructor (content: seq<Data>)
      ensures this.content == content && lastMultiClipboards == []
    {
      this.content, lastMultiClipboards := content, [];
    }

    method GetFormatsFilter(force: bool) returns (data: seq<Data>)
      ensures data == Get(content, force, false)
    {
      if !force {
        for i := 0 to |content|
          invariant forall k | 0 <= k < i :: !IsMark(content[k])
        {
          if IsMark(content[i]) { return []; }
        }
      }
      data := Filter(content);
    }

    method CheckClipboard(readable: bool, force: bool, files: bool, c: Codec) returns (msg: Option<seq<Clip>>)
      modifies this`lastMultiClipboards
      ensures msg == Check(if readable then Some(content) else None, force, files, c)
      ensures lastMultiClipboards == if msg.Some? then msg.value else old(lastMultiClipboards)
    {
      if !readable { return None; }
      var data := GetFormatsFilter(force);
      if data == [] || (files && HasFiles(data)) { return None; }
      lastMultiClipboards := ToProtos(data, c);
      msg := Some(lastMultiClipboards);
    }

    method UpdateClipboard(clips: seq<Clip>, side: Side, writable: bool, c: Codec)
      modifies this`content
      ensures content == Update(old(content), clips, side, writable, c)
    {
      var toUpdate := FromProtos(clips, c);
      if toUpdate == [] { return; }
      toUpdate := toUpdate + [Special(OWNER, OwnerData(side))];
      if writable { content := toUpdate; }
    }
  }

  /** What one end wrote is not sent back unless forced, whichever side reads it. */
  lemma WrittenIsNotSentBack(content: seq<Data>, clips: seq<Clip>, side: Side, files: bool, c: Codec)
    requires FromProtos(clips, c) != []
    ensures Check(Some(Update(content, clips, side, true, c)), false, files, c) == None
  {
    var written := Update(content, clips, side, true, c);
    assert IsMark(written[|written| - 1]);
  }

  /** What is never sent: owner marks and empty text. */
  predicate Left(d: Data) {
    (d.Special? && d.name == OWNER) || d == Text([])
  }

  /** Places in a list, in order, that leave out exactly these. */
  ghost predicate AllButLeft(content: seq<Data>, at: seq<nat>) {
    && (forall i | 0 <= i < |at| :: at[i] < |content| && !Left(content[at[i]]))
    && (forall i, j | 0 <= i < j < |at| :: at[i] < at[j])
    && (forall k: nat | k < |content| && !Left(content[k]) :: k in at)
  }

  /** Main result: what is left of the content after the filter are all its items
      but owner marks and empty text, each as often as it was there, in order. */
  lemma {:induction false} FilterKeepsTheRest(content: seq<Data>) returns (at: seq<nat>)
    ensures AllButLeft(content, at) && FilteredAt(content, at)
  {
    if content == [] {
      at := [];
    } else {
      var rest := FilterKeepsTheRest(content[1..]);
      at := Places(content, rest);
      OneMoreItem(content, rest);
      FilterOneMore(content, rest);
    }
  }

  function Places(content: seq<Data>, rest: seq<nat>): seq<nat>
    requires content != []
  {
    (if Left(content[0]) then [] else [0]) + Later(rest)
  }

  lemma OneMoreItem(content: seq<Data>, rest: seq<nat>)
    requires content != [] && AllButLeft(content[1..], rest)
    ensures AllButLeft(content, Places(content, rest))
  {
    var at := Places(content, rest);
    forall i | 0 <= i < |at| ensures at[i] < |content| && !Left(content[at[i]]) { PlaceIsKept(content, rest, i); }
    forall k: nat | k < |content| && !Left(content[k]) ensures k in at { KeptHasPlace(content, rest, k); }
    PlacesRise(content, rest);
  }

  lemma PlaceIsKept(content: seq<Data>, rest: seq<nat>, i: nat)
    requires content != [] && AllButLeft(content[1..], rest) && i < |Places(content, rest)|
    ensures var k := Places(content, rest)[i]; k < |content| && !Left(content[k])
  {
    var n := if Left(content[0]) then 0 else 1;
    if i >= n { assert content[1..][rest[i - n]] == content[rest[i - n] + 1]; }
  }

  lemma PlacesRise(content: seq<Data>, rest: seq<nat>)
    requires content != [] && forall i, j | 0 <= i < j < |rest| :: rest[i] < rest[j]
    ensures var at := Places(content, rest); forall i, j | 0 <= i < j < |at| :: at[i] < at[j]
  {
  }

  lemma KeptHasPlace(content: seq<Data>, rest: seq<nat>, k: nat)
    requires content != [] && AllButLeft(content[1..], rest) && k < |content| && !Left(content[k])
    ensures k in Places(content, rest)
  {
    if k > 0 {
      ShiftedPlace(content, rest, k);
    } else {
      assert Places(content, rest)[0] == 0;
    }
  }

  lemma ShiftedPlace(content: seq<Data>, rest: seq<nat>, k: nat)
    requires 0 < k < |content| && AllButLeft(content[1..], rest) && !Left(content[k])
    ensures k in Later(rest)
  {
    assert content[1..][k - 1] == content[k];
    var i :| 0 <= i < |rest| && rest[i] == k - 1;
    assert Later(rest)[i] == k;
  }

  lemma KeepIsNotLeft(d: Data)
    ensures Keep(d) <==> !Left(d)
  {
  }

  /** The filtered items stand at these places. */
  ghost predicate FilteredAt(content: seq<Data>, at: seq<nat>) {
    |Filter(content)| == |at| && forall i | 0 <= i < |at| :: ItemAt(content, at, i)
  }

  ghost predicate ItemAt(content: seq<Data>, at: seq<nat>, i: nat)
    requires i < |at| == |Filter(content)|
  {
    at[i] < |content| && Filter(content)[i] == content[at[i]]
  }

  lemma FilterOneMore(content: seq<Data>, rest: seq<nat>)
    requires content != [] && FilteredAt(content[1..], rest)
    ensures FilteredAt(content, Places(content, rest))
  {
    KeepIsNotLeft(content[0]);
    var first, at := if Keep(content[0]) then [content[0]] else [], Places(content, rest);
    assert Filter(content) == first + Filter(content[1..]) && |at| == |first| + |rest|;
    forall i | 0 <= i < |at| ensures ItemAt(content, at, i) {
      if i >= |first| {
        assert ItemAt(content[1..], rest, i - |first|);
        assert at[i] == rest[i - |first|] + 1;
      }
    }
  }

  function Later(at: seq<nat>): (later: seq<nat>)
    ensures |later| == |at| && forall i | 0 <= i < |at| :: later[i] == at[i] + 1
  {
    seq(|at|, i requires 0 <= i < |at| => at[i] + 1)
  }

  /** What arrives of an item that can be sent. */
  function Arrival(d: Data, c: Codec): Data {
    if d.Special? && !Shrinks(d.bytes, c) then Special(d.name, d.name) else d
  }

  lemma Arrives(d: Data, c: Codec)
    requires Lossless(c) && Proper(d, c) && !d.FileUrl?
    ensures ToProto(d, c).Some? && FromProto(ToProto(d, c).value, c) == Some(Arrival(d, c))
  {
    assert c.decompress(c.compress(d.bytes)) == d.bytes;
  }

  /** A list without file names goes over the wire item by item. */
  lemma {:induction false} ListArrives(ds: seq<Data>, c: Codec)
    requires Lossless(c) && forall i | 0 <= i < |ds| :: Proper(ds[i], c) && !ds[i].FileUrl?
    ensures var got := FromProtos(ToProtos(ds, c), c);
            |got| == |ds| && forall i | 0 <= i < |ds| :: got[i] == Arrival(ds[i], c)
  {
    if ds != [] {
      Arrives(ds[0], c);
      ListArrives(ds[1..], c);
      var p := ToProto(ds[0], c).value;
      assert ToProtos(ds, c) == [p] + ToProtos(ds[1..], c);
      assert ([p] + ToProtos(ds[1..], c))[1..] == ToProtos(ds[1..], c);
      assert FromProtos(ToProtos(ds, c), c) == [Arrival(ds[0], c)] + FromProtos(ToProtos(ds[1..], c), c);
    }
  }

  /** The content is read: no owner mark of either side, or the reader insists. */
  ghost predicate Readable(content: seq<Data>, force: bool) {
    force || forall d | d in content :: d.Special? && d.name == OWNER ==> d.bytes == [] || d.bytes[0] % 4 == 0
  }

  /** Main result, end to end: content without file names and marks, checked at
      one end and written at the other, leaves there all its items but empty
      text, in order, as they arrive, and then the mark of the writing side; with
      nothing but empty text there is no message. */
  lemma CheckThenUpdate(
    content: seq<Data>, other: seq<Data>, force: bool, files: bool, side: Side, c: Codec) returns (at: seq<nat>)
    requires Lossless(c) && Readable(content, force)
    requires forall i | 0 <= i < |content| :: Proper(content[i], c) && !content[i].FileUrl?
    ensures AllButLeft(content, at)
    ensures at == [] <==> Check(Some(content), force, files, c) == None
    ensures at != [] ==>
              var written := Update(other, Check(Some(content), force, files, c).value, side, true, c);
              && |written| == |at| + 1
              && (forall i | 0 <= i < |at| :: written[i] == Arrival(content[at[i]], c))
              && written[|at|] == Special(OWNER, if side == Host then [1] else [2])
  {
    at := FilterKeepsTheRest(content);
    ReadableIsRead(content, force);
    var kept := Filter(content);
    forall i | 0 <= i < |kept| ensures Proper(kept[i], c) && !kept[i].FileUrl? {
      assert ItemAt(content, at, i);
    }
    assert Get(content, force, files) == kept;
    ListArrives(kept, c);
    forall i | 0 <= i < |at| ensures kept[i] == content[at[i]] { assert ItemAt(content, at, i); }
  }

  lemma ReadableIsRead(content: seq<Data>, force: bool)
    requires Readable(content, force)
    ensures force || !Marked(content)
  {
    if !force {
      forall i | 0 <= i < |content| ensures !IsMark(content[i]) {
        assert content[i] in content;
      }
    }
  }

  /** Files in the clipboard are left to the service for them, when there is one. */
  lemma FilesGoElsewhere(content: seq<Data>, force: bool, c: Codec)
    requires HasFiles(content)
    ensures Check(Some(content), force, true, c) == None
  {
    var at := FilterKeepsTheRest(content);
    var k :| 0 <= k < |content| && content[k].FileUrl?;
    assert !Left(content[k]);
    var i :| 0 <= i < |at| && at[i] == k;
    assert ItemAt(content, at, i) && Filter(content)[i].FileUrl?;
  }

  /** The owner format's name. */
  lemma OwnerName()
    ensures |OWNER| == |"dyn.com.rustdesk.owner"|
    ensures forall i | 0 <= i < |OWNER| :: OWNER[i] == "dyn.com.rustdesk.owner"[i] as int
  {
  }

  /** How an item looks on the wire: its format, the size of raw images only, and
      compression only where it saves something; images in PNG never. */
  lemma WireForm(d: Data, c: Codec)
    requires !d.FileUrl?
    ensures var p := ToProto(d, c).value;
            && p.format == (match d
                            case Text(_) => FText
                            case Rtf(_) => FRtf
                            case Html(_) => FHtml
                            case Image(kind, _, _, _) =>
                              if kind == Rgba then FRgba else if kind == Png then FPng else FSvg
                            case _ => FSpecial)
            && p.compress == (|c.compress(d.bytes)| < |d.bytes| && !(d.Image? && d.kind == Png))
            && (p.compress ==> p.content == c.compress(d.bytes))
            && (!p.compress && !d.Special? ==> p.content == d.bytes)
  {
  }

  /** No message carries an owner mark, forced or not. */
  lemma {:induction false} FilterDropsMarks(content: seq<Data>, i: nat)
    requires i < |Filter(content)|
    ensures Keep(Filter(content)[i]) && Filter(content)[i] in content
  {
    if content != [] {
      var n := if Keep(content[0]) then 1 else 0;
      if i >= n {
        assert Filter(content)[i] == Filter(content[1..])[i - n];
        FilterDropsMarks(content[1..], i - n);
      }
    }
  }

  lemma {:induction false} SentHasNoMark(content: seq<Data>, force: bool, files: bool, c: Codec, i: nat)
    requires i < |ToProtos(Get(content, force, files), c)|
    ensures ToProtos(Get(content, force, files), c)[i].specialName != OWNER
  {
    var kept := Get(content, force, files);
    forall k | 0 <= k < |kept| ensures Keep(kept[k]) { FilterDropsMarks(content, k); }
    ProtosOfKept(kept, c, i);
  }

  lemma {:induction false} ProtosOfKept(kept: seq<Data>, c: Codec, i: nat)
    requires i < |ToProtos(kept, c)| && forall k | 0 <= k < |kept| :: Keep(kept[k])
    ensures ToProtos(kept, c)[i].specialName != OWNER
  {
    var p := ToProto(kept[0], c);
    assert Keep(kept[0]) && OWNER != [];
    var n := if p.Some? then 1 else 0;
    if i >= n {
      assert ToProtos(kept, c)[i] == ToProtos(kept[1..], c)[i - n];
      ProtosOfKept(kept[1..], c, i - n);
    }
  }

  // ---------------------------------------------------------------- two ends

  /** An end: its clipboard, how many change notifications wait to be handled,
      and the messages on their way to it. Each message is applied by a thread
      of its own, so they may be applied in any order. */
  datatype End = End(content: seq<Data>, pending: nat, inbox: multiset<seq<Clip>>)

  datatype World = World(host: End, client: End, sent: nat)

  datatype Step =
    | Copy(side: Side, content: seq<Data>, notices: nat) // by a user
    | Notice(side: Side, readable: bool, enabled: bool) // one notification is handled
    | Apply(side: Side, clips: seq<Clip>, writable: bool, notices: nat) // one message is applied

  function EndOf(w: World, side: Side): End { if side == Host then w.host else w.client }

  function Other(side: Side): Side { if side == Host then Client else Host }

  function Put(w: World, side: Side, e: End): World {
    if side == Host then w.(host := e) else w.(client := e)
  }

  predicate Enabled(w: World, step: Step) {
    match step
    case Copy(_, _, _) => true
    case Notice(side, _, _) => EndOf(w, side).pending > 0
    case Apply(side, clips, _, _) => clips in EndOf(w, side).inbox
  }

  /** A write may raise any number of notifications, a failed one none. */
  function Next(w: World, step: Step, files: bool, c: Codec): World
    requires Enabled(w, step)
  {
    match step
    case Copy(side, content, notices) =>
      var e := EndOf(w, side);
      Put(w, side, e.(content := content, pending := e.pending + notices))
    case Notice(side, readable, enabled) =>
      var e := EndOf(w, side);
      var msg := Check(if readable then Some(e.content) else None, false, files, c);
      var w1 := Put(w, side, e.(pending := e.pending - 1));
      if msg.None? || !enabled then w1
      else
        var o := EndOf(w1, Other(side));
        Put(w1, Other(side), o.(inbox := o.inbox + multiset{msg.value})).(sent := w.sent + 1)
    case Apply(side, clips, writable, notices) =>
      var e := EndOf(w, side);
      var content := Update(e.content, clips, side, writable, c);
      var wrote := writable && FromProtos(clips, c) != [];
      Put(w, side, End(content, e.pending + if wrote then notices else 0, e.inbox - multiset{clips}))
  }

  /** Notifications that may still cause a message. */
  function Unmarked(e: End): nat { if Marked(e.content) then 0 else e.pending }

  function Loud(w: World): nat { Unmarked(w.host) + Unmarked(w.client) }

  ghost predicate NoLouder(before: World, after: World) {
    before.sent <= after.sent && after.sent + Loud(after) <= before.sent + Loud(before)
  }

  /** Main result: a copy at one end does arrive. Once its notification is handled
      and the message applied, the other end has the copied items. */
  lemma CopyArrives(w: World, side: Side, content: seq<Data>, files: bool, c: Codec)
    returns (steps: seq<Step>, ws: seq<World>, at: seq<nat>)
    requires Lossless(c) && Readable(content, false)
    requires forall i | 0 <= i < |content| :: Proper(content[i], c) && !content[i].FileUrl?
    requires exists i :: 0 <= i < |content| && !Left(content[i])
    ensures |steps| == 3 && IsRun(ws, steps, files, c) && ws[0] == w && steps[0] == Copy(side, content, 1)
    ensures AllButLeft(content, at) && ws[3].sent == w.sent + 1
    ensures var there := EndOf(ws[3], Other(side)).content;
            |there| == |at| + 1 && forall i | 0 <= i < |at| :: there[i] == Arrival(content[at[i]], c)
  {
    var other := EndOf(w, Other(side)).content;
    at := CheckThenUpdate(content, other, false, files, Other(side), c);
    var k :| 0 <= k < |content| && !Left(content[k]);
    assert k in at;
    var msg := Check(Some(content), false, files, c).value;
    var s0, s1, s2 := Copy(side, content, 1), Notice(side, true, true), Apply(Other(side), msg, true, 0);
    var w1 := CopyNotifies(w, side, content, files, c);
    var w2 := NoticeSends(w1, side, files, c);
    var w3 := ApplyWrites(w2, Other(side), msg, files, c);
    steps, ws := [s0, s1, s2], [w, w1, w2, w3];
    ThreeSteps(ws, steps, files, c);
  }

  lemma ThreeSteps(ws: seq<World>, steps: seq<Step>, files: bool, c: Codec)
    requires |ws| == 4 && |steps| == 3
    requires Enabled(ws[0], steps[0]) && ws[1] == Next(ws[0], steps[0], files, c)
    requires Enabled(ws[1], steps[1]) && ws[2] == Next(ws[1], steps[1], files, c)
    requires Enabled(ws[2], steps[2]) && ws[3] == Next(ws[2], steps[2], files, c)
    ensures IsRun(ws, steps, files, c)
  {
  }

  lemma CopyNotifies(w: World, side: Side, content: seq<Data>, files: bool, c: Codec) returns (w': World)
    ensures w' == Next(w, Copy(side, content, 1), files, c) && w'.sent == w.sent
    ensures EndOf(w', side).content == content && EndOf(w', side).pending > 0
    ensures EndOf(w', Other(side)) == EndOf(w, Other(side))
  {
    w' := Next(w, Copy(side, content, 1), files, c);
  }

  /** A handled notification of readable content puts its message on the way. */
  lemma NoticeSends(w: World, side: Side, files: bool, c: Codec) returns (w': World)
    requires EndOf(w, side).pending > 0 && Check(Some(EndOf(w, side).content), false, files, c).Some?
    ensures w' == Next(w, Notice(side, true, true), files, c) && w'.sent == w.sent + 1
    ensures Check(Some(EndOf(w, side).content), false, files, c).value in EndOf(w', Other(side)).inbox
    ensures EndOf(w', Other(side)).content == EndOf(w, Other(side)).content
  {
    w' := Next(w, Notice(side, true, true), files, c);
  }

  /** An applied message is written. */
  lemma ApplyWrites(w: World, side: Side, msg: seq<Clip>, files: bool, c: Codec) returns (w': World)
    requires msg in EndOf(w, side).inbox
    ensures w' == Next(w, Apply(side, msg, true, 0), files, c) && w'.sent == w.sent
    ensures EndOf(w', side).content == Update(EndOf(w, side).content, msg, side, true, c)
  {
    w' := Next(w, Apply(side, msg, true, 0), files, c);
  }

  /** Messages and loud notifications together never become more. */
  lemma NextIsQuieter(w: World, step: Step, files: bool, c: Codec)
    requires Enabled(w, step) && !step.Copy?
    ensures NoLouder(w, Next(w, step, files, c))
  {
    match step
    case Notice(side, readable, _) =>
      var e := EndOf(w, side);
      if readable { MarkedIsSilent(e.content, files, c); }
    case Apply(side, clips, writable, notices) =>
      UpdateMarks(EndOf(w, side).content, clips, side, writable, c);
  }

  lemma MarkedIsSilent(content: seq<Data>, files: bool, c: Codec)
    ensures Marked(content) ==> Check(Some(content), false, files, c) == None
  {
  }

  lemma UpdateMarks(content: seq<Data>, clips: seq<Clip>, side: Side, writable: bool, c: Codec)
    ensures var content' := Update(content, clips, side, writable, c);
            if writable && FromProtos(clips, c) != [] then Marked(content') else content' == content
  {
    var ds := FromProtos(clips, c);
    if writable && ds != [] {
      assert IsMark(Update(content, clips, side, writable, c)[|ds|]);
    }
  }

  ghost predicate IsRun(ws: seq<World>, steps: seq<Step>, files: bool, c: Codec) {
    && |ws| == |steps| + 1
    && forall i | 0 <= i < |steps| ::
         Enabled(ws[i], steps[i]) && ws[i + 1] == Next(ws[i], steps[i], files, c)
  }

  /** Main result: from the moment users stop copying, the ends send at most
      one message for each notification that waits at an end without a mark;
      if there is none, they are silent for good. */
  lemma ExchangeGoesQuiet(ws: seq<World>, steps: seq<Step>, files: bool, c: Codec, i: nat, j: nat)
    requires IsRun(ws, steps, files, c) && i <= j < |ws|
    requires forall k | i <= k < j :: !steps[k].Copy?
    ensures ws[i].sent <= ws[j].sent && ws[j].sent + Loud(ws[j]) <= ws[i].sent + Loud(ws[i])
    ensures Loud(ws[i]) == 0 ==> ws[j].sent == ws[i].sent
  {
    forall k | i <= k < j ensures NoLouder(ws[k], ws[k + 1]) {
      NextIsQuieter(ws[k], steps[k], files, c);
    }
    NeverLouder(ws, i, j);
  }

  lemma {:induction false} NeverLouder(ws: seq<World>, i: nat, j: nat)
    requires i <= j < |ws| && forall k | i <= k < j :: NoLouder(ws[k], ws[k + 1])
    ensures NoLouder(ws[i], ws[j])
    decreases j - i
  {
    if i < j {
      NeverLouder(ws, i, j - 1);
      assert NoLouder(ws[j - 1], ws[j - 1 + 1]);
    }
  }
}
