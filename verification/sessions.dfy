/** The registry of peers and their UI sessions: the `sessions` module of
    src/flutter.rs. */
module SessionRegistry {
  import opened Options

  datatype SessionId = SessionId(uuid: int)
  type Display = int

  datatype PeerKey = PeerKey(peer: string, connType: nat)

  /** A UI session: the displays it was opened with, and those its renderer
      has (`map_display_sessions`). */
  datatype Handler = Handler(displays: seq<Display>, rendered: set<Display>)

  type Handlers = map<SessionId, Handler>
  type Registry = map<PeerKey, Handlers>

  // ---------------------------------------------------------------- operations

  /** `insert_session`. */
  function Insert(r: Registry, key: PeerKey, id: SessionId, displays: seq<Display>): Registry {
    r[key := (if key in r then r[key] else map[])[id := Handler(displays, {})]]
  }

  /** `insert_peer_session_id`: only under a peer that is there. */
  function InsertPeer(r: Registry, key: PeerKey, id: SessionId, displays: seq<Display>): Registry {
    if key in r then Insert(r, key, id, displays) else r
  }

  predicate Owns(r: Registry, key: PeerKey, id: SessionId) { key in r && id in r[key] }

  /** The displays that some session other than `id` renders. */
  function Remaining(hs: Handlers, id: SessionId): set<Display> {
    set s, d | s in hs && s != id && d in hs[s].rendered :: d
  }

  function CurrentOnly(current: Option<Display>): set<Display> {
    if current.Some? then {current.value} else {}
  }

  function Kept(displays: set<Display>): Option<set<Display>> {
    if displays == {} then None else Some(displays)
  }

  lemma OneMoreHandler(hs: Handlers, rest: set<SessionId>, s: SessionId, id: SessionId)
    requires s in rest && s in hs
    ensures Remaining(hs - (rest - {s}), id) == Remaining(hs - rest, id) + (if s == id then {} else hs[s].rendered)
  {
    var less, more := hs - rest, hs - (rest - {s});
    var rendered := if s == id then {} else hs[s].rendered;
    assert more.Keys == less.Keys + {s};
    assert forall t | t in more :: t in less || t == s;
    assert forall t | t in less :: t in more && more[t] == less[t];
    assert Remaining(more, id) <= Remaining(less, id) + rendered;
    assert Remaining(less, id) <= Remaining(more, id);
    assert s in more && more[s] == hs[s];
    forall d | d in rendered ensures d in Remaining(more, id) {
      assert s in more && s != id && d in more[s].rendered;
    }
  }

  ghost predicate Unique(r: Registry) {
    forall k1, k2, id | Owns(r, k1, id) && Owns(r, k2, id) :: k1 == k2
  }

  ghost predicate NoneEmpty(r: Registry) {
    forall k | k in r :: r[k] != map[]
  }

  /** The id is under some peer. */
  ghost predicate Known(r: Registry, id: SessionId) {
    exists key :: Owns(r, key, id)
  }

  /** What the first locked section of a removal does under the owner. */
  ghost predicate TakenFrom(r: Registry, key: PeerKey, id: SessionId, r': Registry,
                            drop: Option<PeerKey>, keep: Option<set<Display>>)
    requires Owns(r, key, id)
  {
    var hs := r[key] - {id};
    && r' == r[key := hs]
    && drop == (if hs == map[] then Some(key) else None)
    && keep == Kept(Remaining(hs, id))
  }

  /** `would_remove_peer_by_session_id`. */
  ghost predicate LastOfItsPeer(r: Registry, id: SessionId) {
    exists key :: Owns(r, key, id) && |r[key]| == 1
  }

  class Sessions {
    var registry: Registry

    constructor ()
      ensures registry == map[]
    {
      registry := map[];
    }

    method InsertSession(key: PeerKey, id: SessionId)
      modifies this
      ensures registry == Insert(old(registry), key, id, [])
    {
      if key !in registry { registry := registry[key := map[]]; }
      registry := registry[key := registry[key][id := Handler([], {})]];
    }

    /** A session of one display also lets the next frame of that display in,
        by `next_rgba`. */
    method InsertPeerSessionId(key: PeerKey, id: SessionId, displays: seq<Display>)
      returns (found: bool, next: Option<Display>)
      modifies this
      ensures found == (key in old(registry)) && registry == InsertPeer(old(registry), key, id, displays)
      ensures next == if found && |displays| == 1 then Some(displays[0]) else None
    {
      found, next := key in registry, None;
      if found {
        registry := registry[key := registry[key][id := Handler(displays, {})]];
        if |displays| == 1 { next := Some(displays[0]); }
      }
    }

    /** `check_remove_unused_displays`: the displays asked for from now on, in
        any order of the handlers; nothing is asked for none. */
    method UnusedDisplaysOut(current: Option<Display>, id: SessionId, hs: Handlers) returns (keep: Option<set<Display>>)
      ensures keep == Kept(CurrentOnly(current) + Remaining(hs, id))
    {
      var remains := CurrentOnly(current);
      var rest := hs.Keys;
      while rest != {}
        invariant rest <= hs.Keys
        invariant remains == CurrentOnly(current) + Remaining(hs - rest, id)
        decreases rest
      {
        var s :| s in rest;
        OneMoreHandler(hs, rest, s, id);
        rest := rest - {s};
        if s != id { remains := remains + hs[s].rendered; }
      }
      assert hs - {} == hs;
      keep := if remains != {} then Some(remains) else None;
    }

    /** First locked section of `remove_session_by_session_id`, peers in any
        order: the peer to drop, if its last session went, and the displays
        that the peer's other sessions still need, if any. */
    method TakeOut(id: SessionId) returns (drop: Option<PeerKey>, keep: Option<set<Display>>)
      modifies this
      ensures Known(old(registry), id) ==>
                exists key :: Owns(old(registry), key, id) && TakenFrom(old(registry), key, id, registry, drop, keep)
      ensures !Known(old(registry), id) ==> registry == old(registry) && drop == None && keep == None
    {
      drop, keep := None, None;
      var rest := registry.Keys;
      while rest != {}
        invariant rest <= registry.Keys && registry == old(registry)
        invariant forall key | Owns(registry, key, id) :: key in rest
        invariant drop == None && keep == None
        decreases rest
      {
        var key :| key in rest;
        if id in registry[key] {
          assert Owns(old(registry), key, id);
          var hs := registry[key] - {id};
          registry := registry[key := hs];
          if hs == map[] {
            drop := Some(key);
          } else {
            keep := UnusedDisplaysOut(None, id, hs);
          }
          assert CurrentOnly(None) + Remaining(hs, id) == Remaining(hs, id);
          assert TakenFrom(old(registry), key, id, registry, drop, keep);
          return;
        }
        rest := rest - {key};
      }
    }

    /** Both sections with nothing in between. */
    method RemoveSessionBySessionId(id: SessionId) returns (removed: Option<Handlers>, keep: Option<set<Display>>)
      requires Unique(registry) && NoneEmpty(registry)
      modifies this
      ensures removed.Some? <==> LastOfItsPeer(old(registry), id)
      ensures registry == Removed(old(registry), id)
      ensures forall key | Owns(old(registry), key, id) :: keep == Kept(Remaining(old(registry)[key] - {id}, id))
      ensures !Known(old(registry), id) ==> keep == None
    {
      RemovedMeans(registry, id);
      var drop;
      drop, keep := TakeOut(id);
      if drop.None? { return None, keep; }
      removed := if drop.value in registry then Some(registry[drop.value]) else None;
      registry := registry - {drop.value};
    }

    method WouldRemovePeerBySessionId(id: SessionId) returns (would: bool)
      requires Unique(registry)
      ensures would <==> LastOfItsPeer(registry, id)
    {
      var rest := registry.Keys;
      while rest != {}
        invariant rest <= registry.Keys
        invariant forall key | Owns(registry, key, id) :: key in rest
        decreases rest
      {
        var key :| key in rest;
        if id in registry[key] {
          assert Owns(registry, key, id);
          return |registry[key]| == 1;
        }
        rest := rest - {key};
      }
      return false;
    }
  }

  /** The registry after an undisturbed removal. */
  ghost function Removed(r: Registry, id: SessionId): Registry {
    if !Known(r, id) then r
    else
      var key :| Owns(r, key, id);
      if r[key] - {id} == map[] then r - {key} else r[key := r[key] - {id}]
  }

  lemma RemovedMeans(r: Registry, id: SessionId)
    requires Unique(r)
    ensures forall key | Owns(r, key, id) ::
              && Removed(r, id) == (if r[key] - {id} == map[] then r - {key} else r[key := r[key] - {id}])
              && (r[key] - {id} == map[] <==> |r[key]| == 1)
  {
    forall key | Owns(r, key, id) ensures r[key] - {id} == map[] <==> |r[key]| == 1 {
      assert (r[key] - {id}).Keys == r[key].Keys - {id};
      assert |r[key].Keys - {id}| == |r[key].Keys| - 1;
    }
  }

  // ---------------------------------------------------------------- undisturbed runs

  datatype Op =
    | New(key: PeerKey, id: SessionId)
    | Join(key: PeerKey, id: SessionId, displays: seq<Display>)
    | Remove(id: SessionId)

  ghost function Apply(r: Registry, op: Op): Registry {
    match op
    case New(key, id) => Insert(r, key, id, [])
    case Join(key, id, displays) => InsertPeer(r, key, id, displays)
    case Remove(id) => Removed(r, id)
  }

  ghost function RunOps(ops: seq<Op>): Registry {
    if ops == [] then map[] else Apply(RunOps(ops[..|ops| - 1]), ops[|ops| - 1])
  }

  /** Ids are unique in the whole run, as the UI draws them at random. */
  ghost predicate FreshIds(ops: seq<Op>) {
    forall i, j | 0 <= i < j < |ops| :: (ops[j].New? || ops[j].Join?) && (ops[i].New? || ops[i].Join?)
                                        ==> ops[i].id != ops[j].id
  }

  ghost predicate Inserted(ops: seq<Op>, id: SessionId) {
    exists i :: 0 <= i < |ops| && (ops[i].New? || ops[i].Join?) && ops[i].id == id
  }

  lemma ApplyKeeps(r: Registry, op: Op)
    requires Unique(r) && NoneEmpty(r) && (op.New? || op.Join? ==> !Known(r, op.id))
    ensures Unique(Apply(r, op)) && NoneEmpty(Apply(r, op))
    ensures forall id | Known(Apply(r, op), id) :: Known(r, id) || ((op.New? || op.Join?) && id == op.id)
  {
    var r' := Apply(r, op);
    if op.Remove? { RemovedMeans(r, op.id); }
    forall key, id | Owns(r', key, id)
      ensures Owns(r, key, id) || ((op.New? || op.Join?) && id == op.id && key == op.key)
    {
    }
    if op.New? || op.Join? {
      assert forall key :: !Owns(r, key, op.id);
      assert op.key in r' ==> op.id in r'[op.key];
    }
  }

  /** Main result: after any operations with fresh ids, each id is under at
      most one peer and no peer is without sessions. */
  lemma {:induction false} RegistryInvariant(ops: seq<Op>)
    requires FreshIds(ops)
    ensures Unique(RunOps(ops)) && NoneEmpty(RunOps(ops))
    ensures forall id | Known(RunOps(ops), id) :: Inserted(ops, id)
  {
    if ops != [] {
      var n := |ops| - 1;
      RegistryInvariant(ops[..n]);
      var r, op := RunOps(ops[..n]), ops[n];
      if op.New? || op.Join? {
        assert !Inserted(ops[..n], op.id);
        assert !Known(r, op.id);
      }
      ApplyKeeps(r, op);
      forall id | Known(RunOps(ops), id) ensures Inserted(ops, id) {
        if Known(r, id) {
          var i :| 0 <= i < n && (ops[..n][i].New? || ops[..n][i].Join?) && ops[..n][i].id == id;
          assert ops[i] == ops[..n][i];
        } else {
          assert ops[n].id == id;
        }
      }
    }
  }

  // ---------------------------------------------------------------- the gap between the two sections

  /** The registry and the drops that removals still owe. */
  datatype State = State(r: Registry, due: multiset<PeerKey>)

  datatype Step =
    | Insertion(key: PeerKey, id: SessionId)
    | Joining(key: PeerKey, id: SessionId, displays: seq<Display>)
    | Taking(key: PeerKey, id: SessionId) // first section, at the owner it finds
    | Dropping(key: PeerKey) // second section

  predicate Enabled(s: State, step: Step) {
    match step
    case Taking(key, id) => Owns(s.r, key, id)
    case Dropping(key) => key in s.due
    case _ => true
  }

  function Next(s: State, step: Step): State
    requires Enabled(s, step)
  {
    match step
    case Insertion(key, id) => s.(r := Insert(s.r, key, id, []))
    case Joining(key, id, displays) => s.(r := InsertPeer(s.r, key, id, displays))
    case Taking(key, id) =>
      var hs := s.r[key] - {id};
      State(s.r[key := hs], if hs == map[] then s.due + multiset{key} else s.due)
    case Dropping(key) => State(s.r - {key}, s.due - multiset{key})
  }

  ghost predicate IsRun(states: seq<State>, steps: seq<Step>) {
    && |states| == |steps| + 1 && states[0] == State(map[], multiset{})
    && forall i | 0 <= i < |steps| :: Enabled(states[i], steps[i]) && states[i + 1] == Next(states[i], steps[i])
  }

  predicate Adds(step: Step, key: PeerKey) {
    (step.Insertion? || step.Joining?) && step.key == key
  }

  lemma AddedIsThere(r: Registry, key: PeerKey, id: SessionId, displays: seq<Display>)
    ensures Insert(r, key, id, displays)[key] != map[]
  {
    assert id in Insert(r, key, id, displays)[key];
  }

  /** In any interleaving, a peer without sessions only waits to be dropped. */
  lemma {:induction false} EmptyPeersAreDue(states: seq<State>, steps: seq<Step>, i: nat, key: PeerKey)
    requires IsRun(states, steps) && i < |states| && key in states[i].r && states[i].r[key] == map[]
    ensures key in states[i].due
  {
    if i > 0 {
      var s, step := states[i - 1], steps[i - 1];
      var id := if Adds(step, key) then step.id else SessionId(0);
      AddedIsThere(s.r, key, id, if step.Joining? then step.displays else []);
      if key in s.r && s.r[key] == map[] { EmptyPeersAreDue(states, steps, i - 1, key); }
    }
  }

  /** The session was added to the peer between the two moments and has not
      been taken out again since. */
  ghost predicate AddedAndKept(steps: seq<Step>, i: nat, j: nat, key: PeerKey, id: SessionId)
    requires j <= |steps|
  {
    exists k :: i < k < j && KeptSince(steps, k, j, key, id)
  }

  ghost predicate KeptSince(steps: seq<Step>, k: nat, j: nat, key: PeerKey, id: SessionId)
    requires k < j <= |steps|
  {
    Adds(steps[k], key) && steps[k].id == id && forall m | k < m < j :: steps[m] != Taking(key, id)
  }

  /** One more step before the second moment. */
  lemma OneStepKept(steps: seq<Step>, i: nat, j: nat, key: PeerKey, id: SessionId)
    requires i < j < |steps|
    ensures AddedAndKept(steps, i, j + 1, key, id)
       <==> (Adds(steps[j], key) && steps[j].id == id)
            || (AddedAndKept(steps, i, j, key, id) && steps[j] != Taking(key, id))
  {
    forall k | i < k < j ensures KeptLonger(steps, k, j, key, id) {
    }
    assert KeptSince(steps, j, j + 1, key, id) <==> Adds(steps[j], key) && steps[j].id == id;
    if AddedAndKept(steps, i, j + 1, key, id) {
      var k :| i < k < j + 1 && KeptSince(steps, k, j + 1, key, id);
      assert k < j ==> KeptLonger(steps, k, j, key, id);
    }
    if AddedAndKept(steps, i, j, key, id) {
      var k :| i < k < j && KeptSince(steps, k, j, key, id);
      assert KeptLonger(steps, k, j, key, id);
    }
  }

  ghost predicate KeptLonger(steps: seq<Step>, k: nat, j: nat, key: PeerKey, id: SessionId)
    requires k < j < |steps|
  {
    KeptSince(steps, k, j + 1, key, id) <==> KeptSince(steps, k, j, key, id) && steps[j] != Taking(key, id)
  }

  lemma OwnsAfter(s: State, step: Step, key: PeerKey, id: SessionId)
    requires Enabled(s, step) && key in s.r && step != Dropping(key)
    ensures key in Next(s, step).r
    ensures Owns(Next(s, step).r, key, id)
       <==> (Adds(step, key) && step.id == id) || (Owns(s.r, key, id) && step != Taking(key, id))
  {
  }

  lemma EmptiedNow(s: State, step: Step)
    requires Enabled(s, step) && step.Taking? && s.r[step.key] - {step.id} == map[]
    ensures step.key in Next(s, step).r && Next(s, step).r[step.key] == map[]
  {
  }

  /** From the emptying of a peer to its drop, in any interleaving, the peer is
      there, and its sessions are those added in between and kept. */
  lemma {:induction false} SessionsInTheGap(
    states: seq<State>, steps: seq<Step>, i: nat, j: nat, key: PeerKey, id: SessionId)
    requires IsRun(states, steps) && i < j <= |steps|
    requires steps[i].Taking? && steps[i].key == key && states[i].r[key] - {steps[i].id} == map[]
    requires forall k | i < k < j :: steps[k] != Dropping(key)
    ensures key in states[j].r
    ensures Owns(states[j].r, key, id) <==> AddedAndKept(steps, i, j, key, id)
  {
    if j == i + 1 {
      EmptiedNow(states[i], steps[i]);
    } else {
      SessionsInTheGap(states, steps, i, j - 1, key, id);
      OneStepKept(steps, i, j - 1, key, id);
      OwnsAfter(states[j - 1], steps[j - 1], key, id);
    }
  }

  /** Main result: the drop loses exactly the sessions that were added to the
      peer since it was emptied and are still there, and no session of another
      peer; so it loses none if and only if there is none of these. */
  lemma DropLosesExactly(
    states: seq<State>, steps: seq<Step>, i: nat, j: nat, key: PeerKey, other: PeerKey, id: SessionId)
    requires IsRun(states, steps) && i < j < |steps| && steps[j] == Dropping(key)
    requires steps[i].Taking? && steps[i].key == key && states[i].r[key] - {steps[i].id} == map[]
    requires forall k | i < k < j :: steps[k] != Dropping(key)
    ensures Owns(states[j].r, other, id) && !Owns(states[j + 1].r, other, id)
       <==> other == key && AddedAndKept(steps, i, j, key, id)
  {
    SessionsInTheGap(states, steps, i, j, key, id);
  }

  /** Otherwise it can: the registry lock is released between the sections,
      and a session that joins the peer in the gap disappears with it. */
  lemma JoinInTheGapIsLost(key: PeerKey, first: SessionId, second: SessionId)
    returns (states: seq<State>, steps: seq<Step>)
    requires first != second
    ensures IsRun(states, steps) && |steps| == 4
    ensures steps[2] == Joining(key, second, []) && Owns(states[3].r, key, second)
    ensures steps[3] == Dropping(key) && !Known(states[4].r, second)
  {
    steps := [Insertion(key, first), Taking(key, first), Joining(key, second, []), Dropping(key)];
    var s0 := State(map[], multiset{});
    var s1 := State(map[key := map[first := Handler([], {})]], multiset{});
    var s2 := State(map[key := map[]], multiset{key});
    var s3 := State(map[key := map[second := Handler([], {})]], multiset{key});
    var s4 := State(map[], multiset{});
    states := [s0, s1, s2, s3, s4];
    assert s1.r[key] - {first} == map[];
    assert Next(s1, steps[1]) == s2;
    assert Next(s3, steps[3]) == s4;
  }

  // ---------------------------------------------------------------- who owns what

  /** The operation puts the session under the peer, with these displays. */
  ghost predicate PutsNow(r: Registry, op: Op, key: PeerKey, id: SessionId, displays: seq<Display>) {
    || (op == New(key, id) && displays == [])
    || (op == Join(key, id, displays) && key in r)
  }

  /** Operation `i` put the session there, and it was not removed since. */
  ghost predicate PutAt(ops: seq<Op>, i: nat, key: PeerKey, id: SessionId, displays: seq<Display>)
    requires i < |ops|
  {
    PutsNow(RunOps(ops[..i]), ops[i], key, id, displays) && forall k | i < k < |ops| :: ops[k] != Remove(id)
  }

  ghost predicate Owned(r: Registry, key: PeerKey, id: SessionId, displays: seq<Display>) {
    Owns(r, key, id) && r[key][id].displays == displays
  }

  lemma OwnedAfter(r: Registry, op: Op, key: PeerKey, id: SessionId, displays: seq<Display>)
    requires Unique(r) && NoneEmpty(r) && (op.New? || op.Join? ==> !Known(r, op.id))
    ensures Owned(Apply(r, op), key, id, displays)
       <==> PutsNow(r, op, key, id, displays) || (Owned(r, key, id, displays) && op != Remove(id))
  {
    match op
    case New(at, added) => OwnedAfterInsert(r, at, added, [], key, id, displays);
    case Join(at, added, shown) => if at in r { OwnedAfterInsert(r, at, added, shown, key, id, displays); }
    case Remove(gone) => OwnedAfterRemoval(r, gone, key, id, displays);
  }

  lemma OwnedAfterInsert(
    r: Registry, at: PeerKey, added: SessionId, shown: seq<Display>,
    key: PeerKey, id: SessionId, displays: seq<Display>)
    requires !Known(r, added)
    ensures Owned(Insert(r, at, added, shown), key, id, displays)
       <==> (at == key && added == id && shown == displays) || Owned(r, key, id, displays)
  {
    assert !Owns(r, key, added);
    assert key != at && key in r ==> Insert(r, at, added, shown)[key] == r[key];
  }

  lemma OwnedAfterRemoval(r: Registry, gone: SessionId, key: PeerKey, id: SessionId, displays: seq<Display>)
    requires Unique(r) && NoneEmpty(r)
    ensures Owned(Removed(r, gone), key, id, displays) <==> Owned(r, key, id, displays) && id != gone
  {
    if Known(r, gone) {
      var owner :| Owns(r, owner, gone);
      RemovedMeans(r, gone);
      var hs := r[owner] - {gone};
      assert Removed(r, gone) == if hs == map[] then r - {owner} else r[owner := hs];
      if Owns(r, key, gone) { assert key == owner; }
      assert id in r[owner] && id != gone ==> id in hs && hs[id] == r[owner][id];
    }
  }

  /** Main result: after any operations with fresh ids, a session is under a peer,
      with the displays it was opened with, exactly if an operation put it there
      and none has removed it since; joining needs a peer that is there. */
  lemma {:induction false} OwnedIff(ops: seq<Op>, key: PeerKey, id: SessionId, displays: seq<Display>)
    requires FreshIds(ops)
    ensures Owned(RunOps(ops), key, id, displays) <==> exists i :: 0 <= i < |ops| && PutAt(ops, i, key, id, displays)
  {
    if ops != [] {
      var n := |ops| - 1;
      OwnedIff(ops[..n], key, id, displays);
      RegistryInvariant(ops[..n]);
      NewIdsUnknown(ops);
      OwnedAfter(RunOps(ops[..n]), ops[n], key, id, displays);
      forall i | 0 <= i < n
        ensures PutAt(ops, i, key, id, displays) <==> PutAt(ops[..n], i, key, id, displays) && ops[n] != Remove(id)
      {
        PutLonger(ops, i, key, id, displays);
      }
      if PutsNow(RunOps(ops[..n]), ops[n], key, id, displays) { assert PutAt(ops, n, key, id, displays); }
    }
  }

  lemma NewIdsUnknown(ops: seq<Op>)
    requires FreshIds(ops) && ops != []
    ensures var n := |ops| - 1;
            FreshIds(ops[..n]) && (ops[n].New? || ops[n].Join? ==> !Known(RunOps(ops[..n]), ops[n].id))
  {
    var n := |ops| - 1;
    RegistryInvariant(ops[..n]);
    if ops[n].New? || ops[n].Join? { assert !Inserted(ops[..n], ops[n].id); }
  }

  lemma PutLonger(ops: seq<Op>, i: nat, key: PeerKey, id: SessionId, displays: seq<Display>)
    requires i < |ops| - 1
    ensures var n := |ops| - 1;
            PutAt(ops, i, key, id, displays) <==> PutAt(ops[..n], i, key, id, displays) && ops[n] != Remove(id)
  {
    var n := |ops| - 1;
    assert ops[..n][..i] == ops[..i];
    assert forall k | i < k < n :: ops[..n][k] == ops[k];
  }

  /** After a removal the displays asked for are those that some remaining session
      of the peer renders; nothing is asked for when there are none. */
  lemma KeepsRendered(hs: Handlers, id: SessionId, d: Display)
    ensures var keep := Kept(Remaining(hs - {id}, id));
            && (keep.Some? && d in keep.value <==> exists s :: s in hs && s != id && d in hs[s].rendered)
            && (keep == None <==> forall s | s in hs && s != id :: hs[s].rendered == {})
  {
    var rest := hs - {id};
    forall s | s in hs && s != id ensures hs[s].rendered <= Remaining(rest, id) {
      forall e | e in hs[s].rendered ensures e in Remaining(rest, id) {
        assert s in rest && s != id && e in rest[s].rendered;
      }
    }
  }
}
