/** How the mediators of several rendezvous servers share the repair of an id
    conflict through `SOLVING_PK_MISMATCH` (src/rendezvous_mediator.rs). Every
    await point and every access to shared state is a step of its own, so a
    run is any interleaving of the hosts' tasks. */
module IdConflict {
  import opened Options

  type Host = string

  /** Where the mediator of a host is. */
  datatype Pc =
    | Idle
    | OkKeySet | OkHostSet // a RegisterPkResponse OK, after each of its two confirmations
    | Locked | KeyReset | IdUpdated // inside the lock of handle_uuid_mismatch
    | Checked | KeySeen | Cleared // register_peer: no other host solving, key, host key
    | PkDue // about to send RegisterPk

  datatype State = State(
    solving: Option<Host>, // None is the empty string
    lock: Option<Host>, // who holds the mutex of `solving` over several steps
    keyConfirmed: bool,
    hostKeys: set<string>, // prefixes with a confirmed host key
    pc: map<Host, Pc>,
    // history: the last host that regenerated the id since the last accepted
    // registration or restart, and the hosts undisturbed since their check
    solver: Option<Host>,
    calm: set<Host>)

  datatype Step =
    | OkKey(h: Host) | OkHost(h: Host) | OkClear(h: Host)
    | MismatchLock(h: Host) | MismatchKey(h: Host) | MismatchId(h: Host) | MismatchUnlock(h: Host)
    | PeerCheck(h: Host) | PeerKey(h: Host) | PeerHostKey(h: Host) | PeerSend(h: Host)
    | PkSend(h: Host) | SendError(h: Host)
    | KeyLost | HostKeyLost(prefix: string) // other parts of the program reset a confirmation
    | Restart // all tasks have ended, `start_all` begins anew

  datatype Event = Nothing | Regenerated(h: Host) | Accepted(h: Host) | Restarted
    | SentRegisterPeer(h: Host) | SentRegisterPk(h: Host)

  /** `get_host_prefix` is one text for each host; hosts may share it. */
  type Prefixes = map<Host, string>

  function At(s: State, h: Host): Pc {
    if h in s.pc then s.pc[h] else Idle
  }

  predicate FreeFor(s: State, h: Host) {
    s.solving == None || s.solving == Some(h)
  }

  predicate Enabled(s: State, step: Step, prefix: Prefixes) {
    match step
    case OkKey(h) => h in prefix && At(s, h) == Idle
    case OkHost(h) => h in prefix && At(s, h) == OkKeySet
    case OkClear(h) => At(s, h) == OkHostSet && s.lock == None
    case MismatchLock(h) => h in prefix && At(s, h) == Idle && s.lock == None
    case MismatchKey(h) => At(s, h) == Locked
    case MismatchId(h) => At(s, h) == KeyReset
    case MismatchUnlock(h) => At(s, h) == IdUpdated
    case PeerCheck(h) => h in prefix && At(s, h) == Idle && s.lock == None
    case PeerKey(h) => At(s, h) == Checked
    case PeerHostKey(h) => h in prefix && At(s, h) == KeySeen
    case PeerSend(h) => At(s, h) == Cleared
    case PkSend(h) => At(s, h) == PkDue
    case SendError(h) => At(s, h) == PkDue || At(s, h) == Cleared
    case KeyLost => true
    case HostKeyLost(_) => true
    case Restart => s.lock == None && forall h | h in s.pc :: s.pc[h] == Idle
  }

  function Go(s: State, h: Host, pc: Pc): State { s.(pc := s.pc[h := pc]) }

  /** `Config::set_key_confirmed(false)`: the host keys go with the key, but
      only when the key was confirmed. */
  function Withdrawn(s: State): State {
    s.(keyConfirmed := false, hostKeys := if s.keyConfirmed then {} else s.hostKeys, calm := {})
  }

  function Next(s: State, step: Step, prefix: Prefixes): State
    requires Enabled(s, step, prefix)
  {
    match step
    case OkKey(h) => Go(s, h, OkKeySet).(keyConfirmed := true)
    case OkHost(h) => Go(s, h, OkHostSet).(hostKeys := s.hostKeys + {prefix[h]})
    case OkClear(h) => Go(s, h, Idle).(solving := None, solver := None)
    case MismatchLock(h) =>
      // another host is solving: nothing to do
      if FreeFor(s, h) then Go(s, h, Locked).(lock := Some(h)) else s
    case MismatchKey(h) => Withdrawn(Go(s, h, KeyReset))
    case MismatchId(h) => Go(s, h, IdUpdated).(solver := Some(h))
    case MismatchUnlock(h) => Go(s, h, PkDue).(solving := Some(h), lock := None, calm := {})
    case PeerCheck(h) =>
      if FreeFor(s, h) then Go(s, h, Checked).(calm := s.calm + {h}) else s
    case PeerKey(h) => Go(s, h, if s.keyConfirmed then KeySeen else PkDue)
    case PeerHostKey(h) => Go(s, h, if prefix[h] in s.hostKeys then Cleared else PkDue)
    case PeerSend(h) => Go(s, h, Idle)
    case PkSend(h) => Go(s, h, Idle)
    case SendError(h) => Go(s, h, Idle)
    case KeyLost => Withdrawn(s)
    case HostKeyLost(p) => s.(hostKeys := s.hostKeys - {p}, calm := {})
    case Restart => s.(solving := None, solver := None)
  }

  function Emits(s: State, step: Step): Event {
    match step
    case OkClear(h) => Accepted(h)
    case MismatchId(h) => Regenerated(h)
    case PeerSend(h) => SentRegisterPeer(h)
    case PkSend(h) => SentRegisterPk(h)
    case Restart => Restarted
    case _ => Nothing
  }

  predicate InLock(pc: Pc) { pc == Locked || pc == KeyReset || pc == IdUpdated }

  ghost predicate LockInv(s: State) {
    && (forall h :: InLock(At(s, h)) <==> s.lock == Some(h))
    && (s.lock.Some? ==> FreeFor(s, s.lock.value))
  }

  ghost predicate SolverInv(s: State) {
    s.solver.Some? ==>
      s.solving == s.solver || (s.lock == s.solver && At(s, s.solver.value) == IdUpdated)
  }

  /** A host that was not disturbed still has what it checked. */
  ghost predicate CalmInv(s: State, prefix: Prefixes) {
    && (forall h | h in s.calm :: At(s, h) in {Checked, KeySeen, Cleared} ==> FreeFor(s, h))
    && (forall h | h in s.calm :: At(s, h) in {KeySeen, Cleared} ==> s.keyConfirmed)
    && (forall h | h in s.calm :: At(s, h) == Cleared ==> h in prefix && prefix[h] in s.hostKeys)
  }

  ghost predicate Inv(s: State, prefix: Prefixes) {
    LockInv(s) && SolverInv(s) && CalmInv(s, prefix)
  }

  function Initial(): State {
    State(None, None, false, {}, map[], None, {})
  }

  lemma NextKeepsLock(s: State, step: Step, prefix: Prefixes)
    requires LockInv(s) && Enabled(s, step, prefix)
    ensures LockInv(Next(s, step, prefix))
  {
    var s' := Next(s, step, prefix);
    forall h ensures InLock(At(s', h)) <==> s'.lock == Some(h) {
      assert InLock(At(s, h)) <==> s.lock == Some(h);
    }
  }

  lemma NextKeepsSolver(s: State, step: Step, prefix: Prefixes)
    requires LockInv(s) && SolverInv(s) && Enabled(s, step, prefix)
    ensures SolverInv(Next(s, step, prefix))
  {
    match step
    case MismatchUnlock(h) => assert InLock(At(s, h));
    case MismatchLock(h) =>
    case _ =>
  }

  lemma NextKeepsCalm(s: State, step: Step, prefix: Prefixes)
    requires CalmInv(s, prefix) && Enabled(s, step, prefix)
    ensures CalmInv(Next(s, step, prefix), prefix)
  {
  }

  lemma NextKeeps(s: State, step: Step, prefix: Prefixes)
    requires Inv(s, prefix) && Enabled(s, step, prefix)
    ensures Inv(Next(s, step, prefix), prefix)
  {
    NextKeepsLock(s, step, prefix);
    NextKeepsSolver(s, step, prefix);
    NextKeepsCalm(s, step, prefix);
  }

  // ---------------------------------------------------------------- runs

  datatype Run = Run(states: seq<State>, steps: seq<Step>)

  ghost predicate IsRun(r: Run, prefix: Prefixes) {
    && |r.states| == |r.steps| + 1 && r.states[0] == Initial()
    && forall i | 0 <= i < |r.steps| ::
         Enabled(r.states[i], r.steps[i], prefix)
         && r.states[i + 1] == Next(r.states[i], r.steps[i], prefix)
  }

  function EventAt(r: Run, i: nat): Event
    requires i < |r.states| && i < |r.steps|
  {
    Emits(r.states[i], r.steps[i])
  }

  lemma {:induction false} InvInRun(r: Run, prefix: Prefixes, i: nat)
    requires IsRun(r, prefix) && i < |r.states|
    ensures Inv(r.states[i], prefix)
  {
    if i > 0 {
      InvInRun(r, prefix, i - 1);
      NextKeeps(r.states[i - 1], r.steps[i - 1], prefix);
    }
  }

  /** Main result: the host that is solving never changes directly. */
  lemma NoDirectHandOver(r: Run, prefix: Prefixes, i: nat)
    requires IsRun(r, prefix) && i < |r.steps|
    requires r.states[i].solving.Some? && r.states[i + 1].solving.Some?
    ensures r.states[i].solving == r.states[i + 1].solving
  {
    InvInRun(r, prefix, i);
    var s, step := r.states[i], r.steps[i];
    if step.MismatchUnlock? { assert InLock(At(s, step.h)); }
  }

  /** Another host cannot regenerate the id. */
  lemma SolverKept(s: State, step: Step, prefix: Prefixes)
    requires LockInv(s) && SolverInv(s) && Enabled(s, step, prefix) && s.solver.Some?
    requires !Emits(s, step).Accepted? && !Emits(s, step).Restarted?
    ensures Next(s, step, prefix).solver == s.solver
  {
    if step.MismatchId? { assert InLock(At(s, step.h)); }
  }

  lemma SolverStays(r: Run, prefix: Prefixes, i: nat, k: nat)
    requires IsRun(r, prefix) && i < k < |r.states| && EventAt(r, i).Regenerated?
    requires forall j | i < j < k :: !EventAt(r, j).Accepted? && !EventAt(r, j).Restarted?
    ensures r.states[k].solver == Some(EventAt(r, i).h)
  {
    var solver := r.states[i + 1].solver;
    assert solver == Some(EventAt(r, i).h);
    forall j | i < j < k ensures SameSolver(r.states, j) {
      assert !EventAt(r, j).Accepted? && !EventAt(r, j).Restarted?;
      SolverKeptAt(r, prefix, j);
    }
    SameSolverThroughout(r.states, i + 1, k);
  }

  ghost predicate SameSolver(states: seq<State>, j: nat)
    requires j + 1 < |states|
  {
    states[j].solver.Some? ==> states[j + 1].solver == states[j].solver
  }

  lemma SolverKeptAt(r: Run, prefix: Prefixes, j: nat)
    requires IsRun(r, prefix) && j < |r.steps|
    requires !EventAt(r, j).Accepted? && !EventAt(r, j).Restarted?
    ensures SameSolver(r.states, j)
  {
    InvInRun(r, prefix, j);
    if r.states[j].solver.Some? { SolverKept(r.states[j], r.steps[j], prefix); }
  }

  lemma {:induction false} SameSolverThroughout(states: seq<State>, i: nat, k: nat)
    requires i <= k < |states| && states[i].solver.Some?
    requires forall j | i <= j < k :: SameSolver(states, j)
    ensures states[k].solver == states[i].solver
    decreases k
  {
    if i < k {
      SameSolverThroughout(states, i, k - 1);
      assert SameSolver(states, k - 1);
    }
  }

  /** Main result: two regenerations of the id with no accepted registration
      and no restart between them are by the same host. */
  lemma RegenerationsSeparated(r: Run, prefix: Prefixes, i: nat, j: nat)
    requires IsRun(r, prefix) && i < j < |r.steps|
    requires EventAt(r, i).Regenerated? && EventAt(r, j).Regenerated?
    requires forall k | i < k < j :: !EventAt(r, k).Accepted? && !EventAt(r, k).Restarted?
    ensures EventAt(r, i).h == EventAt(r, j).h
  {
    SolverStays(r, prefix, i, j);
    InvInRun(r, prefix, j);
    assert InLock(At(r.states[j], r.steps[j].h));
  }

  /** At the moment a RegisterPeer leaves, everything it relies on holds. */
  predicate Confirmed(s: State, h: Host, prefix: Prefixes) {
    FreeFor(s, h) && s.keyConfirmed && h in prefix && prefix[h] in s.hostKeys
  }

  /** Main result: a RegisterPeer is sent with both keys confirmed and no other
      host solving, unless after the host's check another host began a repair
      or a confirmation was withdrawn. */
  lemma RegisterPeerConfirmed(r: Run, prefix: Prefixes, i: nat)
    requires IsRun(r, prefix) && i < |r.steps| && EventAt(r, i).SentRegisterPeer?
    requires EventAt(r, i).h in r.states[i].calm
    ensures Confirmed(r.states[i], EventAt(r, i).h, prefix)
  {
    InvInRun(r, prefix, i);
  }

  /** What "undisturbed" means: the checks and the sending of one host are not
      interleaved with a repair or a withdrawal. */
  lemma {:induction false} CalmMeans(r: Run, prefix: Prefixes, i: nat, k: nat)
    requires IsRun(r, prefix) && i < k < |r.states|
    requires r.steps[i].PeerCheck? && At(r.states[i + 1], r.steps[i].h) == Checked
    requires forall j | i < j < k ::
               !r.steps[j].MismatchKey? && !r.steps[j].MismatchUnlock?
               && !r.steps[j].KeyLost? && !r.steps[j].HostKeyLost?
    ensures r.steps[i].h in r.states[k].calm
  {
    if k > i + 1 { CalmMeans(r, prefix, i, k - 1); }
  }

  /** No other part of the program withdraws a confirmation. */
  ghost predicate Undisturbed(r: Run) {
    forall i | 0 <= i < |r.steps| :: !r.steps[i].KeyLost? && !r.steps[i].HostKeyLost?
  }

  function Last(r: Run): State
    requires r.states != []
  {
    r.states[|r.states| - 1]
  }

  lemma Extend(r: Run, step: Step, prefix: Prefixes) returns (r': Run)
    requires IsRun(r, prefix) && Enabled(Last(r), step, prefix)
    ensures IsRun(r', prefix) && r'.steps == r.steps + [step]
    ensures r'.states == r.states + [Next(Last(r), step, prefix)]
    ensures Last(r') == Next(Last(r), step, prefix)
    ensures Undisturbed(r) && !step.KeyLost? && !step.HostKeyLost? ==> Undisturbed(r')
  {
    r' := Run(r.states + [Next(Last(r), step, prefix)], r.steps + [step]);
    forall i | 0 <= i < |r'.steps|
      ensures Enabled(r'.states[i], r'.steps[i], prefix)
              && r'.states[i + 1] == Next(r'.states[i], r'.steps[i], prefix)
    {
      assert i < |r.steps| ==> r'.states[i] == r.states[i] && r'.states[i + 1] == r.states[i + 1];
    }
  }

  lemma Accept(h: Host, prefix: Prefixes) returns (r: Run)
    requires h in prefix
    ensures IsRun(r, prefix) && Undisturbed(r) && |r.steps| == 3
    ensures Last(r) == State(None, None, true, {prefix[h]}, map[h := Idle], None, {})
  {
    r := Run([Initial()], []);
    r := Extend(r, OkKey(h), prefix);
    assert Last(r) == State(None, None, true, {}, map[h := OkKeySet], None, {});
    r := Extend(r, OkHost(h), prefix);
    assert Last(r) == State(None, None, true, {prefix[h]}, map[h := OkHostSet], None, {});
    r := Extend(r, OkClear(h), prefix);
  }

  lemma RegisterOnce(h: Host, prefix: Prefixes) returns (r: Run)
    requires h in prefix
    ensures IsRun(r, prefix) && Undisturbed(r) && |r.steps| == 6
    ensures Last(r) == State(None, None, true, {prefix[h]}, map[h := Cleared], None, {h})
  {
    r := Accept(h, prefix);
    r := Extend(r, PeerCheck(h), prefix);
    r := SeeKeys(r, h, prefix);
  }

  lemma SeeKeys(r: Run, h: Host, prefix: Prefixes) returns (r': Run)
    requires IsRun(r, prefix) && Undisturbed(r) && h in prefix
    requires Last(r) == State(None, None, true, {prefix[h]}, map[h := Checked], None, {h})
    ensures IsRun(r', prefix) && Undisturbed(r') && |r'.steps| == |r.steps| + 2
    ensures Last(r') == State(None, None, true, {prefix[h]}, map[h := Cleared], None, {h})
  {
    r' := Extend(r, PeerKey(h), prefix);
    assert Last(r') == State(None, None, true, {prefix[h]}, map[h := KeySeen], None, {h});
    r' := Extend(r', PeerHostKey(h), prefix);
  }

  lemma TakeOver(r: Run, h: Host, prefix: Prefixes) returns (r': Run)
    requires IsRun(r, prefix) && h in prefix
    requires At(Last(r), h) == Idle && Last(r).lock == None && FreeFor(Last(r), h)
    ensures IsRun(r', prefix) && |r'.steps| == |r.steps| + 4 && (Undisturbed(r) ==> Undisturbed(r'))
    ensures Last(r').solving == Some(h) && !Last(r').keyConfirmed
    ensures forall k | k != h :: At(Last(r'), k) == At(Last(r), k)
  {
    r' := RepairStep(r, r, h, MismatchLock(h), Locked, prefix);
    r' := RepairStep(r, r', h, MismatchKey(h), KeyReset, prefix);
    r' := RepairStep(r, r', h, MismatchId(h), IdUpdated, prefix);
    r' := RepairStep(r, r', h, MismatchUnlock(h), PkDue, prefix);
  }

  /** Since `r0` only the repairing host has moved. */
  ghost predicate OnlyMoved(r: Run, r0: Run, h: Host)
    requires r.states != [] && r0.states != []
  {
    && (Undisturbed(r0) ==> Undisturbed(r))
    && forall k | k != h :: At(Last(r), k) == At(Last(r0), k)
  }

  predicate IsRepair(step: Step, h: Host) {
    step == MismatchLock(h) || step == MismatchKey(h) || step == MismatchId(h) || step == MismatchUnlock(h)
  }

  /** One step of a repair that nobody prevents. */
  lemma RepairStep(r0: Run, r: Run, h: Host, step: Step, pc: Pc, prefix: Prefixes) returns (r': Run)
    requires IsRun(r, prefix) && r0.states != [] && OnlyMoved(r, r0, h) && IsRepair(step, h)
    requires Enabled(Last(r), step, prefix) && (step.MismatchLock? ==> FreeFor(Last(r), h))
    requires pc == At(Next(Last(r), step, prefix), h)
    ensures IsRun(r', prefix) && OnlyMoved(r', r0, h) && |r'.steps| == |r.steps| + 1
    ensures Last(r') == Next(Last(r), step, prefix) && At(Last(r'), h) == pc
  {
    r' := Extend(r, step, prefix);
    OthersStay(Last(r), step, h, prefix);
  }

  lemma OthersStay(s: State, step: Step, h: Host, prefix: Prefixes)
    requires IsRepair(step, h) && Enabled(s, step, prefix)
    ensures forall k | k != h :: At(Next(s, step, prefix), k) == At(s, k)
  {
  }

  /** The checks and the sending are not one step: here one host has passed
      all its checks when another takes over the repair, and still sends. */
  lemma RegisterPeerMayBeLate(a: Host, b: Host, prefix: Prefixes) returns (r: Run)
    requires a in prefix && b in prefix && a != b
    ensures IsRun(r, prefix) && Undisturbed(r) && |r.steps| == 11 && EventAt(r, 10) == SentRegisterPeer(a)
    ensures r.states[10].solving == Some(b) && !Confirmed(r.states[10], a, prefix)
  {
    r := RegisterOnce(a, prefix);
    r := TakeOver(r, b, prefix);
    r := Extend(r, PeerSend(a), prefix);
  }

  // ---------------------------------------------------------------- exactly when it cannot be late

  ghost predicate AlwaysConfirmed(r: Run, prefix: Prefixes)
    requires IsRun(r, prefix)
  {
    forall i | 0 <= i < |r.steps| && EventAt(r, i).SentRegisterPeer? ::
      Confirmed(r.states[i], EventAt(r, i).h, prefix)
  }

  /** Only known hosts have tasks, and a host amid its checks is calm. */
  ghost predicate AloneInv(s: State, prefix: Prefixes) {
    && (forall h :: At(s, h) != Idle ==> h in prefix)
    && (forall h :: At(s, h) in {Checked, KeySeen, Cleared} ==> h in s.calm)
  }

  ghost predicate AtMostOne(prefix: Prefixes) {
    forall a, b | a in prefix && b in prefix :: a == b
  }

  lemma AtMostOneMeans(prefix: Prefixes)
    ensures AtMostOne(prefix) <==> |prefix| <= 1
  {
    if a, b :| a in prefix && b in prefix && a != b {
      var both := {a, b};
      assert both <= prefix.Keys && |both| == 2;
      SubsetSize(both, prefix.Keys);
    } else if prefix.Keys != {} {
      var a :| a in prefix.Keys;
      assert prefix.Keys == {a};
    }
    assert |prefix| == |prefix.Keys|;
  }

  lemma {:induction false} SubsetSize(a: set<Host>, b: set<Host>)
    requires a <= b
    ensures |a| <= |b|
  {
    if a != {} {
      var x :| x in a;
      SubsetSize(a - {x}, b - {x});
    }
  }

  lemma NextKeepsAlone(s: State, step: Step, prefix: Prefixes)
    requires AloneInv(s, prefix) && AtMostOne(prefix) && Enabled(s, step, prefix)
    requires !step.KeyLost? && !step.HostKeyLost?
    ensures AloneInv(Next(s, step, prefix), prefix)
  {
  }

  lemma {:induction false} AloneInRun(r: Run, prefix: Prefixes, i: nat)
    requires IsRun(r, prefix) && Undisturbed(r) && AtMostOne(prefix) && i < |r.states|
    ensures AloneInv(r.states[i], prefix)
  {
    if i > 0 {
      AloneInRun(r, prefix, i - 1);
      NextKeepsAlone(r.states[i - 1], r.steps[i - 1], prefix);
    }
  }

  lemma SingleHostConfirmed(r: Run, prefix: Prefixes, i: nat)
    requires IsRun(r, prefix) && Undisturbed(r) && AtMostOne(prefix)
    requires i < |r.steps| && EventAt(r, i).SentRegisterPeer?
    ensures Confirmed(r.states[i], EventAt(r, i).h, prefix)
  {
    AloneInRun(r, prefix, i);
    RegisterPeerConfirmed(r, prefix, i);
  }

  /** Main result: while nothing else withdraws confirmations, every RegisterPeer
      of every run is sent with both keys confirmed and no other host solving,
      if and only if there is no second host. */
  lemma AlwaysConfirmedIff(prefix: Prefixes)
    ensures (forall r | IsRun(r, prefix) && Undisturbed(r) :: AlwaysConfirmed(r, prefix)) <==> |prefix| <= 1
  {
    AtMostOneMeans(prefix);
    if AtMostOne(prefix) {
      forall r | IsRun(r, prefix) && Undisturbed(r) ensures AlwaysConfirmed(r, prefix) {
        forall i | 0 <= i < |r.steps| && EventAt(r, i).SentRegisterPeer?
          ensures Confirmed(r.states[i], EventAt(r, i).h, prefix)
        {
          SingleHostConfirmed(r, prefix, i);
        }
      }
    } else {
      var a, b :| a in prefix && b in prefix && a != b;
      var r := RegisterPeerMayBeLate(a, b, prefix);
      assert EventAt(r, 10).SentRegisterPeer?;
    }
  }

  // ---------------------------------------------------------------- host keys

  /** The step withdraws the host keys with this prefix. */
  predicate Clears(s: State, step: Step, p: string) {
    ((step.MismatchKey? || step.KeyLost?) && s.keyConfirmed) || step == HostKeyLost(p)
  }

  predicate Accepts(step: Step, p: string, prefix: Prefixes) {
    step.OkHost? && step.h in prefix && prefix[step.h] == p
  }

  /** The registration accepted by step `j` still stands. */
  ghost predicate Stands(r: Run, prefix: Prefixes, j: nat, k: nat, p: string)
    requires j < k <= |r.steps| < |r.states|
  {
    Accepts(r.steps[j], p, prefix) && forall m | j < m < k :: !Clears(r.states[m], r.steps[m], p)
  }

  lemma HostKeysAfter(s: State, step: Step, prefix: Prefixes, p: string)
    requires Enabled(s, step, prefix)
    ensures p in Next(s, step, prefix).hostKeys
       <==> Accepts(step, p, prefix) || (p in s.hostKeys && !Clears(s, step, p))
  {
  }

  /** In every run a host key is confirmed exactly if a registration with its
      prefix was accepted and not withdrawn since. */
  lemma {:induction false} HostKeyMeans(r: Run, prefix: Prefixes, k: nat, p: string)
    requires IsRun(r, prefix) && k <= |r.steps|
    ensures p in r.states[k].hostKeys <==> exists j :: 0 <= j < k && Stands(r, prefix, j, k, p)
  {
    if k > 0 {
      var n := k - 1;
      HostKeyMeans(r, prefix, n, p);
      HostKeysAfter(r.states[n], r.steps[n], prefix, p);
      if Accepts(r.steps[n], p, prefix) {
        assert Stands(r, prefix, n, k, p);
      } else if p in r.states[k].hostKeys {
        var j :| 0 <= j < n && Stands(r, prefix, j, n, p);
        assert Stands(r, prefix, j, k, p);
      }
      if j :| 0 <= j < k && Stands(r, prefix, j, k, p) {
        assert j < n ==> Stands(r, prefix, j, n, p);
      }
    }
  }

  /** Some registration of the host's prefix was accepted between. */
  ghost predicate AcceptedBetween(r: Run, prefix: Prefixes, i: int, k: nat, p: string)
    requires -1 <= i && k <= |r.steps|
  {
    exists j :: i < j < k && Accepts(r.steps[j], p, prefix)
  }

  lemma ClearedHasAccepted(r: Run, prefix: Prefixes, i: nat, k: nat, g: Host)
    requires IsRun(r, prefix) && i < k <= |r.steps| && g in prefix
    requires prefix[g] !in r.states[i + 1].hostKeys && At(r.states[i + 1], g) != Cleared
    ensures Trusted(r.states[k], g, prefix[g]) ==> AcceptedBetween(r, prefix, i, k, prefix[g])
  {
    forall m | i < m < k ensures TrustNeedsAcceptance(r, m, prefix, g, prefix[g]) {
      if !Accepts(r.steps[m], prefix[g], prefix) { ClearedOrStanding(r.states[m], r.steps[m], prefix, g); }
    }
    TrustFromAcceptance(r, prefix, i, k, g, prefix[g]);
  }

  /** The host has passed its checks, or its key is confirmed. */
  predicate Trusted(s: State, g: Host, p: string) { At(s, g) == Cleared || p in s.hostKeys }

  /** A step that makes the host trusted accepts a registration. */
  ghost predicate TrustNeedsAcceptance(r: Run, m: nat, prefix: Prefixes, g: Host, p: string)
    requires m < |r.steps| && m + 1 < |r.states|
  {
    Accepts(r.steps[m], p, prefix) || (Trusted(r.states[m + 1], g, p) ==> Trusted(r.states[m], g, p))
  }

  lemma {:induction false} TrustFromAcceptance(r: Run, prefix: Prefixes, i: nat, k: nat, g: Host, p: string)
    requires i < k <= |r.steps| < |r.states| && !Trusted(r.states[i + 1], g, p)
    requires forall m | i < m < k :: TrustNeedsAcceptance(r, m, prefix, g, p)
    ensures Trusted(r.states[k], g, p) ==> AcceptedBetween(r, prefix, i, k, p)
    decreases k
  {
    if k > i + 1 {
      TrustFromAcceptance(r, prefix, i, k - 1, g, p);
      assert TrustNeedsAcceptance(r, k - 1, prefix, g, p);
      AcceptedLonger(r, prefix, i, k - 1, p);
    }
  }

  /** One more step before the second moment. */
  lemma AcceptedLonger(r: Run, prefix: Prefixes, i: int, n: nat, p: string)
    requires -1 <= i < n < |r.steps|
    ensures Accepts(r.steps[n], p, prefix) || AcceptedBetween(r, prefix, i, n, p)
            ==> AcceptedBetween(r, prefix, i, n + 1, p)
  {
    if Accepts(r.steps[n], p, prefix) {
      assert AcceptedBetween(r, prefix, i, n + 1, p);
    } else if AcceptedBetween(r, prefix, i, n, p) {
      var j :| i < j < n && Accepts(r.steps[j], p, prefix);
      assert AcceptedBetween(r, prefix, i, n + 1, p);
    }
  }

  lemma ClearedOrStanding(s: State, step: Step, prefix: Prefixes, g: Host)
    requires Enabled(s, step, prefix) && g in prefix && !Accepts(step, prefix[g], prefix)
    ensures Trusted(Next(s, step, prefix), g, prefix[g]) ==> Trusted(s, g, prefix[g])
  {
  }

  /** The run goes on. */
  ghost predicate Extends(r': Run, r: Run) { r.steps <= r'.steps && r.states <= r'.states }

  /** Every later RegisterPeer of the host follows an accepted registration
      with its prefix. */
  ghost predicate RegistersAnew(r: Run, prefix: Prefixes, g: Host)
    requires g in prefix
  {
    forall r', k | IsRun(r', prefix) && Extends(r', r) && |r.steps| <= k < |r'.steps|
                   && EventAt(r', k) == SentRegisterPeer(g) ::
      AcceptedBetween(r', prefix, |r.steps| - 1, k, prefix[g])
  }

  /** A host key that is not confirmed is accepted anew before it is relied on. */
  lemma GoneIsAcceptedAnew(r: Run, prefix: Prefixes, g: Host)
    requires IsRun(r, prefix) && |r.steps| > 0 && g in prefix
    requires prefix[g] !in Last(r).hostKeys && At(Last(r), g) != Cleared
    ensures RegistersAnew(r, prefix, g)
  {
    forall r', k | IsRun(r', prefix) && Extends(r', r) && |r.steps| <= k < |r'.steps|
                   && EventAt(r', k) == SentRegisterPeer(g)
      ensures AcceptedBetween(r', prefix, |r.steps| - 1, k, prefix[g])
    {
      assert r'.states[|r.steps|] == Last(r);
      ClearedHasAccepted(r', prefix, |r.steps| - 1, k, g);
    }
  }

  /** The run goes on without an accepted registration of the prefix. */
  ghost predicate Continues(r': Run, r: Run, prefix: Prefixes, p: string) {
    Extends(r', r) && forall j | |r.steps| <= j < |r'.steps| :: !Accepts(r'.steps[j], p, prefix)
  }

  lemma Continue(r0: Run, r: Run, step: Step, prefix: Prefixes, p: string) returns (r': Run)
    requires IsRun(r, prefix) && Continues(r, r0, prefix, p)
    requires Enabled(Last(r), step, prefix) && !Accepts(step, p, prefix)
    ensures IsRun(r', prefix) && Continues(r', r0, prefix, p)
    ensures r'.steps == r.steps + [step] && Last(r') == Next(Last(r), step, prefix)
    ensures r'.states[..|r.states|] == r.states
  {
    r' := Extend(r, step, prefix);
  }

  /** Another host is idle and its key stands, while the repair is at `pc`. */
  ghost predicate Meanwhile(s: State, h: Host, pc: Pc, g: Host, p: string) {
    g != h && At(s, h) == pc && At(s, g) == Idle && p in s.hostKeys
  }

  /** After the reset of a repair: the host finishes it and registers. */
  lemma FinishRepair(r0: Run, prefix: Prefixes, h: Host, g: Host) returns (r: Run)
    requires IsRun(r0, prefix) && h in prefix && g in prefix && prefix[g] != prefix[h]
    requires LockInv(Last(r0)) && Meanwhile(Last(r0), h, KeyReset, g, prefix[g])
    ensures IsRun(r, prefix) && Continues(r, r0, prefix, prefix[g]) && |r.steps| == |r0.steps| + 3
    ensures Meanwhile(Last(r), h, Idle, g, prefix[g]) && Last(r).lock == None
  {
    r := Continue(r0, r0, MismatchId(h), prefix, prefix[g]);
    assert Meanwhile(Last(r), h, IdUpdated, g, prefix[g]);
    r := Continue(r0, r, MismatchUnlock(h), prefix, prefix[g]);
    assert Meanwhile(Last(r), h, PkDue, g, prefix[g]);
    r := Continue(r0, r, PkSend(h), prefix, prefix[g]);
  }

  lemma RepairAccepted(r0: Run, r1: Run, prefix: Prefixes, h: Host, g: Host) returns (r: Run)
    requires IsRun(r1, prefix) && h in prefix && g in prefix && prefix[g] != prefix[h]
    requires Continues(r1, r0, prefix, prefix[g])
    requires Meanwhile(Last(r1), h, Idle, g, prefix[g]) && Last(r1).lock == None
    ensures IsRun(r, prefix) && Continues(r, r0, prefix, prefix[g]) && |r.steps| == |r1.steps| + 3
    ensures Meanwhile(Last(r), h, Idle, g, prefix[g])
    ensures Last(r).lock == None && Last(r).solving == None && Last(r).keyConfirmed
  {
    r := Continue(r0, r1, OkKey(h), prefix, prefix[g]);
    assert Meanwhile(Last(r), h, OkKeySet, g, prefix[g]) && Last(r).keyConfirmed;
    r := Continue(r0, r, OkHost(h), prefix, prefix[g]);
    assert Meanwhile(Last(r), h, OkHostSet, g, prefix[g]) && Last(r).keyConfirmed;
    r := Continue(r0, r, OkClear(h), prefix, prefix[g]);
  }

  lemma RegisterWithOldKey(r0: Run, r1: Run, prefix: Prefixes, g: Host) returns (r: Run)
    requires IsRun(r1, prefix) && g in prefix && Continues(r1, r0, prefix, prefix[g])
    requires At(Last(r1), g) == Idle && prefix[g] in Last(r1).hostKeys
    requires Last(r1).lock == None && Last(r1).solving == None && Last(r1).keyConfirmed
    ensures IsRun(r, prefix) && Continues(r, r0, prefix, prefix[g]) && |r.steps| == |r1.steps| + 4
    ensures EventAt(r, |r1.steps| + 3) == SentRegisterPeer(g)
  {
    r := Continue(r0, r1, PeerCheck(g), prefix, prefix[g]);
    assert At(Last(r), g) == Checked && Last(r).keyConfirmed && prefix[g] in Last(r).hostKeys;
    r := Continue(r0, r, PeerKey(g), prefix, prefix[g]);
    assert At(Last(r), g) == KeySeen && prefix[g] in Last(r).hostKeys;
    r := Continue(r0, r, PeerHostKey(g), prefix, prefix[g]);
    assert At(Last(r), g) == Cleared;
    r := Continue(r0, r, PeerSend(g), prefix, prefix[g]);
  }

  lemma StandingIsReused(r: Run, prefix: Prefixes, h: Host, g: Host)
    requires IsRun(r, prefix) && |r.steps| > 0 && h in prefix && g in prefix && prefix[g] != prefix[h]
    requires r.steps[|r.steps| - 1] == MismatchKey(h) && Meanwhile(Last(r), h, KeyReset, g, prefix[g])
    ensures !RegistersAnew(r, prefix, g)
  {
    InvInRun(r, prefix, |r.steps|);
    var r1 := FinishRepair(r, prefix, h, g);
    var r2 := RepairAccepted(r, r1, prefix, h, g);
    var r3 := RegisterWithOldKey(r, r2, prefix, g);
    NotAnew(r, r3, prefix, |r2.steps| + 3, g);
  }

  lemma NotAnew(r: Run, r': Run, prefix: Prefixes, k: nat, g: Host)
    requires IsRun(r, prefix) && |r.steps| > 0 && r.steps[|r.steps| - 1].MismatchKey? && g in prefix
    requires IsRun(r', prefix) && Continues(r', r, prefix, prefix[g]) && |r.steps| <= k < |r'.steps|
    requires EventAt(r', k) == SentRegisterPeer(g)
    ensures !RegistersAnew(r, prefix, g)
  {
    assert !AcceptedBetween(r', prefix, |r.steps| - 1, k, prefix[g]);
  }

  /** Main result: the reset at the start of a repair makes another host
      register anew before its next RegisterPeer, in every continuation, exactly
      if the key was confirmed or that host's key was not. */
  lemma RegistersAnewIff(r: Run, prefix: Prefixes, h: Host, g: Host)
    requires IsRun(r, prefix) && |r.steps| > 0 && h in prefix && g in prefix && prefix[g] != prefix[h]
    requires r.steps[|r.steps| - 1] == MismatchKey(h) && At(Last(r), g) == Idle
    ensures var before := r.states[|r.steps| - 1];
            RegistersAnew(r, prefix, g) <==> before.keyConfirmed || prefix[g] !in before.hostKeys
  {
    assert Last(r) == Next(r.states[|r.steps| - 1], MismatchKey(h), prefix);
    if prefix[g] in Last(r).hostKeys {
      StandingIsReused(r, prefix, h, g);
    } else {
      GoneIsAcceptedAnew(r, prefix, g);
    }
  }

  /** The failing half does occur: another part of the program withdraws the key
      while a registration is being accepted, so that the host key is confirmed
      without the key, and outlives the reset of the next repair. */
  lemma OldKeyOutlivesRepair(h: Host, g: Host, prefix: Prefixes) returns (r: Run)
    requires h in prefix && g in prefix && prefix[g] != prefix[h]
    ensures IsRun(r, prefix)
    ensures r.steps == [OkKey(g), KeyLost, OkHost(g), OkClear(g), MismatchLock(h), MismatchKey(h)]
    ensures At(Last(r), g) == Idle && !RegistersAnew(r, prefix, g)
  {
    r := KeyLostInBetween(g, prefix);
    r := Extend(r, MismatchLock(h), prefix);
    assert Last(r) == State(None, Some(h), false, {prefix[g]}, map[g := Idle, h := Locked], None, {});
    r := Extend(r, MismatchKey(h), prefix);
    RegistersAnewIff(r, prefix, h, g);
  }

  lemma KeyLostInBetween(g: Host, prefix: Prefixes) returns (r: Run)
    requires g in prefix
    ensures IsRun(r, prefix) && r.steps == [OkKey(g), KeyLost, OkHost(g), OkClear(g)]
    ensures Last(r) == State(None, None, false, {prefix[g]}, map[g := Idle], None, {})
  {
    r := KeyGivenAndLost(g, prefix);
    r := Extend(r, OkHost(g), prefix);
    assert Last(r) == State(None, None, false, {prefix[g]}, map[g := OkHostSet], None, {});
    r := Extend(r, OkClear(g), prefix);
  }

  lemma KeyGivenAndLost(g: Host, prefix: Prefixes) returns (r: Run)
    requires g in prefix
    ensures IsRun(r, prefix) && r.steps == [OkKey(g), KeyLost]
    ensures Last(r) == State(None, None, false, {}, map[g := OkKeySet], None, {})
  {
    r := Run([Initial()], []);
    r := Extend(r, OkKey(g), prefix);
    assert Last(r) == State(None, None, true, {}, map[g := OkKeySet], None, {});
    r := Extend(r, KeyLost, prefix);
  }

  // ---------------------------------------------------------------- nobody is left without a message

  /** A host in the middle of its checks or of a repair. */
  predicate Busy(pc: Pc) { pc != Idle && pc != OkKeySet && pc != OkHostSet }

  predicate IsMessage(step: Step, h: Host) { step == PeerSend(h) || step == PkSend(h) || step == SendError(h) }

  lemma BusyUntilMessage(s: State, step: Step, h: Host, prefix: Prefixes)
    requires Enabled(s, step, prefix) && Busy(At(s, h)) && !IsMessage(step, h)
    ensures Busy(At(Next(s, step, prefix), h))
  {
  }

  /** Main result: a host that has begun a check or a repair becomes idle again
      only by sending a RegisterPeer or a RegisterPk, or by an error of sending. */
  lemma {:induction false} BusyEndsInMessage(r: Run, prefix: Prefixes, i: nat, j: nat, h: Host)
    requires IsRun(r, prefix) && i <= j < |r.states| && Busy(At(r.states[i], h))
    requires forall k | i <= k < j :: !IsMessage(r.steps[k], h)
    ensures Busy(At(r.states[j], h))
    decreases j - i
  {
    if i < j {
      BusyEndsInMessage(r, prefix, i, j - 1, h);
      BusyUntilMessage(r.states[j - 1], r.steps[j - 1], h, prefix);
    }
  }

  /** Which message it is: a RegisterPk after a repair, and after a check that
      found a confirmation missing; a RegisterPeer after one that found both. */
  lemma CheckDecides(s: State, h: Host, prefix: Prefixes)
    requires h in prefix && At(s, h) == Checked
    ensures var s1 := Next(s, PeerKey(h), prefix);
            if !s.keyConfirmed then Enabled(s1, PkSend(h), prefix)
            else Enabled(s1, PeerHostKey(h), prefix)
                 && if prefix[h] in s.hostKeys then Enabled(Next(s1, PeerHostKey(h), prefix), PeerSend(h), prefix)
                    else Enabled(Next(s1, PeerHostKey(h), prefix), PkSend(h), prefix)
  {
  }

  /** A finished repair hands its new id out in a RegisterPk. */
  lemma RepairRegisters(s: State, h: Host, prefix: Prefixes)
    requires At(s, h) == IdUpdated
    ensures Enabled(Next(s, MismatchUnlock(h), prefix), PkSend(h), prefix)
    ensures Next(s, MismatchUnlock(h), prefix).solving == Some(h)
  {
  }

  /** An accepted registration and a restart let every host check again. */
  lemma AcceptanceFrees(s: State, step: Step, h: Host, prefix: Prefixes)
    requires Enabled(s, step, prefix) && (step.OkClear? || step.Restart?)
    ensures FreeFor(Next(s, step, prefix), h) && Next(s, step, prefix).solving == None
  {
  }
}
