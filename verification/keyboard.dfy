/** Which keys the peer holds, and what the client remembers of them: the
    keyboard state of src/keyboard.rs in map mode. */
module Keyboards {
  import opened Options

  datatype Key =
    | ShiftLeft | ShiftRight | ControlLeft | ControlRight
    | Alt | AltGr | MetaLeft | MetaRight
    | CapsLock | NumLock | KeyG
    | Unknown(n: nat) | Other(n: nat)

  const MODIFIERS: set<Key> :=
    {ShiftLeft, ShiftRight, ControlLeft, ControlRight, Alt, AltGr, MetaLeft, MetaRight}

  /** A press or a release; `code` is what the platform reports beside the key,
      not always the same for the same key. */
  datatype Event = Event(key: Key, press: bool, code: int)

  /** What goes over the wire: a key code of the peer, down or up. */
  datatype KeyEvent = KeyEvent(code: int, down: bool)

  datatype Platform = Windows | MacOS | Linux

  /** The part of the environment that the functions consult: the translation
      to the peer's key codes, which may not know a code, and the platform. */
  datatype Env = Env(translate: int -> Option<int>, os: Platform)

  datatype Keyboard = Keyboard(
    modifiers: map<Key, bool>, // MODIFIERS_STATE
    toRelease: map<Key, Event>, // TO_RELEASE
    exitDown: bool, // EXIT_SHORTCUT_KEY_DOWN
    relative: bool, // RELATIVE_MOUSE_MODE_ACTIVE
    hooked: bool, // KEYBOARD_HOOKED
    sent: seq<KeyEvent>)
  {
    predicate Down(key: Key) { key in modifiers && modifiers[key] }

    /** `is_long_press`. */
    predicate LongPress(e: Event) { e.press && Down(e.key) }

    /** `process_event` in map mode: states, then at most one key event. */
    function Process(e: Event, env: Env): Keyboard {
      if LongPress(e) then this
      else
        var code := env.translate(e.code);
        this.(
          modifiers := if e.key in modifiers then modifiers[e.key := e.press] else modifiers,
          toRelease := if e.press then toRelease[e.key := e] else toRelease - {e.key},
          sent := if code.Some? then sent + [KeyEvent(code.value, e.press)] else sent)
    }

    predicate Tracked(key: Key, os: Platform) {
      if os == MacOS then key == KeyG else key in {ControlLeft, ControlRight, Alt, AltGr}
    }

    /** `is_exit_relative_mouse_shortcut`. */
    predicate ExitShortcut(key: Key, os: Platform) {
      if os == MacOS then key == KeyG && (Down(MetaLeft) || Down(MetaRight))
      else
        || (key in {ControlLeft, ControlRight} && (Down(Alt) || Down(AltGr)))
        || (key in {Alt, AltGr} && (Down(ControlLeft) || Down(ControlRight)))
    }

    /** `should_block_relative_mouse_shortcut`. `eligible` stands for the
        session's side of the check: kind, permission, version. */
    predicate Blocks(e: Event, eligible: bool, os: Platform) {
      hooked && ((Tracked(e.key, os) && !e.press && exitDown)
                 || (ExitShortcut(e.key, os) && relative && eligible))
    }

    function AfterBlock(e: Event, os: Platform): Keyboard {
      if Tracked(e.key, os) && !e.press && exitDown then this.(exitDown := false)
      else if e.press then this.(exitDown := true)
      else this
    }

    /** One event of the grab loop. */
    function Grab(e: Event, eligible: bool, env: Env): Keyboard {
      if env.os != Linux && e.key in {CapsLock, NumLock} then this
      else if env.os == Linux && e.key.Unknown? then this
      else if Blocks(e, eligible, env.os) then AfterBlock(e, env.os)
      else if env.os == Linux || hooked then Process(e, env)
      else this
    }
  }

  /** The keys that a sequence of events leaves held at the peer. */
  function Held(sent: seq<KeyEvent>): set<int> {
    if sent == [] then {}
    else
      var e := sent[|sent| - 1];
      var before := Held(sent[..|sent| - 1]);
      if e.down then before + {e.code} else before - {e.code}
  }

  lemma HeldNext(sent: seq<KeyEvent>, e: KeyEvent)
    ensures Held(sent + [e]) == if e.down then Held(sent) + {e.code} else Held(sent) - {e.code}
  {
    assert (sent + [e])[..|sent|] == sent;
  }

  /** The peer's codes of the remembered presses. */
  function Translations(events: map<Key, Event>, env: Env): set<int> {
    set key | key in events && env.translate(events[key].code).Some? :: env.translate(events[key].code).value
  }

  /** What an event can translate to. */
  function CodeOf(code: int, env: Env): set<int> {
    if env.translate(code).Some? then {env.translate(code).value} else {}
  }

  /** Every held code is that of an event in TO_RELEASE. */
  ghost predicate Remembered(k: Keyboard, env: Env) {
    Held(k.sent) <= Translations(k.toRelease, env)
  }

  /** A modifier's flag is set exactly when the modifier is to be released. */
  ghost predicate FlagsAgree(k: Keyboard) {
    k.modifiers.Keys == MODIFIERS && forall m | m in MODIFIERS :: k.modifiers[m] <==> m in k.toRelease
  }

  /** The codes that the platform may report with each key. */
  type Codes = Key -> iset<int>

  predicate Reported(e: Event, codes: Codes) { e.code in codes(e.key) }

  /** The remembered events are presses of their keys. */
  ghost predicate Presses(events: map<Key, Event>, codes: Codes) {
    forall key | key in events :: events[key].key == key && events[key].press && Reported(events[key], codes)
  }

  /** What holds in every run, whatever codes a key has. */
  ghost predicate Inv(k: Keyboard, codes: Codes) {
    FlagsAgree(k) && Presses(k.toRelease, codes)
  }

  /** The codes of one key mean the same to the peer. */
  ghost predicate Alike(codes: Codes, env: Env) {
    forall key, a, b | a in codes(key) && b in codes(key) :: env.translate(a) == env.translate(b)
  }

  lemma ProcessHeld(k: Keyboard, e: Event, env: Env)
    ensures Held(k.Process(e, env).sent)
         == if k.LongPress(e) then Held(k.sent)
            else if e.press then Held(k.sent) + CodeOf(e.code, env)
            else Held(k.sent) - CodeOf(e.code, env)
  {
    var code := env.translate(e.code);
    if code.Some? { HeldNext(k.sent, KeyEvent(code.value, e.press)); }
  }

  lemma ProcessKeeps(k: Keyboard, e: Event, codes: Codes, env: Env)
    requires Inv(k, codes) && Reported(e, codes)
    ensures Inv(k.Process(e, env), codes)
  {
    assert k.Process(e, env).modifiers.Keys == MODIFIERS;
  }

  lemma TranslationsGrow(events: map<Key, Event>, e: Event, codes: Codes, env: Env)
    requires Alike(codes, env) && Presses(events, codes) && Reported(e, codes)
    ensures Translations(events[e.key := e], env) == Translations(events, env) + CodeOf(e.code, env)
  {
    var more := events[e.key := e];
    assert e.key in events ==> env.translate(events[e.key].code) == env.translate(e.code);
    assert e.key in more && more[e.key] == e;
    forall c | c in Translations(events, env) ensures c in Translations(more, env) {
      var key :| key in events && env.translate(events[key].code) == Some(c);
      assert key in more && env.translate(more[key].code) == Some(c);
    }
  }

  lemma TranslationsShrink(events: map<Key, Event>, e: Event, codes: Codes, env: Env)
    requires Alike(codes, env) && Presses(events, codes) && Reported(e, codes)
    ensures Translations(events, env) - CodeOf(e.code, env) <= Translations(events - {e.key}, env)
  {
    var less := events - {e.key};
    forall c | c in Translations(events, env) && c !in CodeOf(e.code, env) ensures c in Translations(less, env) {
      var key :| key in events && env.translate(events[key].code) == Some(c);
      assert key != e.key && key in less && less[key] == events[key];
    }
  }

  lemma ProcessRemembers(k: Keyboard, e: Event, codes: Codes, env: Env)
    requires Inv(k, codes) && Reported(e, codes) && Alike(codes, env) && Remembered(k, env)
    ensures Remembered(k.Process(e, env), env)
  {
    ProcessHeld(k, e, env);
    TranslationsGrow(k.toRelease, e, codes, env);
    TranslationsShrink(k.toRelease, e, codes, env);
  }

  // ---------------------------------------------------------------- releasing everything

  ghost predicate AllReleased(k: Keyboard) {
    k.modifiers.Keys == MODIFIERS && k.toRelease == map[] && forall m | m in MODIFIERS :: !k.modifiers[m]
  }

  /** All but the last clause of `release_remote_keys`' promise. */
  ghost predicate Released(before: Keyboard, after: Keyboard, env: Env) {
    && AllReleased(after)
    && after == before.(modifiers := after.modifiers, toRelease := map[], sent := after.sent)
    && Held(after.sent) == Held(before.sent) - Translations(before.toRelease, env)
  }

  /** The extra press and release of Alt end where they began, except that the
      code is let go of. */
  lemma ExtraStroke(k: Keyboard, key: Key, code: int, env: Env)
    requires key !in k.toRelease && !k.Down(key)
    ensures var k' := k.Process(Event(key, true, code), env).Process(Event(key, false, code), env);
            && k' == k.(sent := k'.sent)
            && Held(k'.sent) == Held(k.sent) - CodeOf(code, env)
  {
    var pressed := k.Process(Event(key, true, code), env);
    ProcessHeld(k, Event(key, true, code), env);
    ProcessHeld(pressed, Event(key, false, code), env);
    StrokeState(k, key, code, env);
  }

  lemma StrokeState(k: Keyboard, key: Key, code: int, env: Env)
    requires key !in k.toRelease && !k.Down(key)
    ensures var k' := k.Process(Event(key, true, code), env).Process(Event(key, false, code), env);
            k'.modifiers == k.modifiers && k'.toRelease == k.toRelease
  {
    assert k.toRelease[key := Event(key, true, code)] - {key} == k.toRelease;
  }

  /** One key is released and its code let go of, nothing else. */
  ghost predicate KeyReleased(before: Keyboard, after: Keyboard, key: Key, code: int, env: Env) {
    && after == before.(
         modifiers := if key in before.modifiers then before.modifiers[key := false] else before.modifiers,
         toRelease := before.toRelease - {key},
         sent := after.sent)
    && Held(after.sent) == Held(before.sent) - CodeOf(code, env)
  }

  lemma ReleasedByProcess(k: Keyboard, e: Event, env: Env)
    requires !e.press
    ensures KeyReleased(k, k.Process(e, env), e.key, e.code, env)
  {
    ProcessHeld(k, e, env);
  }

  lemma StrokeKeepsReleased(before: Keyboard, k: Keyboard, key: Key, code: int, env: Env)
    requires KeyReleased(before, k, key, code, env)
    ensures var pressed := k.Process(Event(key, true, code), env);
            KeyReleased(before, pressed.Process(Event(key, false, code), env), key, code, env)
  {
    ExtraStroke(k, key, code, env);
  }

  /** The globals of the module. */
  class KeyboardState {
    var modifiers: map<Key, bool>
    var toRelease: map<Key, Event>
    var exitDown: bool
    var relative: bool
    var hooked: bool
    var sent: seq<KeyEvent> // what the session has been given to send

    function State(): Keyboard reads this {
      Keyboard(modifiers, toRelease, exitDown, relative, hooked, sent)
    }

    constructor ()
      ensures State() == Start()
    {
      modifiers := map m | m in MODIFIERS :: false;
      toRelease, exitDown, relative, hooked, sent := map[], false, false, false, [];
    }

    method ProcessEvent(e: Event, env: Env)
      modifies this
      ensures State() == old(State()).Process(e, env)
    {
      if e.press && e.key in modifiers && modifiers[e.key] { return; }
      if e.key in modifiers { modifiers := modifiers[e.key := e.press]; }
      if e.press { toRelease := toRelease[e.key := e]; } else { toRelease := toRelease - {e.key}; }
      var code := env.translate(e.code);
      if code.Some? { sent := sent + [KeyEvent(code.value, e.press)]; }
    }

    method ShouldBlockRelativeMouseShortcut(e: Event, eligible: bool, os: Platform) returns (block: bool)
      modifies this
      ensures block == old(State()).Blocks(e, eligible, os)
      ensures State() == if block then old(State()).AfterBlock(e, os) else old(State())
    {
      if !hooked { return false; }
      if State().Tracked(e.key, os) && !e.press {
        var was := exitDown;
        exitDown := false;
        if was { return true; }
      }
      if State().ExitShortcut(e.key, os) {
        if !(relative && eligible) { return false; }
        if e.press { exitDown := true; }
        return true;
      }
      return false;
    }

    /** Releases one key; Alt gets another stroke. */
    method ReleaseKey(event: Event, env: Env)
      requires !event.press
      modifies this
      ensures KeyReleased(old(State()), State(), event.key, event.code, env)
    {
      ghost var before := State();
      ReleasedByProcess(before, event, env);
      ProcessEvent(event, env);
      if event.key == Alt || event.key == AltGr {
        StrokeKeepsReleased(before, State(), event.key, event.code, env);
        ProcessEvent(event.(press := true), env);
        ProcessEvent(event, env);
      }
    }

    /** Releases every key, in whatever order the map yields them. What the peer
        then still holds are the codes that no remembered event stands for. */
    method ReleaseRemoteKeys(ghost codes: Codes, env: Env)
      requires Inv(State(), codes)
      modifies this
      ensures Released(old(State()), State(), env)
    {
      ghost var before := State();
      var rest := toRelease;
      toRelease := map[];
      ReleasingAll(before, env);
      while rest != map[]
        invariant rest.Keys <= before.toRelease.Keys && forall key | key in rest :: rest[key] == before.toRelease[key]
        invariant Releasing(before, State(), rest.Keys, env)
        decreases rest.Keys
      {
        var key :| key in rest;
        ghost var now := State();
        assert rest[key] == before.toRelease[key] && rest[key].key == key;
        ReleaseKey(rest[key].(press := false), env);
        ReleasingNext(before, now, State(), rest.Keys, key, env);
        rest := rest - {key};
      }
      assert rest.Keys == {};
      ReleasingNone(before, State(), env);
    }
  }

  /** Amid `release_remote_keys`: the keys of `rest` are not yet released. */
  ghost predicate Releasing(before: Keyboard, now: Keyboard, rest: set<Key>, env: Env) {
    && now.modifiers.Keys == MODIFIERS && (forall m | m in MODIFIERS && now.modifiers[m] :: m in rest)
    && now == before.(modifiers := now.modifiers, toRelease := map[], sent := now.sent)
    && Held(now.sent) == Held(before.sent) - Translations(before.toRelease - rest, env)
  }

  lemma ReleasingAll(before: Keyboard, env: Env)
    requires FlagsAgree(before)
    ensures Releasing(before, before.(toRelease := map[]), before.toRelease.Keys, env)
  {
    assert before.toRelease - before.toRelease.Keys == map[];
  }

  lemma ReleasingNext(before: Keyboard, now: Keyboard, next: Keyboard, rest: set<Key>, key: Key, env: Env)
    requires Releasing(before, now, rest, env) && key in rest && rest <= before.toRelease.Keys
    requires before.toRelease[key].key == key
    requires KeyReleased(now, next, key, before.toRelease[key].code, env)
    ensures Releasing(before, next, rest - {key}, env)
  {
    OneMoreReleased(before.toRelease, rest, key, env);
    assert next.modifiers.Keys == MODIFIERS;
  }

  lemma ReleasingNone(before: Keyboard, after: Keyboard, env: Env)
    requires Releasing(before, after, {}, env)
    ensures Released(before, after, env)
  {
    assert before.toRelease - {} == before.toRelease;
  }

  lemma OneMoreReleased(events: map<Key, Event>, rest: set<Key>, key: Key, env: Env)
    requires key in rest && key in events
    ensures Translations(events - (rest - {key}), env)
         == Translations(events - rest, env) + CodeOf(events[key].code, env)
  {
    var less, more := events - rest, events - (rest - {key});
    assert key in more && more[key] == events[key];
    assert forall k | k in more :: k == key || k in less;
    forall c | c in Translations(less, env) ensures c in Translations(more, env) {
      var k :| k in less && env.translate(less[k].code) == Some(c);
      assert k in more && more[k] == less[k];
    }
  }

  /** Nothing stays held exactly if every held code was remembered. */
  lemma ReleasedMeans(before: Keyboard, after: Keyboard, env: Env)
    requires Released(before, after, env)
    ensures Held(after.sent) == {} <==> Remembered(before, env)
  {
    forall c | c in Held(before.sent)
      ensures c in Held(after.sent) <==> c !in Translations(before.toRelease, env)
    {
    }
  }

  function Start(): Keyboard {
    Keyboard(map m | m in MODIFIERS :: false, map[], false, false, false, [])
  }

  // ---------------------------------------------------------------- runs

  datatype Step =
    | Grabbed(e: Event, eligible: bool) // the grab loop, with its filter
    | Direct(e: Event) // an event handed over by the session window
    | Hook // the window gets the keyboard
    | Leave // it loses the keyboard: everything is released
    | Relative(active: bool)

  /** `Leave` yields any state that `ReleaseRemoteKeys` may end in. */
  ghost predicate Next(k: Keyboard, step: Step, k': Keyboard, codes: Codes, env: Env) {
    match step
    case Grabbed(e, eligible) => Reported(e, codes) && k' == k.Grab(e, eligible, env)
    case Direct(e) => Reported(e, codes) && k' == k.Process(e, env)
    case Hook => k' == k.(hooked := true)
    case Leave => Released(k, k'.(hooked := k.hooked), env) && !k'.hooked
    case Relative(active) => k' == k.(relative := active, exitDown := active && k.exitDown)
  }

  ghost predicate IsRun(states: seq<Keyboard>, steps: seq<Step>, codes: Codes, env: Env) {
    && |states| == |steps| + 1 && states[0] == Start()
    && forall i | 0 <= i < |steps| :: Next(states[i], steps[i], states[i + 1], codes, env)
  }

  lemma NextKeeps(k: Keyboard, step: Step, k': Keyboard, codes: Codes, env: Env)
    requires Inv(k, codes) && Next(k, step, k', codes, env)
    ensures Inv(k', codes)
  {
    match step
    case Grabbed(e, eligible) => ProcessKeeps(k, e, codes, env);
    case Direct(e) => ProcessKeeps(k, e, codes, env);
    case _ =>
  }

  lemma NextRemembers(k: Keyboard, step: Step, k': Keyboard, codes: Codes, env: Env)
    requires Inv(k, codes) && Next(k, step, k', codes, env) && Alike(codes, env) && Remembered(k, env)
    ensures Remembered(k', env)
  {
    match step
    case Grabbed(e, eligible) => ProcessRemembers(k, e, codes, env);
    case Direct(e) => ProcessRemembers(k, e, codes, env);
    case Leave => ReleasedMeans(k, k'.(hooked := k.hooked), env);
    case _ =>
  }

  /** In every run, whatever codes the keys have and whatever is swallowed: a
      modifier's flag is set exactly when the modifier is in TO_RELEASE. */
  lemma {:induction false} FlagsAgreeInRun(
    states: seq<Keyboard>, steps: seq<Step>, codes: Codes, env: Env, i: nat)
    requires IsRun(states, steps, codes, env) && i < |states|
    ensures Inv(states[i], codes)
  {
    if i > 0 {
      FlagsAgreeInRun(states, steps, codes, env, i - 1);
      NextKeeps(states[i - 1], steps[i - 1], states[i], codes, env);
    }
  }

  lemma {:induction false} HeldKeysAreRemembered(
    states: seq<Keyboard>, steps: seq<Step>, codes: Codes, env: Env, i: nat)
    requires IsRun(states, steps, codes, env) && i < |states| && Alike(codes, env)
    ensures Remembered(states[i], env)
  {
    if i > 0 {
      HeldKeysAreRemembered(states, steps, codes, env, i - 1);
      FlagsAgreeInRun(states, steps, codes, env, i - 1);
      NextRemembers(states[i - 1], steps[i - 1], states[i], codes, env);
    }
  }

  /** A key pressed with one code and released with another that means
      something else to the peer. */
  lemma TwoCodes(key: Key, a: int, b: int, codes: Codes, env: Env) returns (states: seq<Keyboard>, steps: seq<Step>)
    requires a in codes(key) && b in codes(key)
    requires env.translate(a).Some? && env.translate(b) != env.translate(a)
    ensures IsRun(states, steps, codes, env) && |states| == 3
    ensures states[2].toRelease == map[] && Held(states[2].sent) == CodeOf(a, env) != {}
  {
    var press, release := Event(key, true, a), Event(key, false, b);
    var k1 := Start().Process(press, env);
    var k2 := k1.Process(release, env);
    states, steps := [Start(), k1, k2], [Direct(press), Direct(release)];
    ProcessHeld(Start(), press, env);
    ProcessHeld(k1, release, env);
    assert k2.toRelease == map[];
  }

  ghost predicate AlwaysRemembered(codes: Codes, env: Env) {
    forall states: seq<Keyboard>, steps: seq<Step>, i: nat |
      IsRun(states, steps, codes, env) && i < |states| :: Remembered(states[i], env)
  }

  /** Main result: in all runs, swallowed events included, every code that the
      peer holds is that of an event in TO_RELEASE, if and only if any two
      codes of one key mean the same to the peer. */
  lemma AlwaysRememberedIff(codes: Codes, env: Env)
    ensures AlwaysRemembered(codes, env) <==> Alike(codes, env)
  {
    if Alike(codes, env) {
      forall states: seq<Keyboard>, steps: seq<Step>, i: nat | IsRun(states, steps, codes, env) && i < |states|
        ensures Remembered(states[i], env)
      {
        HeldKeysAreRemembered(states, steps, codes, env, i);
      }
    } else {
      var key, a, b :| a in codes(key) && b in codes(key) && env.translate(a) != env.translate(b);
      var states, steps := TwoCodes(
        key, if env.translate(a).Some? then a else b, if env.translate(a).Some? then b else a, codes, env);
      assert !Remembered(states[2], env);
    }
  }

  ghost predicate AlwaysReleases(codes: Codes, env: Env) {
    forall states: seq<Keyboard>, steps: seq<Step>, i: nat, after: Keyboard |
      IsRun(states, steps, codes, env) && i < |states| && Released(states[i], after, env) :: Held(after.sent) == {}
  }

  /** A state in which `release_remote_keys` may end. */
  lemma SomeRelease(k: Keyboard, codes: Codes, env: Env) returns (after: Keyboard)
    requires Inv(k, codes)
    ensures Released(k, after, env)
  {
    var events := ReleaseEvents(k.toRelease, k.sent, env);
    after := k.(modifiers := map m | m in MODIFIERS :: false, toRelease := map[], sent := events);
  }

  lemma {:induction false} ReleaseEvents(events: map<Key, Event>, sent: seq<KeyEvent>, env: Env)
    returns (more: seq<KeyEvent>)
    ensures Held(more) == Held(sent) - Translations(events, env)
    decreases events.Keys
  {
    if events == map[] {
      more := sent;
    } else {
      var key :| key in events;
      var some := ReleaseEvents(events - {key}, sent, env);
      var code := env.translate(events[key].code);
      more := if code.Some? then some + [KeyEvent(code.value, false)] else some;
      if code.Some? { HeldNext(some, KeyEvent(code.value, false)); }
      OneMoreReleased(events, {key}, key, env);
      assert events - ({key} - {key}) == events;
    }
  }

  /** Main result: releasing everything leaves nothing held, after every run,
      under the same condition and no other. */
  lemma AlwaysReleasesIff(codes: Codes, env: Env)
    ensures AlwaysReleases(codes, env) <==> Alike(codes, env)
  {
    AlwaysRememberedIff(codes, env);
    if Alike(codes, env) {
      forall states: seq<Keyboard>, steps: seq<Step>, i: nat, after: Keyboard |
        IsRun(states, steps, codes, env) && i < |states| && Released(states[i], after, env)
        ensures Held(after.sent) == {}
      {
        ReleasedMeans(states[i], after, env);
      }
    } else {
      var states: seq<Keyboard>, steps: seq<Step>, i: nat :|
        IsRun(states, steps, codes, env) && i < |states| && !Remembered(states[i], env);
      FlagsAgreeInRun(states, steps, codes, env, i);
      var after := SomeRelease(states[i], codes, env);
      ReleasedMeans(states[i], after, env);
    }
  }

  // ---------------------------------------------------------------- AltGr on Windows

  /** Scan codes from Windows to Windows in map mode. */
  function WindowsToWindows(code: int): Option<int> {
    if code > 255 && code / 256 != 0xE0 then None else Some(code)
  }

  /** On layouts with AltGr, Windows reports a left Ctrl of its own, with scan
      code 0x021D. It takes the real left Ctrl out of TO_RELEASE: the peer holds
      Ctrl, its flag is off, and releasing everything does not release it. */
  lemma AltGrLosesControl()
    ensures var env := Env(WindowsToWindows, Windows);
            var k0 := Start().(hooked := true);
            var k1 := k0.Grab(Event(ControlLeft, true, 0x1D), false, env);
            var k2 := k1.Grab(Event(ControlLeft, true, 0x021D), false, env);
            var k3 := k2.Grab(Event(ControlLeft, false, 0x021D), false, env);
            && Held(k3.sent) == {0x1D} && k3.toRelease == map[] && !k3.Down(ControlLeft)
  {
    var env := Env(WindowsToWindows, Windows);
    var k0 := Start().(hooked := true);
    var k1 := k0.Process(Event(ControlLeft, true, 0x1D), env);
    CtrlIsProcessed(k0, Event(ControlLeft, true, 0x1D), env);
    CtrlIsProcessed(k1, Event(ControlLeft, true, 0x021D), env);
    CtrlIsProcessed(k1, Event(ControlLeft, false, 0x021D), env);
    assert CodeOf(0x1D, env) == {0x1D} && CodeOf(0x021D, env) == {};
    FalseRelease(k0, 0x1D, 0x021D, env);
  }

  /** Outside relative mouse mode the filter lets Ctrl through. */
  lemma CtrlIsProcessed(k: Keyboard, e: Event, env: Env)
    requires k.hooked && !k.relative && !k.exitDown && e.key == ControlLeft
    ensures k.Grab(e, false, env) == k.Process(e, env)
  {
  }

  lemma FalseRelease(k: Keyboard, code: int, other: int, env: Env)
    requires FlagsAgree(k) && k.toRelease == map[] && Held(k.sent) == {} && CodeOf(other, env) == {}
    ensures var k1 := k.Process(Event(ControlLeft, true, code), env);
            var k3 := k1.Process(Event(ControlLeft, false, other), env);
            && k1.Process(Event(ControlLeft, true, other), env) == k1
            && Held(k3.sent) == CodeOf(code, env) && k3.toRelease == map[] && !k3.Down(ControlLeft)
  {
    var k1 := k.Process(Event(ControlLeft, true, code), env);
    ProcessHeld(k, Event(ControlLeft, true, code), env);
    ProcessHeld(k1, Event(ControlLeft, false, other), env);
    assert k1.toRelease - {ControlLeft} == map[];
  }

  // ---------------------------------------------------------------- the filter and real releases

  /** Exactly when a key's release leaves the key where it was: the filter
      swallowed it. */
  lemma ReleaseSwallowedIff(k: Keyboard, e: Event, eligible: bool, env: Env)
    requires !e.press && e.key in k.toRelease
    requires k.hooked && !e.key.Unknown? && e.key !in {CapsLock, NumLock}
    ensures e.key in k.Grab(e, eligible, env).toRelease <==> k.Blocks(e, eligible, env.os)
    ensures k.Blocks(e, eligible, env.os) ==> k.Grab(e, eligible, env).sent == k.sent
  {
  }

  predicate EventOf(step: Step, key: Key, press: bool) {
    (step.Grabbed? || step.Direct?) && step.e.key == key && step.e.press == press
  }

  /** The event gets as far as the key states; the filter, a keyboard that is
      not hooked and keys that the loop leaves alone keep others from it. */
  predicate Delivered(k: Keyboard, step: Step, os: Platform) {
    || step.Direct?
    || (step.Grabbed?
        && !(os != Linux && step.e.key in {CapsLock, NumLock})
        && !(os == Linux && step.e.key.Unknown?)
        && !k.Blocks(step.e, step.eligible, os)
        && (os == Linux || k.hooked))
  }

  /** The last event of the key was a release, or there was none. */
  ghost predicate Up(steps: seq<Step>, i: nat, key: Key)
    requires i <= |steps|
  {
    forall p | 0 <= p < i && EventOf(steps[p], key, true) :: exists j :: p < j < i && EventOf(steps[j], key, false)
  }

  ghost predicate Ends(k: Keyboard, step: Step, key: Key, os: Platform) {
    step.Leave? || (EventOf(step, key, false) && Delivered(k, step, os))
  }

  /** A press was delivered at `p` and nothing has ended it. */
  ghost predicate PressStands(states: seq<Keyboard>, steps: seq<Step>, p: nat, i: nat, key: Key, os: Platform)
    requires p < i <= |steps| < |states|
  {
    && EventOf(steps[p], key, true) && Delivered(states[p], steps[p], os)
    && forall m | p < m < i :: !Ends(states[m], steps[m], key, os)
  }

  lemma ProcessRemembered(k: Keyboard, e: Event, key: Key, env: Env)
    requires FlagsAgree(k)
    ensures key in k.Process(e, env).toRelease
       <==> (e.key == key && e.press) || (key in k.toRelease && !(e.key == key && !e.press))
  {
  }

  lemma GrabRemembered(k: Keyboard, e: Event, eligible: bool, env: Env)
    ensures k.Grab(e, eligible, env).toRelease
         == if Delivered(k, Grabbed(e, eligible), env.os) then k.Process(e, env).toRelease else k.toRelease
  {
  }

  lemma RememberedAfter(k: Keyboard, step: Step, k': Keyboard, key: Key, codes: Codes, env: Env)
    requires Inv(k, codes) && Next(k, step, k', codes, env)
    ensures key in k'.toRelease
       <==> (EventOf(step, key, true) && Delivered(k, step, env.os))
            || (key in k.toRelease && !Ends(k, step, key, env.os))
  {
    match step
    case Grabbed(e, eligible) => GrabbedRemembered(k, e, eligible, key, env);
    case Direct(e) => ProcessRemembered(k, e, key, env);
    case _ =>
  }

  lemma GrabbedRemembered(k: Keyboard, e: Event, eligible: bool, key: Key, env: Env)
    requires FlagsAgree(k)
    ensures var step := Grabbed(e, eligible);
            key in k.Grab(e, eligible, env).toRelease
            <==> (EventOf(step, key, true) && Delivered(k, step, env.os))
                 || (key in k.toRelease && !Ends(k, step, key, env.os))
  {
    ProcessRemembered(k, e, key, env);
    GrabRemembered(k, e, eligible, env);
  }

  ghost predicate Standing(states: seq<Keyboard>, steps: seq<Step>, i: nat, key: Key, os: Platform)
    requires i <= |steps| < |states|
  {
    exists p :: 0 <= p < i && PressStands(states, steps, p, i, key, os)
  }

  /** In every run: a key is in TO_RELEASE exactly if a press of it stands. */
  lemma {:induction false} InToReleaseIff(
    states: seq<Keyboard>, steps: seq<Step>, codes: Codes, env: Env, i: nat, key: Key)
    requires IsRun(states, steps, codes, env) && i <= |steps|
    ensures key in states[i].toRelease <==> Standing(states, steps, i, key, env.os)
  {
    if i > 0 {
      var n := i - 1;
      InToReleaseIff(states, steps, codes, env, n, key);
      FlagsAgreeInRun(states, steps, codes, env, n);
      RememberedAfter(states[n], steps[n], states[i], key, codes, env);
      StandsLonger(states, steps, n, i, key, env.os);
    }
  }

  lemma StandsLonger(states: seq<Keyboard>, steps: seq<Step>, n: nat, i: nat, key: Key, os: Platform)
    requires i == n + 1 <= |steps| < |states|
    ensures Standing(states, steps, i, key, os)
       <==> (EventOf(steps[n], key, true) && Delivered(states[n], steps[n], os))
            || (Standing(states, steps, n, key, os) && !Ends(states[n], steps[n], key, os))
  {
    assert PressStands(states, steps, n, i, key, os)
      <==> EventOf(steps[n], key, true) && Delivered(states[n], steps[n], os);
    forall p | 0 <= p < n ensures StandsOn(states, steps, p, n, key, os) {
      OneStepOn(states, steps, p, n, key, os);
    }
    if Standing(states, steps, i, key, os) {
      var p :| 0 <= p < i && PressStands(states, steps, p, i, key, os);
      assert p < n ==> StandsOn(states, steps, p, n, key, os);
    }
    if Standing(states, steps, n, key, os) {
      var p :| 0 <= p < n && PressStands(states, steps, p, n, key, os);
      assert StandsOn(states, steps, p, n, key, os);
    }
  }

  ghost predicate StandsOn(states: seq<Keyboard>, steps: seq<Step>, p: nat, n: nat, key: Key, os: Platform)
    requires p < n < |steps| < |states|
  {
    PressStands(states, steps, p, n + 1, key, os)
    <==> PressStands(states, steps, p, n, key, os) && !Ends(states[n], steps[n], key, os)
  }

  lemma OneStepOn(states: seq<Keyboard>, steps: seq<Step>, p: nat, n: nat, key: Key, os: Platform)
    requires p < n < |steps| < |states|
    ensures StandsOn(states, steps, p, n, key, os)
  {
  }

  /** A release was withheld after a delivered press that still stands. */
  ghost predicate Withheld(states: seq<Keyboard>, steps: seq<Step>, i: nat, key: Key, os: Platform)
    requires i <= |steps| < |states|
  {
    exists p, j :: 0 <= p < j < i && PressStands(states, steps, p, i, key, os)
                   && EventOf(steps[j], key, false) && !Delivered(states[j], steps[j], os)
  }

  lemma UpIsRemembered(states: seq<Keyboard>, steps: seq<Step>, codes: Codes, env: Env, i: nat, key: Key)
    requires IsRun(states, steps, codes, env) && i <= |steps| && Up(steps, i, key)
    ensures key in states[i].toRelease <==> Withheld(states, steps, i, key, env.os)
  {
    InToReleaseIff(states, steps, codes, env, i, key);
    if Standing(states, steps, i, key, env.os) {
      var p :| 0 <= p < i && PressStands(states, steps, p, i, key, env.os);
      var j :| p < j < i && EventOf(steps[j], key, false);
      assert !Ends(states[j], steps[j], key, env.os);
    }
  }

  /** No code of the peer belongs to two keys. */
  ghost predicate Separate(codes: Codes, env: Env) {
    forall k1, k2, a, b | a in codes(k1) && b in codes(k2) && k1 != k2 ::
      env.translate(a) == None || env.translate(a) != env.translate(b)
  }

  lemma OtherKeysCode(events: map<Key, Event>, e: Event, key: Key, codes: Codes, env: Env)
    requires Separate(codes, env) && Presses(events, codes) && Reported(e, codes) && key in events && key != e.key
    ensures CodeOf(events[key].code, env) !! CodeOf(e.code, env)
  {
    assert events[key].code in codes(key) && e.code in codes(e.key);
  }

  lemma OtherKeysTranslations(events: map<Key, Event>, e: Event, codes: Codes, env: Env)
    requires Separate(codes, env) && Presses(events, codes) && Reported(e, codes)
    ensures Translations(events - {e.key}, env) <= Translations(events, env) - CodeOf(e.code, env)
  {
    var less := events - {e.key};
    forall c | c in Translations(less, env) ensures c in Translations(events, env) && c !in CodeOf(e.code, env) {
      var key :| key in less && env.translate(less[key].code) == Some(c);
      OtherKeysCode(events, e, key, codes, env);
      assert key in events && events[key] == less[key];
    }
  }

  lemma TranslationsShrinkExactly(events: map<Key, Event>, e: Event, codes: Codes, env: Env)
    requires Alike(codes, env) && Separate(codes, env) && Presses(events, codes) && Reported(e, codes)
    ensures Translations(events - {e.key}, env) == Translations(events, env) - CodeOf(e.code, env)
  {
    TranslationsShrink(events, e, codes, env);
    OtherKeysTranslations(events, e, codes, env);
  }

  lemma ProcessHeldExactly(k: Keyboard, e: Event, codes: Codes, env: Env)
    requires Inv(k, codes) && Reported(e, codes) && Alike(codes, env) && Separate(codes, env)
    requires Held(k.sent) == Translations(k.toRelease, env)
    ensures Held(k.Process(e, env).sent) == Translations(k.Process(e, env).toRelease, env)
  {
    ProcessHeld(k, e, env);
    if e.press {
      TranslationsGrow(k.toRelease, e, codes, env);
    } else {
      TranslationsShrinkExactly(k.toRelease, e, codes, env);
    }
  }

  /** When the codes of a key mean the same, and those of different keys do not,
      the peer holds exactly the keys in TO_RELEASE, in every run. */
  lemma {:induction false} HeldExactly(
    states: seq<Keyboard>, steps: seq<Step>, codes: Codes, env: Env, i: nat)
    requires IsRun(states, steps, codes, env) && i < |states| && Alike(codes, env) && Separate(codes, env)
    ensures Held(states[i].sent) == Translations(states[i].toRelease, env)
  {
    if i > 0 {
      HeldExactly(states, steps, codes, env, i - 1);
      FlagsAgreeInRun(states, steps, codes, env, i - 1);
      NextHeldExactly(states[i - 1], steps[i - 1], states[i], codes, env);
    }
  }

  lemma NextHeldExactly(k: Keyboard, step: Step, k': Keyboard, codes: Codes, env: Env)
    requires Inv(k, codes) && Next(k, step, k', codes, env) && Alike(codes, env) && Separate(codes, env)
    requires Held(k.sent) == Translations(k.toRelease, env)
    ensures Held(k'.sent) == Translations(k'.toRelease, env)
  {
    match step
    case Grabbed(e, eligible) => ProcessHeldExactly(k, e, codes, env);
    case Direct(e) => ProcessHeldExactly(k, e, codes, env);
    case _ =>
  }

  /** Main result: at any time of any run, the peer holds a key that is up at
      this end if and only if a release of it was withheld since its last
      delivered press, and neither a later release nor leaving made up for it. */
  lemma HeldWhileUpIff(
    states: seq<Keyboard>, steps: seq<Step>, codes: Codes, env: Env, i: nat, key: Key, code: int)
    requires IsRun(states, steps, codes, env) && i <= |steps| && Alike(codes, env) && Separate(codes, env)
    requires Up(steps, i, key) && code in codes(key) && env.translate(code).Some?
    ensures env.translate(code).value in Held(states[i].sent) <==> Withheld(states, steps, i, key, env.os)
  {
    HeldExactly(states, steps, codes, env, i);
    FlagsAgreeInRun(states, steps, codes, env, i);
    UpIsRemembered(states, steps, codes, env, i, key);
    CodeInTranslations(states[i].toRelease, codes, env, key, code);
  }

  lemma CodeInTranslations(events: map<Key, Event>, codes: Codes, env: Env, key: Key, code: int)
    requires Presses(events, codes) && Alike(codes, env) && Separate(codes, env)
    requires code in codes(key) && env.translate(code).Some?
    ensures env.translate(code).value in Translations(events, env) <==> key in events
  {
    var c := env.translate(code).value;
    if c in Translations(events, env) {
      var k :| k in events && env.translate(events[k].code) == Some(c);
      assert k == key;
    }
    if key in events { assert env.translate(events[key].code) == Some(c); }
  }

  /** Leaving relative mouse mode by Ctrl+Alt: Ctrl is pressed first and
      released first. Its release is swallowed in place of Alt's, so the peer
      still holds Ctrl when all keys are up, and gets an Alt release for an
      Alt press it never saw. */
  lemma ExitShortcutLeavesCtrlHeld(ctrl: int, alt: int, env: Env)
    requires env.os != MacOS
    requires env.translate(ctrl).Some? && env.translate(alt).Some? && env.translate(ctrl) != env.translate(alt)
    ensures var start := Start().(hooked := true, relative := true);
            var k1 := start.Grab(Event(ControlLeft, true, ctrl), true, env);
            var k2 := k1.Grab(Event(Alt, true, alt), true, env);
            var k3 := k2.Grab(Event(ControlLeft, false, ctrl), true, env);
            var k4 := k3.(relative := false, exitDown := false);
            var k5 := k4.Grab(Event(Alt, false, alt), true, env);
            && Held(k5.sent) == CodeOf(ctrl, env)
            && k5.toRelease.Keys == {ControlLeft} && k5.Down(ControlLeft)
  {
    var start := Start().(hooked := true, relative := true);
    CtrlFirst(start, ctrl, env);
    var k1 := start.Process(Event(ControlLeft, true, ctrl), env);
    AltThenCtrlSwallowed(k1, ctrl, alt, env);
    AltReleased(k1.(relative := false, exitDown := false), alt, env);
  }

  lemma CtrlFirst(start: Keyboard, ctrl: int, env: Env)
    requires env.os != MacOS && start == Start().(hooked := true, relative := true)
    ensures start.Grab(Event(ControlLeft, true, ctrl), true, env) == start.Process(Event(ControlLeft, true, ctrl), env)
    ensures var k1 := start.Process(Event(ControlLeft, true, ctrl), env);
            && k1 == start.(modifiers := k1.modifiers, toRelease := k1.toRelease, sent := k1.sent)
            && k1.toRelease.Keys == {ControlLeft} && k1.Down(ControlLeft) && Held(k1.sent) == CodeOf(ctrl, env)
  {
    ProcessHeld(start, Event(ControlLeft, true, ctrl), env);
  }

  /** Alt completes the shortcut; then the release of Ctrl is swallowed. */
  lemma AltThenCtrlSwallowed(k: Keyboard, ctrl: int, alt: int, env: Env)
    requires env.os != MacOS && k.hooked && k.relative && !k.exitDown && k.Down(ControlLeft)
    ensures k.Grab(Event(Alt, true, alt), true, env) == k.(exitDown := true)
    ensures k.(exitDown := true).Grab(Event(ControlLeft, false, ctrl), true, env) == k
  {
  }

  lemma AltReleased(k: Keyboard, alt: int, env: Env)
    requires env.os != MacOS && k.hooked && !k.relative && !k.exitDown && k.toRelease.Keys == {ControlLeft}
    ensures var k' := k.Grab(Event(Alt, false, alt), true, env);
            && Held(k'.sent) == Held(k.sent) - CodeOf(alt, env)
            && k'.toRelease.Keys == {ControlLeft} && k'.Down(ControlLeft) == k.Down(ControlLeft)
  {
    ProcessHeld(k, Event(Alt, false, alt), env);
  }

  // ---------------------------------------------------------------- what the filter and the repeats stop

  /** The modifiers that are down, and a key that joins them. */
  function Pressed(k: Keyboard, key: Key): set<Key> {
    (set m | m in MODIFIERS && k.Down(m)) + {key}
  }

  /** The shortcut that leaves relative mouse mode: Cmd+G on macOS, elsewhere any
      Ctrl and any Alt together, whichever of them came last. */
  lemma ShortcutMeans(k: Keyboard, key: Key, os: Platform)
    ensures k.ExitShortcut(key, os)
       <==> if os == MacOS then key == KeyG && Pressed(k, key) * {MetaLeft, MetaRight} != {}
            else key in {ControlLeft, ControlRight, Alt, AltGr}
                 && Pressed(k, key) * {ControlLeft, ControlRight} != {} && Pressed(k, key) * {Alt, AltGr} != {}
  {
    var down := Pressed(k, key);
    Meets(down, MetaLeft, MetaRight);
    Meets(down, ControlLeft, ControlRight);
    Meets(down, Alt, AltGr);
  }

  lemma Meets(down: set<Key>, a: Key, b: Key)
    ensures down * {a, b} != {} <==> a in down || b in down
  {
    if a in down { assert a in down * {a, b}; }
    if b in down { assert b in down * {a, b}; }
  }

  /** A press is swallowed exactly when it completes the shortcut in relative mouse
      mode of an eligible session; then the release of a key of the shortcut is
      swallowed, too, once, and nothing is sent. */
  lemma PressAndReleaseSwallowed(k: Keyboard, key: Key, later: Key, code: int, eligible: bool, env: Env)
    requires key !in {CapsLock, NumLock} && !key.Unknown?
    requires if env.os == MacOS then later == KeyG else later in {ControlLeft, ControlRight, Alt, AltGr}
    ensures var press, release := Event(key, true, code), Event(later, false, code);
            && (k.Blocks(press, eligible, env.os)
                <==> k.hooked && k.relative && eligible && k.ExitShortcut(key, env.os))
            && (k.Blocks(press, eligible, env.os) ==>
                  var k1 := k.Grab(press, eligible, env);
                  k1 == k.(exitDown := true) && k1.Grab(release, eligible, env) == k.(exitDown := false))
  {
  }

  /** A repeated press is dropped exactly for the eight modifiers, and no other
      key, in every run. */
  lemma RepeatDroppedIff(states: seq<Keyboard>, steps: seq<Step>, codes: Codes, env: Env, i: nat, e: Event)
    requires IsRun(states, steps, codes, env) && i < |states|
    ensures states[i].LongPress(e)
       <==> e.press && e.key in states[i].toRelease
            && e.key in {ShiftLeft, ShiftRight, ControlLeft, ControlRight, Alt, AltGr, MetaLeft, MetaRight}
  {
    FlagsAgreeInRun(states, steps, codes, env, i);
  }

  /** Delivered events are processed in full, others leave keys and messages alone. */
  lemma GrabMeans(k: Keyboard, e: Event, eligible: bool, env: Env)
    ensures var k' := k.Grab(e, eligible, env);
            if Delivered(k, Grabbed(e, eligible), env.os) then k' == k.Process(e, env)
            else k' == k.(exitDown := k'.exitDown)
  {
  }
}
