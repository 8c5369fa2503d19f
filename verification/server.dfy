/** Which connection receives from which service: `Server` in src/server.rs and
    the subscriber sets of src/server/service.rs. */
module ServerSubscriptions {
  type ConnId = int

  // ---------------------------------------------------------------- service names

  datatype Source = Monitor | Camera

  function Prefix(source: Source): string {
    if source.Monitor? then "monitor" else "camera"
  }

  function Decimal(n: nat): string {
    if n < 10 then [(48 + n) as char] else Decimal(n / 10) + [(48 + n % 10) as char]
  }

  function ServiceName(source: Source, display: nat): string { Prefix(source) + Decimal(display) }

  predicate IsVideo(name: string) { Prefix(Monitor) <= name || Prefix(Camera) <= name }

  function NumberOf(digits: string): int {
    if digits == [] then 0 else 10 * NumberOf(digits[..|digits| - 1]) + digits[|digits| - 1] as int - 48
  }

  lemma {:induction false} NumberOfDecimal(n: nat)
    ensures NumberOf(Decimal(n)) == n
  {
    if n < 10 {
      assert Decimal(n)[..0] == [];
    } else {
      NumberOfDecimal(n / 10);
      assert Decimal(n)[..|Decimal(n)| - 1] == Decimal(n / 10);
    }
  }

  /** Two displays never share a service. */
  lemma ServiceNameInjective(s1: Source, d1: nat, s2: Source, d2: nat)
    ensures IsVideo(ServiceName(s1, d1))
    ensures ServiceName(s1, d1) == ServiceName(s2, d2) <==> s1 == s2 && d1 == d2
  {
    var n1, n2 := ServiceName(s1, d1), ServiceName(s2, d2);
    assert n1[|Prefix(s1)|..] == Decimal(d1) && n2[|Prefix(s2)|..] == Decimal(d2);
    NumberOfDecimal(d1);
    NumberOfDecimal(d2);
    assert n1[0] == Prefix(s1)[0] && n2[0] == Prefix(s2)[0];
  }

  // ---------------------------------------------------------------- one service

  /** Subscribers that already got a snapshot, and those still waiting for one. */
  datatype Service = Service(needSnapshot: bool, subscribes: set<ConnId>, newSubscribes: set<ConnId>) {
    predicate Subed(id: ConnId) { id in subscribes || id in newSubscribes }

    ghost predicate Valid() {
      subscribes !! newSubscribes && (!needSnapshot ==> newSubscribes == {})
    }

    function OnSubscribe(id: ConnId): Service {
      if id in subscribes then this
      else if needSnapshot then this.(newSubscribes := newSubscribes + {id})
      else this.(subscribes := subscribes + {id})
    }

    /** Looks among the waiting only when it finds nothing among the others. */
    function OnUnsubscribe(id: ConnId): Service {
      if id in subscribes then this.(subscribes := subscribes - {id})
      else this.(newSubscribes := newSubscribes - {id})
    }

    /** `swap_new_subscribes`, after the snapshot was sent. */
    function Swapped(): Service {
      this.(subscribes := subscribes + newSubscribes, newSubscribes := {})
    }
  }

  /** The two sets differ at most in `id`. */
  ghost predicate SameForOthers(s: Service, s': Service, id: ConnId) {
    && s'.needSnapshot == s.needSnapshot
    && s'.subscribes - {id} == s.subscribes - {id}
    && s'.newSubscribes - {id} == s.newSubscribes - {id}
  }

  lemma OnSubscribeMeans(s: Service, id: ConnId)
    requires s.Valid()
    ensures s.OnSubscribe(id).Valid() && s.OnSubscribe(id).Subed(id)
    ensures SameForOthers(s, s.OnSubscribe(id), id)
    ensures s.Subed(id) ==> s.OnSubscribe(id) == s
  {
  }

  /** This needs the sets to be disjoint: an id in both would stay subscribed. */
  lemma OnUnsubscribeMeans(s: Service, id: ConnId)
    ensures !s.OnUnsubscribe(id).Subed(id) <==> !(id in s.subscribes && id in s.newSubscribes)
    ensures s.Valid() ==> s.OnUnsubscribe(id).Valid()
    ensures SameForOthers(s, s.OnUnsubscribe(id), id)
    ensures !s.Subed(id) ==> s.OnUnsubscribe(id) == s
  {
  }

  /** A snapshot ends the waiting and changes nobody's subscription. */
  lemma SwappedMeans(s: Service, id: ConnId)
    requires s.Valid()
    ensures s.Swapped().Valid() && s.Swapped().newSubscribes == {}
    ensures s.Swapped().Subed(id) <==> s.Subed(id)
  {
  }

  // ---------------------------------------------------------------- all services

  type Services = map<string, Service>

  ghost predicate AllValid(services: Services) {
    forall name | name in services :: services[name].Valid()
  }

  /** The existing services, whatever their names, that `id` gets from. */
  function Subscriptions(services: Services, id: ConnId): set<string> {
    set name | name in services && services[name].Subed(id)
  }

  function VideoNames(services: Services): set<string> {
    set name | name in services && IsVideo(name)
  }

  /** `subscribe` on one service. */
  function Subscribed(s: Service, id: ConnId, sub: bool): Service {
    if s.Subed(id) == sub then s else if sub then s.OnSubscribe(id) else s.OnUnsubscribe(id)
  }

  /** What `capture_displays` does to the service with this name. */
  function Captured(s: Service, name: string, id: ConnId, requested: set<string>, incl: bool, excl: bool): Service {
    if !IsVideo(name) then s
    else if name in requested then if incl then Subscribed(s, id, true) else s
    else if excl then Subscribed(s, id, false) else s
  }

  /** What `add_connection` does to the service with this name. */
  function Joined(s: Service, name: string, id: ConnId, noperms: set<string>, primary: nat): Service {
    if (IsVideo(name) && name != ServiceName(Monitor, primary)) || name in noperms then s else s.OnSubscribe(id)
  }

  function Requested(source: Source, displays: seq<nat>): set<string> {
    set d | d in displays :: ServiceName(source, d)
  }

  lemma OneLess(wanted: set<string>, rest: set<string>, name: string)
    requires name in rest
    ensures |wanted - (rest - {name})| == |wanted - rest| + if name in wanted then 1 else 0
  {
    if name in wanted {
      assert wanted - (rest - {name}) == (wanted - rest) + {name};
    } else {
      assert wanted - (rest - {name}) == wanted - rest;
    }
  }

  class Server {
    var services: Services
    var connections: set<ConnId>

    constructor ()
      ensures services == map[] && connections == {}
    {
      services, connections := map[], {};
    }

    method AddService(name: string, needSnapshot: bool)
      modifies this
      ensures services == old(services)[name := Service(needSnapshot, {}, {})] && connections == old(connections)
    {
      services := services[name := Service(needSnapshot, {}, {})];
    }

    method Subscribe(name: string, id: ConnId, sub: bool)
      modifies this
      ensures connections == old(connections)
      ensures services == if name in old(services) then old(services)[name := Subscribed(old(services)[name], id, sub)]
                          else old(services)
    {
      if name in services {
        if services[name].Subed(id) == sub { return; }
        services := services[name := if sub then services[name].OnSubscribe(id) else services[name].OnUnsubscribe(id)];
      }
    }

    /** The end of a snapshot in the service's own thread. */
    method SwapNewSubscribes(name: string)
      modifies this
      ensures connections == old(connections)
      ensures services == if name in old(services) then old(services)[name := old(services)[name].Swapped()]
                          else old(services)
    {
      if name in services { services := services[name := services[name].Swapped()]; }
    }

    method AddConnection(id: ConnId, noperms: set<string>, primary: nat)
      modifies this
      ensures connections == old(connections) + {id}
      ensures services == map name | name in old(services) :: Joined(old(services)[name], name, id, noperms, primary)
    {
      var rest := services.Keys;
      while rest != {}
        invariant rest <= services.Keys == old(services).Keys && connections == old(connections)
        invariant forall name | name in services ::
                    services[name] == if name in rest then old(services)[name]
                                      else Joined(old(services)[name], name, id, noperms, primary)
        decreases rest
      {
        var name :| name in rest;
        rest := rest - {name};
        if IsVideo(name) && name != ServiceName(Monitor, primary) { continue; }
        if name !in noperms { services := services[name := services[name].OnSubscribe(id)]; }
      }
      connections := connections + {id};
    }

    method RemoveConnection(id: ConnId)
      modifies this
      ensures connections == old(connections) - {id}
      ensures services == map name | name in old(services) :: old(services)[name].OnUnsubscribe(id)
    {
      var rest := services.Keys;
      while rest != {}
        invariant rest <= services.Keys == old(services).Keys && connections == old(connections)
        invariant forall name | name in services ::
                    services[name] == if name in rest then old(services)[name]
                                      else old(services)[name].OnUnsubscribe(id)
        decreases rest
      {
        var name :| name in rest;
        rest := rest - {name};
        services := services[name := services[name].OnUnsubscribe(id)];
      }
      connections := connections - {id};
    }

    /** The order of the names does not show in the result. */
    method CaptureDisplays(id: ConnId, source: Source, displays: seq<nat>, incl: bool, excl: bool)
      modifies this
      ensures connections == old(connections)
      ensures services == map name | name in old(services) ::
                            Captured(old(services)[name], name, id, Requested(source, displays), incl, excl)
    {
      var requested := Requested(source, displays);
      var rest := services.Keys;
      while rest != {}
        invariant rest <= services.Keys == old(services).Keys && connections == old(connections)
        invariant forall name | name in services ::
                    services[name] == if name in rest then old(services)[name]
                                      else Captured(old(services)[name], name, id, requested, incl, excl)
        decreases rest
      {
        var name :| name in rest;
        rest := rest - {name};
        if IsVideo(name) {
          if name in requested {
            if incl { Subscribe(name, id, true); }
          } else {
            if excl { Subscribe(name, id, false); }
          }
        }
      }
    }

    method GetSubbedDisplaysCount(id: ConnId) returns (count: nat)
      ensures count == |Subscriptions(services, id) * VideoNames(services)|
    {
      count := 0;
      var rest := services.Keys;
      ghost var wanted := Subscriptions(services, id) * VideoNames(services);
      while rest != {}
        invariant rest <= services.Keys
        invariant count == |wanted - rest|
        decreases rest
      {
        var name :| name in rest;
        assert name in wanted <==> IsVideo(name) && services[name].Subed(id);
        OneLess(wanted, rest, name);
        if IsVideo(name) && services[name].Subed(id) { count := count + 1; }
        rest := rest - {name};
      }
      assert wanted - {} == wanted;
    }
  }

  // ---------------------------------------------------------------- what the operations mean

  /** The services after `CaptureDisplays`. */
  function AfterCapture(services: Services, id: ConnId, requested: set<string>, incl: bool, excl: bool): Services {
    map name | name in services :: Captured(services[name], name, id, requested, incl, excl)
  }

  /** Main result: the video services of the connection are exactly the
      requested ones that exist (both flags), the old ones and those (include
      only), or the old ones among the requested (exclude only). */
  lemma CaptureMeans(services: Services, id: ConnId, requested: set<string>, incl: bool, excl: bool)
    requires AllValid(services)
    ensures var before := Subscriptions(services, id) * VideoNames(services);
            var after := Subscriptions(AfterCapture(services, id, requested, incl, excl), id) * VideoNames(services);
            && (incl && excl ==> after == requested * VideoNames(services))
            && (incl && !excl ==> after == before + requested * VideoNames(services))
            && (!incl && excl ==> after == before * requested)
            && (!incl && !excl ==> after == before)
  {
    forall name | name in services
      ensures Captured(services[name], name, id, requested, incl, excl).Subed(id)
        == if !IsVideo(name) then services[name].Subed(id)
           else if name in requested then incl || services[name].Subed(id)
           else !excl && services[name].Subed(id)
    {
      OnSubscribeMeans(services[name], id);
      OnUnsubscribeMeans(services[name], id);
    }
  }

  /** Nothing else changes: not the set of services, not the services without
      video, not the subscriptions of other connections. */
  lemma CaptureFrame(services: Services, id: ConnId, requested: set<string>, incl: bool, excl: bool, name: string)
    requires AllValid(services) && name in services
    ensures var after := AfterCapture(services, id, requested, incl, excl);
            && after.Keys == services.Keys
            && (!IsVideo(name) ==> after[name] == services[name])
            && SameForOthers(services[name], after[name], id)
            && after[name].Valid()
  {
    OnSubscribeMeans(services[name], id);
    OnUnsubscribeMeans(services[name], id);
  }

  /** The main result by displays: with both flags a connection then gets
      exactly the displays it asked for, of that source, that have a service. */
  lemma CapturedDisplays(services: Services, id: ConnId, source: Source, displays: seq<nat>, s: Source, d: nat)
    requires AllValid(services) && ServiceName(s, d) in services
    ensures AfterCapture(services, id, Requested(source, displays), true, true)[ServiceName(s, d)].Subed(id)
            <==> s == source && d in displays
  {
    var name, requested := ServiceName(s, d), Requested(source, displays);
    CaptureMeans(services, id, requested, true, true);
    ServiceNameInjective(s, d, s, d);
    assert name in requested <==> s == source && d in displays by {
      forall e | e in displays ensures ServiceName(source, e) == name <==> s == source && e == d {
        ServiceNameInjective(source, e, s, d);
      }
    }
    var after := AfterCapture(services, id, requested, true, true);
    assert name in Subscriptions(after, id) * VideoNames(services) <==> name in requested * VideoNames(services);
  }

  /** A new connection gets from every service it may, except the video
      services that are not the primary display's. */
  lemma JoinedMeans(services: Services, id: ConnId, noperms: set<string>, primary: nat)
    requires AllValid(services) && Subscriptions(services, id) == {}
    ensures var after := map name | name in services :: Joined(services[name], name, id, noperms, primary);
            && Subscriptions(after, id)
               == set name | name in services && name !in noperms
                             && (IsVideo(name) ==> name == ServiceName(Monitor, primary))
            && AllValid(after)
            && forall name | name in services :: SameForOthers(services[name], after[name], id)
  {
    forall name | name in services
      ensures services[name].OnSubscribe(id).Valid() && services[name].OnSubscribe(id).Subed(id)
      ensures SameForOthers(services[name], services[name].OnSubscribe(id), id)
      ensures !services[name].Subed(id)
    {
      OnSubscribeMeans(services[name], id);
      assert name !in Subscriptions(services, id);
    }
  }

  // ---------------------------------------------------------------- runs

  datatype Op =
    | NewService(name: string, needSnapshot: bool)
    | Subscribing(name: string, id: ConnId, sub: bool)
    | Adding(id: ConnId, noperms: set<string>, primary: nat)
    | Removing(id: ConnId)
    | Capturing(id: ConnId, source: Source, displays: seq<nat>, incl: bool, excl: bool)
    | Snapshot(name: string)

  function Apply(services: Services, op: Op): Services {
    match op
    case NewService(name, needSnapshot) => services[name := Service(needSnapshot, {}, {})]
    case Subscribing(name, id, sub) =>
      if name in services then services[name := Subscribed(services[name], id, sub)] else services
    case Adding(id, noperms, primary) =>
      map name | name in services :: Joined(services[name], name, id, noperms, primary)
    case Removing(id) => map name | name in services :: services[name].OnUnsubscribe(id)
    case Capturing(id, source, displays, incl, excl) =>
      AfterCapture(services, id, Requested(source, displays), incl, excl)
    case Snapshot(name) => if name in services then services[name := services[name].Swapped()] else services
  }

  function Run(ops: seq<Op>): Services {
    if ops == [] then map[] else Apply(Run(ops[..|ops| - 1]), ops[|ops| - 1])
  }

  /** Any sequence of calls of the server is such a run. */
  method Perform(server: Server, ops: seq<Op>)
    requires server.services == map[]
    modifies server
    ensures server.services == Run(ops)
  {
    for i := 0 to |ops|
      invariant server.services == Run(ops[..i])
    {
      assert ops[..i + 1][..i] == ops[..i];
      match ops[i]
      case NewService(name, needSnapshot) => server.AddService(name, needSnapshot);
      case Subscribing(name, id, sub) => server.Subscribe(name, id, sub);
      case Adding(id, noperms, primary) => server.AddConnection(id, noperms, primary);
      case Removing(id) => server.RemoveConnection(id);
      case Capturing(id, source, displays, incl, excl) => server.CaptureDisplays(id, source, displays, incl, excl);
      case Snapshot(name) => server.SwapNewSubscribes(name);
    }
    assert ops[..|ops|] == ops;
  }

  /** The operation may subscribe the connection. */
  predicate MaySubscribe(op: Op, id: ConnId) {
    (op.Subscribing? || op.Adding? || op.Capturing?) && op.id == id
  }

  lemma ApplyKeeps(services: Services, op: Op, id: ConnId)
    requires AllValid(services)
    ensures AllValid(Apply(services, op))
    ensures op == Removing(id) || (Subscriptions(services, id) == {} && !MaySubscribe(op, id))
            ==> Subscriptions(Apply(services, op), id) == {}
  {
    forall name | name in services
      ensures services[name].Swapped().Valid() && (services[name].Swapped().Subed(id) <==> services[name].Subed(id))
    {
      SwappedMeans(services[name], id);
    }
    if op.Subscribing? || op.Adding? || op.Removing? || op.Capturing? {
      forall name | name in services
        ensures services[name].OnSubscribe(op.id).Valid() && services[name].OnUnsubscribe(op.id).Valid()
        ensures !services[name].OnUnsubscribe(op.id).Subed(op.id)
        ensures SameForOthers(services[name], services[name].OnSubscribe(op.id), op.id)
        ensures SameForOthers(services[name], services[name].OnUnsubscribe(op.id), op.id)
      {
        OnSubscribeMeans(services[name], op.id);
        OnUnsubscribeMeans(services[name], op.id);
      }
    }
    forall name | name in services ensures services[name].Subed(id) <==> name in Subscriptions(services, id) {
    }
  }

  lemma {:induction false} RunValid(ops: seq<Op>)
    ensures AllValid(Run(ops))
  {
    if ops != [] {
      RunValid(ops[..|ops| - 1]);
      ApplyKeeps(Run(ops[..|ops| - 1]), ops[|ops| - 1], 0);
    }
  }

  /** Main result: in any run, from the removal of a connection until something
      subscribes it again, no service holds it, waiting for a snapshot or not. */
  lemma {:induction false} RemovedStaysOut(ops: seq<Op>, i: nat, id: ConnId)
    requires i < |ops| && ops[i] == Removing(id)
    requires forall k | i < k < |ops| :: !MaySubscribe(ops[k], id)
    ensures Subscriptions(Run(ops), id) == {}
  {
    var n := |ops| - 1;
    RunValid(ops[..n]);
    ApplyKeeps(Run(ops[..n]), ops[n], id);
    if i < n { RemovedStaysOut(ops[..n], i, id); }
  }

  // ---------------------------------------------------------------- snapshots come first

  /** The operation replaces the service or takes its snapshot. */
  predicate Resets(op: Op, name: string) {
    op == Snapshot(name) || (op.NewService? && op.name == name)
  }

  lemma WaitsThroughOne(services: Services, op: Op, name: string, id: ConnId)
    requires name in services && services[name].needSnapshot && id !in services[name].subscribes && !Resets(op, name)
    ensures var after := Apply(services, op);
            name in after && after[name].needSnapshot && id !in after[name].subscribes
  {
  }

  /** Main result: a connection that did not get from a service that needs a
      snapshot gets nothing from it, whatever it subscribes, until the next
      snapshot; where none is needed, nobody ever waits. */
  lemma {:induction false} WaitsForSnapshot(ops: seq<Op>, i: nat, name: string, id: ConnId)
    requires i <= |ops| && name in Run(ops[..i]) && Run(ops[..i])[name].needSnapshot
    requires id !in Run(ops[..i])[name].subscribes
    requires forall k | i <= k < |ops| :: !Resets(ops[k], name)
    ensures name in Run(ops) && Run(ops)[name].needSnapshot && id !in Run(ops)[name].subscribes
  {
    if i == |ops| {
      assert ops[..i] == ops;
    } else {
      var n := |ops| - 1;
      assert ops[..n][..i] == ops[..i];
      WaitsForSnapshot(ops[..n], i, name, id);
      WaitsThroughOne(Run(ops[..n]), ops[n], name, id);
    }
  }

  lemma NobodyWaits(ops: seq<Op>, name: string, id: ConnId)
    requires name in Run(ops) && !Run(ops)[name].needSnapshot
    ensures Run(ops)[name].newSubscribes == {}
    ensures Run(ops)[name].OnSubscribe(id).subscribes == Run(ops)[name].subscribes + {id}
  {
    RunValid(ops);
  }

  /** Which services count as video, by their names' first letters. */
  lemma VideoByName(name: string)
    ensures IsVideo(name)
       <==> (|name| >= 7 && name[..7] == "monitor") || (|name| >= 6 && name[..6] == "camera")
  {
  }

  lemma SomeServiceNames()
    ensures ServiceName(Monitor, 0) == "monitor0" && ServiceName(Camera, 12) == "camera12"
    ensures ServiceName(Monitor, 305) == "monitor305"
  {
    assert Decimal(12) == Decimal(1) + "2";
    assert Decimal(305) == Decimal(30) + "5";
    assert Decimal(30) == Decimal(3) + "0";
  }
}
