/** The service discovery monitor (Ex6_ServiceDiscovery/ServiceDiscoverySubscriber.cpp):
    a registry of the latest announcement per service name, a listing in name order with
    a colour per status, and a prune, on the user's command, of the services whose latest
    announcement is more than ten seconds old. */
module Discovery {
  import opened Samples
  import opened Ordering

  /** Ten seconds, in the nanoseconds the timestamps count. */
  const STALE_AFTER_NS: int := 10_000_000_000

  /** The prune's test: strictly more than ten seconds before `now`. */
  predicate IsStale(info: ServiceInfo, now: int) {
    now - info.timestamp > STALE_AFTER_NS
  }

  /** The registry after a prune at `now`. */
  ghost function Pruned(services: map<string, ServiceInfo>, now: int): (r: map<string, ServiceInfo>)
    ensures r.Keys <= services.Keys
    ensures forall n :: n in services ==> (n in r <==> !IsStale(services[n], now))
    ensures forall n :: n in r ==> r[n] == services[n]
  {
    map n | n in services && !IsStale(services[n], now) :: services[n]
  }

  lemma PruneIdempotent(services: map<string, ServiceInfo>, now: int)
    ensures Pruned(Pruned(services, now), now) == Pruned(services, now)
  {
  }

  /** An announcement exactly ten seconds old survives; one nanosecond older does not. */
  lemma PruneBoundary(services: map<string, ServiceInfo>, name: string, now: int)
    requires name in services
    ensures services[name].timestamp == now - STALE_AFTER_NS ==> name in Pruned(services, now)
    ensures services[name].timestamp == now - STALE_AFTER_NS - 1 ==> name !in Pruned(services, now)
  {
  }

  /** A fresh announcement protects its service from a prune that follows it. */
  lemma UpsertRefreshes(services: map<string, ServiceInfo>, info: ServiceInfo, now: int)
    requires now - info.timestamp <= STALE_AFTER_NS
    ensures info.serviceName in Pruned(services[info.serviceName := info], now)
    ensures Pruned(services[info.serviceName := info], now)[info.serviceName] == info
  {
  }

  /** The registry after a run of samples: each valid one overwrites its name's entry. */
  ghost function Upserted(services: map<string, ServiceInfo>, batch: seq<(ServiceInfo, SampleInfo)>): map<string, ServiceInfo>
    decreases |batch|
  {
    if batch == [] then services
    else
      var before := Upserted(services, batch[..|batch| - 1]);
      var (info, sample) := batch[|batch| - 1];
      if sample.validData then before[info.serviceName := info] else before
  }

  /** Receiving never removes a service. */
  lemma {:induction false} UpsertNeverRemoves(services: map<string, ServiceInfo>, batch: seq<(ServiceInfo, SampleInfo)>)
    ensures services.Keys <= Upserted(services, batch).Keys
    decreases |batch|
  {
    if batch != [] {
      UpsertNeverRemoves(services, batch[..|batch| - 1]);
    }
  }

  /** The colour `updateDisplay` gives a status. */
  datatype Colour = Red | Yellow | Green

  function StatusColour(status: string): (c: Colour)
    ensures c == Red <==> status == "ERROR"
    ensures c == Yellow <==> status == "BUSY"
  {
    if status == "ERROR" then Red
    else if status == "BUSY" then Yellow
    else Green
  }

  /** One service block of the listing. */
  datatype Row = Row(name: string, colour: Colour, info: ServiceInfo)

  /** What `updateDisplay` shows. */
  datatype Screen = NothingDiscovered | Listing(rows: seq<Row>)

  /** `discovered_services_`, owned by the subscriber and referred to by the listener. */
  class ServiceRegistry {
    var services: map<string, ServiceInfo>

    constructor ()
      ensures services == map[]
    {
      services := map[];
    }
  }

  /** The screen shows one block per service, in name order, coloured by status. */
  ghost predicate ShowsRegistry(screen: Screen, services: map<string, ServiceInfo>) {
    if services == map[] then screen == NothingDiscovered
    else
      && screen.Listing?
      && SortedNames(seq(|screen.rows|, k requires 0 <= k < |screen.rows| => screen.rows[k].name))
      && (forall n :: n in services <==> exists k :: 0 <= k < |screen.rows| && screen.rows[k].name == n)
      && (forall k :: 0 <= k < |screen.rows| ==>
            && screen.rows[k].name in services
            && screen.rows[k].info == services[screen.rows[k].name]
            && screen.rows[k].colour == StatusColour(services[screen.rows[k].name].status))
  }

  class ServiceListener {
    const registry: ServiceRegistry

    constructor (registry: ServiceRegistry)
      ensures this.registry == registry
    {
      this.registry := registry;
    }

    /** `updateDisplay`. */
    method UpdateDisplay() returns (screen: Screen)
      ensures ShowsRegistry(screen, registry.services)
    {
      if registry.services == map[] {
        return NothingDiscovered;
      }
      var names := AscendingNames(registry.services.Keys);
      var rows: seq<Row> := [];
      var i := 0;
      while i < |names|
        invariant 0 <= i <= |names| && |rows| == i
        invariant forall k :: 0 <= k < i ==>
          rows[k] == Row(names[k], StatusColour(registry.services[names[k]].status), registry.services[names[k]])
      {
        var info := registry.services[names[i]];
        rows := rows + [Row(names[i], StatusColour(info.status), info)];
        i := i + 1;
      }
      screen := Listing(rows);
      assert seq(|rows|, k requires 0 <= k < |rows| => rows[k].name) == names;
      forall n | n in registry.services
        ensures exists k :: 0 <= k < |rows| && rows[k].name == n
      {
        var k :| 0 <= k < |names| && names[k] == n;
        assert rows[k].name == n;
      }
    }

    /** The body of the `take_next_sample` loop for a valid sample: upsert by name, redraw. */
    method Receive(info: ServiceInfo) returns (screen: Screen)
      modifies registry
      ensures registry.services == old(registry.services)[info.serviceName := info]
      ensures |registry.services| <= |old(registry.services)| + 1
      ensures ShowsRegistry(screen, registry.services)
    {
      registry.services := registry.services[info.serviceName := info];
      screen := UpdateDisplay();
    }

    /** `on_data_available`: every sample the reader hands over. */
    method OnDataAvailable(batch: seq<(ServiceInfo, SampleInfo)>)
      modifies registry
      ensures registry.services == Upserted(old(registry.services), batch)
    {
      var i := 0;
      while i < |batch|
        invariant 0 <= i <= |batch|
        invariant registry.services == Upserted(old(registry.services), batch[..i])
      {
        assert batch[..i + 1][..i] == batch[..i];
        if batch[i].1.validData {
          var _ := Receive(batch[i].0);
        }
        i := i + 1;
      }
      assert batch[..i] == batch;
    }
  }

  /** The 'c' command's loop: walk the map in name order, erasing stale entries. */
  method PruneLoop(services: map<string, ServiceInfo>, now: int) returns (kept: map<string, ServiceInfo>, removed: seq<string>)
    ensures kept == Pruned(services, now)
    ensures SortedNames(removed)
    ensures forall n :: n in removed <==> n in services && IsStale(services[n], now)
  {
    kept, removed := services, [];
    var rest := services.Keys;
    while rest != {}
      invariant rest <= services.Keys && kept.Keys <= services.Keys
      invariant forall n :: n in kept ==> kept[n] == services[n]
      invariant forall n :: n in services ==> (n in kept <==> n in rest || !IsStale(services[n], now))
      invariant forall n :: n in removed <==> n in services && n !in rest && IsStale(services[n], now)
      invariant SortedNames(removed)
      invariant forall k, y :: 0 <= k < |removed| && y in rest ==> LexLess(removed[k], y)
      decreases rest
    {
      // the iterator's next key: the least one not yet visited
      var name := LeastName(rest);
      if IsStale(services[name], now) {
        removed := removed + [name];
        kept := kept - {name};
      }
      rest := rest - {name};
    }
    assert kept.Keys == Pruned(services, now).Keys;
  }

  /** What the input loop does with one command. */
  datatype Outcome = Shown(screen: Screen) | Pruning(removed: seq<string>, screen: Screen) | Stopped | Invalid

  class ServiceDiscoverySubscriber {
    const registry: ServiceRegistry
    var listener: ServiceListener?
    var running: bool

    ghost predicate Valid()
      reads this, listener
    {
      listener != null ==> listener.registry == registry
    }

    constructor ()
      ensures Valid() && fresh(registry)
      ensures registry.services == map[] && listener == null && running
    {
      registry := new ServiceRegistry();
      listener := null;
      running := true;
    }

    /** `init`, with the outcome of each library call as a parameter. */
    method Init(participantOk: bool, topicOk: bool, subscriberOk: bool, readerOk: bool) returns (ok: bool)
      requires Valid()
      modifies this`listener
      ensures Valid()
      ensures ok <==> participantOk && topicOk && subscriberOk && readerOk
      ensures participantOk && topicOk && subscriberOk ==> listener != null && fresh(listener)
      ensures !(participantOk && topicOk && subscriberOk) ==> listener == old(listener)
    {
      if !participantOk || !topicOk || !subscriberOk {
        return false;
      }
      listener := new ServiceListener(registry);
      ok := readerOk;
    }

    /** The 'c' command on the registry. */
    method PruneStale(now: int) returns (removed: seq<string>)
      modifies registry
      ensures registry.services == Pruned(old(registry.services), now)
      ensures SortedNames(removed)
      ensures forall n :: n in removed <==> n in old(registry.services) && IsStale(old(registry.services)[n], now)
    {
      registry.services, removed := PruneLoop(registry.services, now);
    }

    /** One command of the input loop. */
    method HandleCommand(cmd: char, now: int) returns (outcome: Outcome)
      requires Valid() && listener != null
      modifies registry, this`running
      ensures Valid()
      ensures (cmd == 'l' || cmd == 'L') ==>
        && registry.services == old(registry.services) && running == old(running)
        && outcome.Shown? && ShowsRegistry(outcome.screen, registry.services)
      ensures (cmd == 'c' || cmd == 'C') ==>
        && registry.services == Pruned(old(registry.services), now) && running == old(running)
        && outcome.Pruning? && ShowsRegistry(outcome.screen, registry.services)
        && SortedNames(outcome.removed)
        && forall n :: n in outcome.removed <==> n in old(registry.services) && IsStale(old(registry.services)[n], now)
      ensures (cmd == 'q' || cmd == 'Q') ==> !running && outcome == Stopped
      ensures cmd !in "lLcC" ==> registry.services == old(registry.services)
      ensures cmd !in "lLcCqQ" ==> running == old(running) && outcome == Invalid
    {
      match cmd
      case 'l' =>
        var screen := listener.UpdateDisplay();
        outcome := Shown(screen);
      case 'L' =>
        var screen := listener.UpdateDisplay();
        outcome := Shown(screen);
      case 'c' =>
        var removed := PruneStale(now);
        var screen := listener.UpdateDisplay();
        outcome := Pruning(removed, screen);
      case 'C' =>
        var removed := PruneStale(now);
        var screen := listener.UpdateDisplay();
        outcome := Pruning(removed, screen);
      case 'q' =>
        running := false;
        outcome := Stopped;
      case 'Q' =>
        running := false;
        outcome := Stopped;
      case _ =>
        outcome := Invalid;
    }
  }
}
