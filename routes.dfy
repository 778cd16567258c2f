/**
 * The route builder: each raw route record is named (its own `name`, or
 * "{network_name}-route-{i}" from its input position), the records are collected into an
 * insertion-ordered dictionary by that name, and one route descriptor is appended per entry.
 */
module Routes {
  import opened Wrappers
  import opened Raw
  import opened Text
  import OrderedMap

  /** The only gateway a route can be given. */
  const InternetGateway := "default-internet-gateway"

  /** The arguments of one `gcp.compute.Route(...)` call; `Null` stands for an absent argument. */
  datatype Route = Route(
    resourceName: string,
    project: string,
    network: string,
    name: Value,
    description: Value,
    tags: seq<string>,
    destRange: Value,
    nextHopGateway: Option<string>,
    nextHopIp: Value,
    nextHopInstance: Value,
    nextHopInstanceZone: Value,
    nextHopVpnTunnel: Value,
    nextHopIlb: Value,
    priority: Value)

  /** The name derived for an unnamed route at input position `i`. */
  function DerivedName(networkName: string, i: nat): string {
    networkName + "-route-" + NatToString(i)
  }

  /** `route.get("name", f"{network_name}-route-{i}")`. */
  function RouteName(networkName: string, i: nat, route: Record): (name: Value)
    ensures "name" in route ==> name == route["name"]
    ensures "name" !in route ==> name == Str(DerivedName(networkName, i))
  {
    Get(route, "name", Str(DerivedName(networkName, i)))
  }

  function NamedPair(networkName: string, i: nat, route: Record): Result<(Value, Record)> {
    var name := RouteName(networkName, i, route);
    if Hashable(name) then Ok((name, route)) else Err(UnhashableKey)
  }

  /** The name and record of each route, in input order. */
  function NamedPairs(networkName: string, routes: seq<Record>): Result<seq<(Value, Record)>> {
    MapWithIndex(routes, (i, route) => NamedPair(networkName, i, route))
  }

  /** `self.routes = {name(i, route): route for i, route in enumerate(routes)}`. */
  function NamedRoutes(networkName: string, routes: seq<Record>): (r: Result<seq<(Value, Record)>>)
    ensures r.Ok? <==> forall i :: 0 <= i < |routes| ==> Hashable(RouteName(networkName, i, routes[i]))
    ensures r.Ok? ==> OrderedMap.DistinctKeys(r.value) && |r.value| <= |routes|
  {
    assert forall i: nat :: i < |routes| ==>
      ((i, route) => NamedPair(networkName, i, route))(i, routes[i]) == NamedPair(networkName, i, routes[i]);
    match NamedPairs(networkName, routes)
    case Err(e) => Err(e)
    case Ok(pairs) => Ok(OrderedMap.FromPairs(pairs))
  }

  /** `[tag.strip() for tag in route.get("tags", "").split(",") if tag]`; `.split` on a non-string raises. */
  function Tags(route: Record): (r: Result<seq<string>>)
    ensures r.Err? <==> "tags" in route && !route["tags"].Str?
    ensures r.Err? ==> r.error == AttributeError("split")
    ensures r.Ok? ==> forall k :: 0 <= k < |r.value| ==> ',' !in r.value[k] && Stripped(r.value[k])
  {
    match Get(route, "tags", Str(""))
    case Str(s) => Ok(ParseTags(s))
    case _ => Err(AttributeError("split"))
  }

  /** The internet gateway when `next_hop_internet` is truthy, otherwise none. */
  function NextHopGateway(route: Record): (r: Option<string>)
    ensures r.Some? <==> Truthy(Get(route, "next_hop_internet", Bool(false)))
    ensures r.Some? ==> r.value == InternetGateway
  {
    if Truthy(Get(route, "next_hop_internet", Bool(false))) then Some(InternetGateway) else None
  }

  /** The i-th `gcp.compute.Route(...)` call, for the entry stored under `name`. */
  function RouteAt(projectId: string, networkName: string, i: nat, name: Value, route: Record): (r: Result<Route>)
    ensures r.Ok? <==> Tags(route).Ok?
    ensures r.Err? ==> r == Err(AttributeError("split"))
    ensures r.Ok? ==>
      && r.value.name == name && r.value.project == projectId && r.value.network == networkName
      && r.value.tags == Tags(route).value && r.value.nextHopGateway == NextHopGateway(route)
  {
    match Tags(route)
    case Err(e) => Err(e)
    case Ok(tags) =>
      Ok(Route(
        "route-" + NatToString(i),
        projectId,
        networkName,
        name,
        Get(route, "description", Null),
        tags,
        Get(route, "destination_range", Null),
        NextHopGateway(route),
        Get(route, "next_hop_ip", Null),
        Get(route, "next_hop_instance", Null),
        Get(route, "next_hop_instance_zone", Null),
        Get(route, "next_hop_vpn_tunnel", Null),
        Get(route, "next_hop_ilb", Null),
        Get(route, "priority", Null)))
  }

  /** The loop body: the route of the i-th entry of the dictionary. */
  function RouteOfEntry(projectId: string, networkName: string): (nat, (Value, Record)) -> Result<Route> {
    (i: nat, e: (Value, Record)) => RouteAt(projectId, networkName, i, e.0, e.1)
  }

  /** The route of each named entry, in the dictionary's order. */
  function RoutesOf(projectId: string, networkName: string, entries: seq<(Value, Record)>): Result<seq<Route>> {
    MapWithIndex(entries, RouteOfEntry(projectId, networkName))
  }

  /** Everything `Routes.__init__` creates, or the exception it raises. */
  function BuildRoutes(projectId: string, networkName: string, routes: seq<Record>): (r: Result<seq<Route>>)
    ensures NamedRoutes(networkName, routes).Err? ==> r == Err(NamedRoutes(networkName, routes).error)
    ensures r.Ok? ==>
      NamedRoutes(networkName, routes).Ok? && |r.value| == |NamedRoutes(networkName, routes).value|
      && |r.value| <= |routes|
  {
    match NamedRoutes(networkName, routes)
    case Err(e) => Err(e)
    case Ok(entries) => RoutesOf(projectId, networkName, entries)
  }

  /** The `Routes` component resource. */
  class Routes {
    var projectId: string
    /** `self.routes`: the records keyed by route name, in insertion order. */
    var routes: seq<(Value, Record)>
    var createdRoutes: seq<Route>

    constructor (projectId: string, named: seq<(Value, Record)>)
      ensures this.projectId == projectId && routes == named && createdRoutes == []
    {
      this.projectId := projectId;
      routes := named;
      createdRoutes := [];
    }

    /** `Routes(resource_name, project_id, network_name, routes)`. */
    static method Create(projectId: string, networkName: string, routes: seq<Record> := [])
      returns (r: Result<Routes>)
      ensures r.Err? ==> BuildRoutes(projectId, networkName, routes) == Err(r.error)
      ensures r.Ok? ==> fresh(r.value) && r.value.projectId == projectId
      ensures r.Ok? ==> NamedRoutes(networkName, routes) == Ok(r.value.routes)
      ensures r.Ok? ==> BuildRoutes(projectId, networkName, routes) == Ok(r.value.createdRoutes)
    {
      var named := NamedRoutes(networkName, routes);
      if named.Err? {
        return Err(named.error);
      }
      var s := new Routes(projectId, named.value);
      var failure := s.AddRoutes(networkName);
      if failure.Some? {
        return Err(failure.value);
      }
      return Ok(s);
    }

    /**
     * The loop of `__init__`: one `gcp.compute.Route` per entry of `self.routes`, appended
     * to `self.created_routes` in the dictionary's order; stops at the first exception.
     */
    method AddRoutes(networkName: string) returns (failure: Option<Error>)
      requires createdRoutes == []
      modifies this
      ensures projectId == old(projectId) && routes == old(routes)
      ensures failure.Some? ==> RoutesOf(projectId, networkName, routes) == Err(failure.value)
      ensures failure.None? ==> RoutesOf(projectId, networkName, routes) == Ok(createdRoutes)
    {
      failure := AppendEach(RouteOfEntry(projectId, networkName));
    }

    /** The loop itself, for any loop body `f` that builds the route of an entry or raises. */
    method AppendEach(f: (nat, (Value, Record)) -> Result<Route>) returns (failure: Option<Error>)
      requires createdRoutes == []
      modifies this
      ensures projectId == old(projectId) && routes == old(routes)
      ensures failure.Some? ==> MapWithIndex(routes, f) == Err(failure.value)
      ensures failure.None? ==> MapWithIndex(routes, f) == Ok(createdRoutes)
    {
      var entries := routes;
      var i := 0;
      while i < |entries|
        invariant 0 <= i <= |entries|
        invariant projectId == old(projectId) && routes == entries == old(routes)
        invariant MapWithIndex(entries[..i], f) == Ok(createdRoutes)
      {
        var route := f(i, entries[i]);
        MapWithIndexStep(entries, f, i, createdRoutes);
        if route.Err? {
          return Some(route.error);
        }
        createdRoutes := createdRoutes + [route.value];
        i := i + 1;
      }
      assert entries[..i] == entries;
      return None;
    }
  }

  /** Unnamed routes at different input positions get different derived names. */
  lemma DerivedNamesDistinct(networkName: string, routes: seq<Record>, a: nat, b: nat)
    requires a < b < |routes| && "name" !in routes[a] && "name" !in routes[b]
    ensures RouteName(networkName, a, routes[a]) != RouteName(networkName, b, routes[b])
  {
    if DerivedName(networkName, a) == DerivedName(networkName, b) {
      NumberedNamesDistinct(networkName + "-route-", a, b);
    }
  }

  /** A record's own name is used whenever it has one, even the empty string. */
  lemma EmptyNameKept(networkName: string, i: nat, route: Record)
    requires "name" in route && route["name"] == Str("")
    ensures RouteName(networkName, i, route) == Str("")
  {
  }

  ghost predicate AllNamed(networkName: string, routes: seq<Record>) {
    forall i :: 0 <= i < |routes| ==> Hashable(RouteName(networkName, i, routes[i]))
  }

  lemma NamedPairsAt(networkName: string, routes: seq<Record>)
    requires AllNamed(networkName, routes)
    ensures NamedPairs(networkName, routes).Ok?
    ensures forall i :: 0 <= i < |routes| ==>
      NamedPairs(networkName, routes).value[i] == (RouteName(networkName, i, routes[i]), routes[i])
  {
    var pairs := NamedPairs(networkName, routes).value;
    forall i | 0 <= i < |routes|
      ensures pairs[i] == (RouteName(networkName, i, routes[i]), routes[i])
    {
      assert NamedPair(networkName, i, routes[i]) == Ok(pairs[i]);
    }
  }

  /** With pairwise-distinct names every record is kept, in input order. */
  lemma DistinctNamesKeepEveryRoute(networkName: string, routes: seq<Record>)
    requires AllNamed(networkName, routes)
    requires forall i, j :: 0 <= i < j < |routes| ==>
      RouteName(networkName, i, routes[i]) != RouteName(networkName, j, routes[j])
    ensures NamedRoutes(networkName, routes).Ok?
    ensures |NamedRoutes(networkName, routes).value| == |routes|
    ensures forall i :: 0 <= i < |routes| ==>
      NamedRoutes(networkName, routes).value[i] == (RouteName(networkName, i, routes[i]), routes[i])
  {
    NamedPairsAt(networkName, routes);
    OrderedMap.FromPairsDistinct(NamedPairs(networkName, routes).value);
  }

  /** ... and then there is one route per input record, built from that record at its position. */
  lemma DistinctNamesOneRouteEach(projectId: string, networkName: string, routes: seq<Record>)
    requires AllNamed(networkName, routes)
    requires forall i, j :: 0 <= i < j < |routes| ==>
      RouteName(networkName, i, routes[i]) != RouteName(networkName, j, routes[j])
    requires BuildRoutes(projectId, networkName, routes).Ok?
    ensures |BuildRoutes(projectId, networkName, routes).value| == |routes|
    ensures forall i :: 0 <= i < |routes| ==>
      Ok(BuildRoutes(projectId, networkName, routes).value[i])
        == RouteAt(projectId, networkName, i, RouteName(networkName, i, routes[i]), routes[i])
  {
    DistinctNamesKeepEveryRoute(networkName, routes);
  }

  /** Two records whose names coincide collapse into one entry. */
  lemma DuplicateNamesCollapse(networkName: string, routes: seq<Record>, i: nat, j: nat)
    requires AllNamed(networkName, routes)
    requires i < j < |routes| && RouteName(networkName, i, routes[i]) == RouteName(networkName, j, routes[j])
    ensures NamedRoutes(networkName, routes).Ok?
    ensures |NamedRoutes(networkName, routes).value| < |routes|
  {
    NamedPairsAt(networkName, routes);
    OrderedMap.FromPairsCollapses(NamedPairs(networkName, routes).value, i, j);
  }

  /** Last wins: the record stored under a name is the LAST record carrying that name. */
  lemma LastRouteWins(networkName: string, routes: seq<Record>, i: nat)
    requires AllNamed(networkName, routes)
    requires i < |routes|
    requires forall j :: i < j < |routes| ==>
      RouteName(networkName, j, routes[j]) != RouteName(networkName, i, routes[i])
    ensures NamedRoutes(networkName, routes).Ok?
    ensures OrderedMap.Lookup(NamedRoutes(networkName, routes).value, RouteName(networkName, i, routes[i]))
      == Some(routes[i])
  {
    NamedPairsAt(networkName, routes);
    OrderedMap.FromPairsLastWins(NamedPairs(networkName, routes).value, i);
  }

  /** First position: the entries are ordered by where their name first occurs among the records. */
  lemma RoutesInFirstOccurrenceOrder(networkName: string, routes: seq<Record>)
    requires AllNamed(networkName, routes)
    ensures NamedRoutes(networkName, routes).Ok?
    ensures OrderedMap.InFirstOccurrenceOrder(NamedPairs(networkName, routes).value,
      OrderedMap.Keys(NamedRoutes(networkName, routes).value))
  {
    OrderedMap.FromPairsOrder(NamedPairs(networkName, routes).value);
  }

  /** A list or dict given as a name cannot be a dictionary key: the first such record raises. */
  lemma UnhashableNameFails(projectId: string, networkName: string, routes: seq<Record>, k: nat)
    requires k < |routes| && "name" in routes[k] && !Hashable(routes[k]["name"])
    requires forall i :: 0 <= i < k ==> Hashable(RouteName(networkName, i, routes[i]))
    ensures BuildRoutes(projectId, networkName, routes) == Err(UnhashableKey)
  {
    MapWithIndexFirstError(routes, (i, route) => NamedPair(networkName, i, route), k);
  }

  /**
   * What the i-th route holds: resource name `route-{i}`, the project and network of the builder,
   * the entry's name, the parsed tags, the gateway exactly when `next_hop_internet` is truthy, and
   * every other field passed through from the stored record, or absent.
   */
  lemma RouteFields(projectId: string, networkName: string, routes: seq<Record>, i: nat)
    requires BuildRoutes(projectId, networkName, routes).Ok?
    requires i < |BuildRoutes(projectId, networkName, routes).value|
    ensures NamedRoutes(networkName, routes).Ok? && i < |NamedRoutes(networkName, routes).value|
    ensures
      var e := NamedRoutes(networkName, routes).value[i];
      var s := e.1;
      var d := BuildRoutes(projectId, networkName, routes).value[i];
      && d.resourceName == "route-" + NatToString(i)
      && d.project == projectId && d.network == networkName
      && d.name == e.0
      && Ok(d.tags) == Tags(s)
      && (d.nextHopGateway == Some(InternetGateway) <==> Truthy(Get(s, "next_hop_internet", Bool(false))))
      && (d.nextHopGateway.None? <==> !Truthy(Get(s, "next_hop_internet", Bool(false))))
      && d.description == Get(s, "description", Null)
      && d.destRange == Get(s, "destination_range", Null)
      && d.nextHopIp == Get(s, "next_hop_ip", Null)
      && d.nextHopInstance == Get(s, "next_hop_instance", Null)
      && d.nextHopInstanceZone == Get(s, "next_hop_instance_zone", Null)
      && d.nextHopVpnTunnel == Get(s, "next_hop_vpn_tunnel", Null)
      && d.nextHopIlb == Get(s, "next_hop_ilb", Null)
      && d.priority == Get(s, "priority", Null)
  {
    var entries := NamedRoutes(networkName, routes).value;
    var f := RouteOfEntry(projectId, networkName);
    assert f(i, entries[i]) == RouteAt(projectId, networkName, i, entries[i].0, entries[i].1);
  }

  /** Route resource names `route-{i}` are pairwise distinct. */
  lemma RouteResourceNamesDistinct(projectId: string, networkName: string, routes: seq<Record>, a: nat, b: nat)
    requires BuildRoutes(projectId, networkName, routes).Ok?
    requires a < b < |BuildRoutes(projectId, networkName, routes).value|
    ensures BuildRoutes(projectId, networkName, routes).value[a].resourceName
         != BuildRoutes(projectId, networkName, routes).value[b].resourceName
  {
    RouteFields(projectId, networkName, routes, a);
    RouteFields(projectId, networkName, routes, b);
    if "route-" + NatToString(a) == "route-" + NatToString(b) {
      NumberedNamesDistinct("route-", a, b);
    }
  }

  /** No `tags` key: no tags. A string: split on commas, empty pieces dropped, the rest stripped. */
  lemma TagsOfRecord(route: Record)
    ensures "tags" !in route ==> Tags(route) == Ok([])
    ensures "tags" in route && route["tags"].Str? ==> Tags(route) == Ok(ParseTags(route["tags"].s))
    ensures "tags" in route && !route["tags"].Str? ==> Tags(route).Err?
  {
    ParseTagsEmpty();
  }

  /** `"foo, bar, ham"` gives the three tags without their spaces. */
  lemma SpacedTags(route: Record)
    requires "tags" in route && route["tags"] == Str("foo, bar, ham")
    ensures Tags(route) == Ok(["foo", "bar", "ham"])
  {
    ParseTagsSpaced();
  }

  /** Any non-empty string turns the gateway on, "false" included; so does `True`. */
  lemma GatewayFromStrings(route: Record)
    requires "next_hop_internet" in route
    ensures route["next_hop_internet"].Str? ==>
      (NextHopGateway(route) == Some(InternetGateway) <==> route["next_hop_internet"].s != "")
    ensures route["next_hop_internet"] == Bool(true) ==> NextHopGateway(route) == Some(InternetGateway)
  {
  }

  /** No `next_hop_internet` key: no gateway. */
  lemma NoGatewayByDefault(route: Record)
    requires "next_hop_internet" !in route
    ensures NextHopGateway(route) == None
  {
  }

  /**
   * The route tests: on network "test-network", the first route, named "test-egress-inet",
   * keeps its name and the unnamed second one is named "test-network-route-1".
   */
  lemma ExampleNames(x: Record, y: Record)
    requires "name" in x && x["name"] == Str("test-egress-inet") && "name" !in y
    ensures NamedRoutes("test-network", [x, y]) == Ok([(Str("test-egress-inet"), x), (Str("test-network-route-1"), y)])
  {
    var routes := [x, y];
    assert NatToString(1) == "1";
    assert RouteName("test-network", 0, routes[0]) == Str("test-egress-inet");
    assert RouteName("test-network", 1, routes[1]) == Str("test-network-route-1");
    DistinctNamesKeepEveryRoute("test-network", routes);
    var entries := NamedRoutes("test-network", routes).value;
    assert entries == [(Str("test-egress-inet"), x), (Str("test-network-route-1"), y)] by {
      assert |entries| == 2;
      assert entries[0] == (Str("test-egress-inet"), x) && entries[1] == (Str("test-network-route-1"), y);
    }
  }
}
