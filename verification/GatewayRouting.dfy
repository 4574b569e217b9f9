/** The routing table and the Caddy routes that are generated from it. */
module GatewayRouting {
  import opened Options

  datatype BackendKind = Dedicated | Shared

  datatype Route = Route(host: string, projectRef: string, kind: BackendKind, address: string, enabled: bool)

  type Table = map<string, Route>

  datatype RateLimit = RateLimit(requestsPerSecond: nat, sharedOnly: bool)

  datatype Config = Config(rateLimit: Option<RateLimit>, defaultBackend: Option<string>)

  datatype Handler =
    | RateLimiter(key: string, maxEvents: nat)
    | ReverseProxy(dial: string, projectHeader: Option<string>)

  datatype CaddyRoute = CaddyRoute(hostMatch: string, handlers: seq<Handler>, terminal: bool)

  /** Entries are filed under their own host. */
  predicate WellFiled(table: Table) {
    forall host | host in table :: table[host].host == host
  }

  class RoutingTable {
    var routes: Table

    constructor FromRoutes(list: seq<Route>)
      ensures WellFiled(routes)
      ensures forall i | 0 <= i < |list| :: list[i].host in routes
      ensures forall host | host in routes :: exists i | 0 <= i < |list| ::
                routes[host] == list[i] && forall j | i < j < |list| :: list[j].host != host
    {
      var built: Table := map[];
      for i := 0 to |list|
        invariant WellFiled(built)
        invariant forall k | 0 <= k < i :: list[k].host in built
        invariant forall host | host in built :: exists k | 0 <= k < i ::
                    built[host] == list[k] && forall j | k < j < i :: list[j].host != host
      {
        ghost var before := built;
        built := built[list[i].host := list[i]];
        forall host | host in built
          ensures exists k | 0 <= k < i + 1 ::
                    built[host] == list[k] && forall j | k < j < i + 1 :: list[j].host != host
        {
          if host != list[i].host {
            var k :| 0 <= k < i && before[host] == list[k] && forall j | k < j < i :: list[j].host != host;
            assert built[host] == list[k];
          } else {
            assert built[host] == list[i];
          }
        }
      }
      routes := built;
    }

    method Upsert(route: Route)
      requires WellFiled(routes)
      modifies this
      ensures WellFiled(routes) && routes == old(routes)[route.host := route]
    {
      routes := routes[route.host := route];
    }

    method Remove(host: string) returns (removed: Option<Route>)
      requires WellFiled(routes)
      modifies this
      ensures WellFiled(routes) && routes == old(routes) - {host}
      ensures removed == if host in old(routes) then Some(old(routes)[host]) else None
    {
      removed := if host in routes then Some(routes[host]) else None;
      routes := routes - {host};
    }
  }

  /** One way to run through the enabled entries: each once, in the order of some hash map. */
  ghost predicate Enumerates(order: seq<Route>, table: Table) {
    && (forall i | 0 <= i < |order| :: order[i].enabled && order[i].host in table && table[order[i].host] == order[i])
    && (forall i, j | 0 <= i < j < |order| :: order[i].host != order[j].host)
    && (forall host | host in table && table[host].enabled :: table[host] in order)
  }

  function BuiltRoute(cfg: Config, route: Route): CaddyRoute {
    CaddyRoute(route.host, Limiters(cfg, route) + [ReverseProxy(route.address, Some(route.projectRef))], true)
  }

  function Limiters(cfg: Config, route: Route): seq<Handler> {
    if Limited(cfg, route) then [RateLimiter(route.host, cfg.rateLimit.value.requestsPerSecond)] else []
  }

  function BuiltRoutes(cfg: Config, order: seq<Route>): seq<CaddyRoute> {
    seq(|order|, i requires 0 <= i < |order| => BuiltRoute(cfg, order[i])) + DefaultRoutes(cfg)
  }

  function DefaultRoutes(cfg: Config): seq<CaddyRoute> {
    if cfg.defaultBackend.Some? then [CaddyRoute("*", [ReverseProxy(cfg.defaultBackend.value, None)], true)] else []
  }

  /** Where a route is rate limited. */
  predicate Limited(cfg: Config, route: Route) {
    && cfg.rateLimit.Some? && cfg.rateLimit.value.requestsPerSecond > 0
    && (cfg.rateLimit.value.sharedOnly ==> route.kind.Shared?)
  }

  method BuildRoute(cfg: Config, route: Route) returns (built: CaddyRoute)
    ensures built == BuiltRoute(cfg, route)
    ensures built.hostMatch == route.host && built.terminal
    ensures built.handlers != []
    ensures built.handlers[|built.handlers| - 1] == ReverseProxy(route.address, Some(route.projectRef))
    ensures cfg.rateLimit.None? || cfg.rateLimit.value.requestsPerSecond == 0 ==> |built.handlers| == 1
    ensures cfg.rateLimit.Some? && cfg.rateLimit.value.requestsPerSecond > 0 ==>
              if cfg.rateLimit.value.sharedOnly && route.kind == Dedicated then |built.handlers| == 1
              else |built.handlers| == 2 &&
                   built.handlers[0] == RateLimiter(route.host, cfg.rateLimit.value.requestsPerSecond)
  {
    var handlers: seq<Handler> := [];
    if cfg.rateLimit.Some? {
      var limit := cfg.rateLimit.value;
      var shouldLimit := if limit.sharedOnly then route.kind == Shared else true;
      if shouldLimit && limit.requestsPerSecond > 0 {
        handlers := handlers + [RateLimiter(route.host, limit.requestsPerSecond)];
      }
    }
    handlers := handlers + [ReverseProxy(route.address, Some(route.projectRef))];
    return CaddyRoute(route.host, handlers, true);
  }

  method BuildRoutes(cfg: Config, order: seq<Route>) returns (routes: seq<CaddyRoute>)
    ensures routes == BuiltRoutes(cfg, order)
  {
    hide BuiltRoute;
    routes := [];
    for i := 0 to |order|
      invariant routes == seq(i, k requires 0 <= k < i => BuiltRoute(cfg, order[k]))
    {
      var route := BuildRoute(cfg, order[i]);
      routes := routes + [route];
    }
    if cfg.defaultBackend.Some? {
      routes := routes + [CaddyRoute("*", [ReverseProxy(cfg.defaultBackend.value, None)], true)];
    }
  }

  /** Caddy takes the first route whose host matches; `*` matches every host. */
  function FirstMatch(routes: seq<CaddyRoute>, host: string): Option<CaddyRoute> {
    if routes == [] then None
    else if routes[0].hostMatch == host || routes[0].hostMatch == "*" then Some(routes[0])
    else FirstMatch(routes[1..], host)
  }

  predicate Serves(table: Table, host: string) {
    host in table && table[host].enabled
  }

  /** What the table asks for: its enabled entry, or else the default backend. */
  function Intended(cfg: Config, table: Table, host: string): Option<CaddyRoute> {
    if Serves(table, host) then Some(BuiltRoute(cfg, table[host]))
    else if cfg.defaultBackend.Some? then Some(CaddyRoute("*", [ReverseProxy(cfg.defaultBackend.value, None)], true))
    else None
  }

  lemma {:induction false} FirstMatchIs(routes: seq<CaddyRoute>, host: string, i: nat)
    requires i < |routes| && (routes[i].hostMatch == host || routes[i].hostMatch == "*")
    requires forall j | 0 <= j < i :: routes[j].hostMatch != host && routes[j].hostMatch != "*"
    ensures FirstMatch(routes, host) == Some(routes[i])
    decreases i
  {
    if i > 0 {
      FirstMatchIs(routes[1..], host, i - 1);
    }
  }

  lemma {:induction false} NoMatch(routes: seq<CaddyRoute>, host: string)
    requires forall j | 0 <= j < |routes| :: routes[j].hostMatch != host && routes[j].hostMatch != "*"
    ensures FirstMatch(routes, host) == None
    decreases |routes|
  {
    if routes != [] {
      NoMatch(routes[1..], host);
    }
  }

  /** An enabled entry for `*` comes before the host's own, or there is no own one. */
  predicate StarComesFirst(order: seq<Route>, host: string) {
    host != "*" && exists i | 0 <= i < |order| :: order[i].host == "*" && forall j | 0 <= j < i :: order[j].host != host
  }

  lemma FirstEntryIs(cfg: Config, order: seq<Route>, host: string, i: nat)
    requires i < |order| && (order[i].host == host || order[i].host == "*")
    requires forall j | 0 <= j < i :: order[j].host != host && order[j].host != "*"
    ensures FirstMatch(BuiltRoutes(cfg, order), host) == Some(BuiltRoute(cfg, order[i]))
  {
    var routes := BuiltRoutes(cfg, order);
    assert forall j | 0 <= j < |order| :: routes[j] == BuiltRoute(cfg, order[j]);
    FirstMatchIs(routes, host, i);
  }

  lemma NoEntryIs(cfg: Config, order: seq<Route>, host: string)
    requires forall j | 0 <= j < |order| :: order[j].host != host && order[j].host != "*"
    ensures FirstMatch(BuiltRoutes(cfg, order), host) ==
            if cfg.defaultBackend.Some? then Some(DefaultRoutes(cfg)[0]) else None
  {
    var routes := BuiltRoutes(cfg, order);
    assert forall j | 0 <= j < |order| :: routes[j] == BuiltRoute(cfg, order[j]);
    if cfg.defaultBackend.Some? {
      FirstMatchIs(routes, host, |order|);
    } else {
      NoMatch(routes, host);
    }
  }

  /** The route that takes a request: the one for `*` where that comes first, else the intended one. */
  lemma FirstRouteIs(cfg: Config, table: Table, order: seq<Route>, host: string)
    requires WellFiled(table) && Enumerates(order, table)
    ensures StarComesFirst(order, host) ==>
            Serves(table, "*") && FirstMatch(BuiltRoutes(cfg, order), host) == Some(BuiltRoute(cfg, table["*"]))
    ensures !StarComesFirst(order, host) ==> FirstMatch(BuiltRoutes(cfg, order), host) == Intended(cfg, table, host)
  {
    hide FirstMatch, BuiltRoutes, BuiltRoute;
    if StarComesFirst(order, host) {
      var i :| 0 <= i < |order| && order[i].host == "*" && forall j | 0 <= j < i :: order[j].host != host;
      assert forall j | 0 <= j < i :: order[j].host != order[i].host;
      FirstEntryIs(cfg, order, host, i);
    } else if Serves(table, host) {
      var i :| 0 <= i < |order| && order[i] == table[host];
      assert forall j | 0 <= j < i :: order[j].host != order[i].host;
      assert forall j | 0 <= j < i :: order[j].host != "*";
      FirstEntryIs(cfg, order, host, i);
    } else {
      assert forall j | 0 <= j < |order| :: order[j].host != host && order[j].host != "*";
      NoEntryIs(cfg, order, host);
    }
  }

  lemma StarIsNotIntended(cfg: Config, table: Table, host: string)
    requires WellFiled(table) && Serves(table, "*") && host != "*"
    ensures Some(BuiltRoute(cfg, table["*"])) != Intended(cfg, table, host)
  {
    var handlers := BuiltRoute(cfg, table["*"]).handlers;
    assert handlers[|handlers| - 1] == ReverseProxy(table["*"].address, Some(table["*"].projectRef));
  }

  /**
   For every table, host and iteration order of the hash map: the first matching route for the
   host is the one that the table asks for if and only if no enabled `*` entry comes first.
   */
  lemma RoutesRefineTable(cfg: Config, table: Table, order: seq<Route>, host: string)
    requires WellFiled(table) && Enumerates(order, table)
    ensures FirstMatch(BuiltRoutes(cfg, order), host) == Intended(cfg, table, host) <==> !StarComesFirst(order, host)
  {
    FirstRouteIs(cfg, table, order, host);
    if StarComesFirst(order, host) {
      StarIsNotIntended(cfg, table, host);
    }
  }

  /**
   What happens to a request that an entry of the table takes: it ends in a proxy to the
   backend of that entry, under its project; no other project can get it. A rate limiter comes
   before the proxy where one is configured with a limit above zero: for entries of every
   kind, or only for those with a shared backend if the configuration says so.
   */
  lemma ServedRequestReachesItsProject(cfg: Config, table: Table, order: seq<Route>, host: string)
    requires WellFiled(table) && Enumerates(order, table)
    requires Serves(table, host) || Serves(table, "*")
    ensures StarComesFirst(order, host) ==> "*" in table
    ensures !StarComesFirst(order, host) ==> host in table
    ensures var first := FirstMatch(BuiltRoutes(cfg, order), host);
            var entry := if StarComesFirst(order, host) then table["*"] else table[host];
            && first.Some? && first.value.terminal && first.value.handlers != []
            && (forall h | h in first.value.handlers && h.ReverseProxy? ::
                  h == ReverseProxy(entry.address, Some(entry.projectRef)))
            && first.value.handlers[|first.value.handlers| - 1].ReverseProxy?
            && (cfg.rateLimit.None? || cfg.rateLimit.value.requestsPerSecond == 0 ==> |first.value.handlers| == 1)
            && (cfg.rateLimit.Some? && cfg.rateLimit.value.requestsPerSecond > 0 ==>
                  if cfg.rateLimit.value.sharedOnly && entry.kind == Dedicated then |first.value.handlers| == 1
                  else |first.value.handlers| == 2 &&
                       first.value.handlers[0] == RateLimiter(entry.host, cfg.rateLimit.value.requestsPerSecond))
  {
    FirstRouteIs(cfg, table, order, host);
  }

  /** A request that no entry takes ends at the default backend, under no project and without a limit, or nowhere. */
  lemma UnservedRequestGetsDefault(cfg: Config, table: Table, order: seq<Route>, host: string)
    requires WellFiled(table) && Enumerates(order, table)
    requires host !in table || !table[host].enabled
    requires "*" !in table || !table["*"].enabled
    ensures FirstMatch(BuiltRoutes(cfg, order), host) ==
            match cfg.defaultBackend
            case Some(backend) => Some(CaddyRoute("*", [ReverseProxy(backend, None)], true))
            case None => None
  {
    FirstRouteIs(cfg, table, order, host);
  }

  /** Where the k-th entry stood before entry i was moved to the front. */
  function Before(i: nat, k: nat): nat {
    if k == 0 then i else if k <= i then k - 1 else k
  }

  /** Moving an entry to the front gives another possible iteration order. */
  lemma MovedToFront(table: Table, order: seq<Route>, i: nat) returns (other: seq<Route>)
    requires Enumerates(order, table) && i < |order|
    ensures Enumerates(other, table) && other != [] && other[0] == order[i]
  {
    other := seq(|order|, k requires 0 <= k < |order| => order[Before(i, k)]);
    assert forall k | 0 <= k < |order| :: other[k] == order[Before(i, k)];
    forall k, l | 0 <= k < l < |other|
      ensures other[k].host != other[l].host
    {
      assert Before(i, k) != Before(i, l);
      assert Before(i, k) < Before(i, l) || Before(i, l) < Before(i, k);
    }
    forall host | host in table && table[host].enabled
      ensures table[host] in other
    {
      var j :| 0 <= j < |order| && order[j] == table[host];
      var k := if j == i then 0 else if j < i then j + 1 else j;
      assert Before(i, k) == j && other[k] == order[j];
    }
  }

  /** A host gets its intended route in every iteration order if and only if no other host `*` is served. */
  lemma RightInEveryOrderIff(cfg: Config, table: Table, order: seq<Route>, host: string)
    requires WellFiled(table) && Enumerates(order, table)
    ensures (forall other | Enumerates(other, table) ::
               FirstMatch(BuiltRoutes(cfg, other), host) == Intended(cfg, table, host)) <==>
            host == "*" || !Serves(table, "*")
  {
    if host != "*" && Serves(table, "*") {
      var i :| 0 <= i < |order| && order[i] == table["*"];
      var other := MovedToFront(table, order, i);
      assert other[0].host == "*";
      RoutesRefineTable(cfg, table, other, host);
    } else {
      forall other | Enumerates(other, table)
        ensures FirstMatch(BuiltRoutes(cfg, other), host) == Intended(cfg, table, host)
      {
        RoutesRefineTable(cfg, table, other, host);
      }
    }
  }

  /** For a host without an entry it is the same in all orders. */
  lemma UnknownHostGoesToDefaultIff(cfg: Config, table: Table, order: seq<Route>, host: string)
    requires WellFiled(table) && Enumerates(order, table)
    requires !Serves(table, host) && host != "*"
    ensures FirstMatch(BuiltRoutes(cfg, order), host) == Intended(cfg, table, host) <==> !Serves(table, "*")
  {
    RoutesRefineTable(cfg, table, order, host);
    if Serves(table, "*") {
      var i :| 0 <= i < |order| && order[i] == table["*"];
      assert order[i].host == "*" && forall j | 0 <= j < i :: order[j].host != host;
    }
  }
}
