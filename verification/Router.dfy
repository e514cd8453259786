/** The router: routes in order, the default route last. */
module Routers {
  import opened Words
  import opened Routing
  import opened RouteConfigs

  datatype RouterConfig = RouterConfig(defaultTCPClient: string, defaultUDPClient: string, routes: seq<RouteConfig>)

  /** The default client of one network: none to reject, the only one if it is left open, or the named one. */
  function DefaultClient(name: string, clients: set<string>): Result<Option<string>, ConfigError> {
    if name == "reject" then Ok(None)
    else if name == "" then
      if |clients| == 1 then (var c :| c in clients; OnlyOne(clients, c); Ok(Some(c))) else Ok(None)
    else if name in clients then Ok(Some(name))
    else Err(ClientNotFound)
  }

  lemma OnlyOne(clients: set<string>, c: string)
    requires |clients| == 1 && c in clients
    ensures forall d :: d in clients ==> d == c
  {
    assert |clients - {c}| == 0;
    forall d | d in clients
      ensures d == c
    {
      assert d in clients - {c} || d == c;
    }
  }

  /** The default client in plain terms: by name, or the only one there is; no name that is not a client's. */
  lemma DefaultClientExactly(name: string, clients: set<string>)
    ensures DefaultClient("reject", clients) == Ok(None)
    ensures forall c :: clients == {c} ==> DefaultClient("", clients) == Ok(Some(c))
    ensures |clients| != 1 ==> DefaultClient("", clients) == Ok(None)
    ensures name !in ["", "reject"] ==> DefaultClient(name, clients) == if name in clients then Ok(Some(name)) else Err(ClientNotFound)
  {
    forall c | clients == {c}
      ensures DefaultClient("", clients) == Ok(Some(c))
    {
      OnlyOne(clients, c);
    }
  }

  /** The compiled routes are those of the configuration, in order, then the default route, which asks nothing. */
  ghost predicate Compiled(rc: RouterConfig, ctx: Context, routes: seq<Route>) {
    && |routes| == |rc.routes| + 1
    && (forall i :: 0 <= i < |rc.routes| ==> IsRouteOf(rc.routes[i], ctx, routes[i]))
    && routes[|rc.routes|].name == "default" && routes[|rc.routes|].criteria == []
    && DefaultClient(rc.defaultTCPClient, ctx.tcpClients) == Ok(routes[|rc.routes|].tcpClient)
    && DefaultClient(rc.defaultUDPClient, ctx.udpClients) == Ok(routes[|rc.routes|].udpClient)
  }

  ghost predicate IsRouteOf(c: RouteConfig, ctx: Context, r: Route) {
    && Acceptable(c, ctx) && r.name == c.name
    && (forall geo, q :: AllOutcome(r.criteria, geo, q) == Reading(c, ctx, geo, q))
    && r.tcpClient == (if c.client == "reject" || c.network == "udp" then None else Some(c.client))
    && r.udpClient == (if c.client == "reject" || c.network == "tcp" then None else Some(c.client))
  }

  method NewRouter(rc: RouterConfig, ctx: Context) returns (r: Result<seq<Route>, ConfigError>)
    ensures r.Ok? <==>
            && DefaultClient(rc.defaultTCPClient, ctx.tcpClients).Ok? && DefaultClient(rc.defaultUDPClient, ctx.udpClients).Ok?
            && forall i :: 0 <= i < |rc.routes| ==> Acceptable(rc.routes[i], ctx)
    ensures r.Ok? ==> Compiled(rc, ctx, r.value)
  {
    hide Acceptable, Reading, AllOutcome, DefaultClient;
    var tcp := DefaultClient(rc.defaultTCPClient, ctx.tcpClients);
    if tcp.Err? {
      return Err(tcp.error);
    }
    var udp := DefaultClient(rc.defaultUDPClient, ctx.udpClients);
    if udp.Err? {
      return Err(udp.error);
    }
    var routes: seq<Route> := [];
    for i := 0 to |rc.routes|
      invariant |routes| == i
      invariant forall j :: 0 <= j < i ==> Acceptable(rc.routes[j], ctx) && IsRouteOf(rc.routes[j], ctx, routes[j])
    {
      var route := Compile(rc.routes[i], ctx);
      if route.Err? {
        return Err(route.error);
      }
      routes := routes + [route.value];
    }
    return Ok(routes + [Route("default", [], tcp.value, udp.value)]);
  }

  // ----- matching -----

  /** What the configuration says about a request: the index of the first route whose reading is met, the
      default route's if there is none, or the error met on the way. */
  function Choice(routes: seq<RouteConfig>, ctx: Context, geo: GeoIP, q: Request): Result<nat, MatchError> {
    if routes == [] then Ok(0)
    else
      match Reading(routes[0], ctx, geo, q)
      case Yes => Ok(0)
      case Fail(e) => Err(e)
      case No =>
        var rest := Choice(routes[1..], ctx, geo, q);
        if rest.Ok? then Ok(rest.value + 1) else rest
  }

  /** The choice is the first route that is met, all before it being not met; an error is the first route's
      that is neither. */
  lemma {:induction false} ChoiceIsFirst(routes: seq<RouteConfig>, ctx: Context, geo: GeoIP, q: Request)
    ensures var c := Choice(routes, ctx, geo, q);
            && (c.Ok? ==>
                  && c.value <= |routes| && (c.value < |routes| ==> Reading(routes[c.value], ctx, geo, q) == Yes)
                  && forall i :: 0 <= i < c.value ==> Reading(routes[i], ctx, geo, q) == No)
            && (c.Err? ==>
                  exists i :: 0 <= i < |routes| && Reading(routes[i], ctx, geo, q) == Fail(c.error)
                              && forall j :: 0 <= j < i ==> Reading(routes[j], ctx, geo, q) == No)
    decreases |routes|
  {
    hide Reading;
    if routes != [] && Reading(routes[0], ctx, geo, q) == No {
      ChoiceIsFirst(routes[1..], ctx, geo, q);
      var c := Choice(routes[1..], ctx, geo, q);
      if c.Err? {
        var i :| 0 <= i < |routes[1..]| && Reading(routes[1..][i], ctx, geo, q) == Fail(c.error)
                 && forall j :: 0 <= j < i ==> Reading(routes[1..][j], ctx, geo, q) == No;
        assert Reading(routes[i + 1], ctx, geo, q) == Fail(c.error);
        forall j | 0 <= j < i + 1
          ensures Reading(routes[j], ctx, geo, q) == No
        {
          assert j > 0 ==> routes[j] == routes[1..][j - 1];
        }
      }
    } else if routes != [] && Reading(routes[0], ctx, geo, q).Fail? {
      assert Reading(routes[0], ctx, geo, q) == Fail(Choice(routes, ctx, geo, q).error);
    }
  }

  lemma ChoiceStep(routes: seq<RouteConfig>, ctx: Context, geo: GeoIP, q: Request, i: nat)
    requires i < |routes|
    ensures var c := Choice(routes[i..], ctx, geo, q);
            var rest := Choice(routes[i + 1..], ctx, geo, q);
            match Reading(routes[i], ctx, geo, q)
            case Yes => c == Ok(0)
            case Fail(e) => c == Err(e)
            case No => c == if rest.Ok? then Ok(rest.value + 1) else rest
  {
    hide Reading;
    assert routes[i..][1..] == routes[i + 1..];
  }

  /** Router.match: always ends at a route or an error; the fall-through after the loop is never reached. */
  method Match(rc: RouterConfig, ctx: Context, routes: seq<Route>, geo: GeoIP, q: Request) returns (r: Result<nat, MatchError>)
    requires Compiled(rc, ctx, routes)
    ensures r == Choice(rc.routes, ctx, geo, q)
    ensures r.Ok? ==> r.value < |routes|
  {
    hide Reading, Acceptable, Outcome, Choice;
    assert rc.routes[0..] == rc.routes;
    for i := 0 to |routes|
      invariant i <= |rc.routes|
      invariant Choice(rc.routes, ctx, geo, q) ==
                var rest := Choice(rc.routes[i..], ctx, geo, q);
                if rest.Ok? then Ok(rest.value + i) else rest
    {
      var met, err := MatchAll(routes[i].criteria, geo, q);
      if i < |rc.routes| {
        ChoiceStep(rc.routes, ctx, geo, q, i);
      } else {
        NoRoutesLeft(rc.routes[i..], ctx, geo, q);
      }
      if err.Some? {
        return Err(err.value);
      }
      if met {
        return Ok(i);
      }
    }
    assert false;
  }

  lemma NoRoutesLeft(routes: seq<RouteConfig>, ctx: Context, geo: GeoIP, q: Request)
    requires routes == []
    ensures Choice(routes, ctx, geo, q) == Ok(0)
  {}

  /** A request that a route takes is turned away only if the configuration says so: the route rejects, or it
      is the default route and no client was chosen for the network. */
  lemma RejectedOnlyWhenAsked(rc: RouterConfig, ctx: Context, routes: seq<Route>, geo: GeoIP, q: Request)
    requires Compiled(rc, ctx, routes) && Choice(rc.routes, ctx, geo, q).Ok?
    ensures var i := Choice(rc.routes, ctx, geo, q).value;
            && i < |routes|
            && (if q.network.TCP? then routes[i].tcpClient else routes[i].udpClient) ==
               if i == |rc.routes| then
                 (if q.network.TCP? then DefaultClient(rc.defaultTCPClient, ctx.tcpClients)
                  else DefaultClient(rc.defaultUDPClient, ctx.udpClients)).value
               else if rc.routes[i].client == "reject" then None else Some(rc.routes[i].client)
  {
    hide Acceptable, ServerClause, SourceClause, DestClause, SourcePortClause, DestPortClause, DefaultClient, Choice;
    ChoiceIsFirst(rc.routes, ctx, geo, q);
    var i := Choice(rc.routes, ctx, geo, q).value;
    if i < |rc.routes| {
      assert IsRouteOf(rc.routes[i], ctx, routes[i]);
      assert NetworkClause(rc.routes[i], q) == Yes;
    }
  }
}
