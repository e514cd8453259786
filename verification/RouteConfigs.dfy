/** Compilation of a route configuration, and its direct reading. */
module RouteConfigs {
  import opened Words
  import opened SocksAddr
  import opened Routing

  datatype Prefix = Prefix(valid: bool, contains: IPSet)

  datatype RouteConfig = RouteConfig(
    name: string, network: string, client: string, resolver: string,
    fromServers: seq<string>, fromPrefixes: seq<Prefix>, fromPrefixSets: seq<string>,
    fromCountries: seq<string>, fromPorts: seq<U16>,
    toDomains: seq<string>, toDomainSets: seq<string>,
    expectedPrefixes: seq<Prefix>, expectedPrefixSets: seq<string>, expectedCountries: seq<string>,
    toPrefixes: seq<Prefix>, toPrefixSets: seq<string>, toCountries: seq<string>, toPorts: seq<U16>,
    disableNameResolution: bool,
    invertFromServers: bool, invertFromPrefixes: bool, invertFromCountries: bool, invertFromPorts: bool,
    invertToDomains: bool, invertExpectedPrefixes: bool, invertExpectedCountries: bool,
    invertToPrefixes: bool, invertToCountries: bool, invertToPorts: bool)
  {
    predicate HasFromPrefixes() { |fromPrefixes| > 0 || |fromPrefixSets| > 0 }
    predicate HasToDomains() { |toDomains| > 0 || |toDomainSets| > 0 }
    predicate HasExpectedPrefixes() { |expectedPrefixes| > 0 || |expectedPrefixSets| > 0 }
    predicate HasExpected() { HasExpectedPrefixes() || |expectedCountries| > 0 }
    predicate HasToPrefixes() { |toPrefixes| > 0 || |toPrefixSets| > 0 }
  }

  /** What the rest of the configuration provides. Clients are known by name. */
  datatype Context = Context(
    hasGeoIP: bool, resolvers: seq<Resolver>, resolverMap: map<string, Resolver>,
    tcpClients: set<string>, udpClients: set<string>,
    domainSets: map<string, DomainSet>, prefixSets: map<string, IPSet>)

  datatype ConfigError =
    | BadName | MissingGeoIP | MissingResolvers | MissingDomainCriteria | ResolverNotFound | InvalidNetwork
    | ClientNotFound | PrefixSetNotFound | InvalidPrefix | DomainSetNotFound

  datatype Route = Route(name: string, criteria: seq<Criterion>, tcpClient: Option<string>, udpClient: Option<string>)

  // ----- the direct reading -----

  predicate InPrefixes(prefixes: seq<Prefix>, sets: seq<string>, ctx: Context, ip: IP) {
    || (exists i :: 0 <= i < |prefixes| && prefixes[i].contains(ip))
    || (exists i :: 0 <= i < |sets| && sets[i] in ctx.prefixSets && ctx.prefixSets[sets[i]](ip))
  }

  predicate InDomains(domains: seq<string>, sets: seq<string>, ctx: Context, domain: string) {
    || domain in domains
    || (exists i :: 0 <= i < |sets| && sets[i] in ctx.domainSets && ctx.domainSets[sets[i]](domain))
  }

  function Resolvers(rc: RouteConfig, ctx: Context): seq<Resolver> {
    if rc.resolver != "" && rc.resolver in ctx.resolverMap then [ctx.resolverMap[rc.resolver]] else ctx.resolvers
  }

  /** A question about the destination address; a domain is resolved first if `resolve` says so. */
  function AskDest(q: Request, resolve: bool, resolvers: seq<Resolver>, ip: IP -> Answer, found: IP -> Answer): Answer {
    if q.target.ToIP? then ip(q.target.ip)
    else if resolve then Resolved(resolvers, q.target.domain, found)
    else No
  }

  function NetworkClause(rc: RouteConfig, q: Request): Answer {
    if rc.network == "tcp" then Of(q.network.TCP?)
    else if rc.network == "udp" then Of(q.network.UDP?)
    else Yes
  }

  function ServerClause(rc: RouteConfig, q: Request): Answer {
    if rc.fromServers == [] then Yes else Flip(Of(q.server in rc.fromServers), rc.invertFromServers)
  }

  function SourceClause(rc: RouteConfig, ctx: Context, geo: GeoIP, q: Request): Answer {
    if !rc.HasFromPrefixes() && rc.fromCountries == [] then Yes
    else
      Or(if rc.HasFromPrefixes()
         then Flip(Of(InPrefixes(rc.fromPrefixes, rc.fromPrefixSets, ctx, q.source.ip.Unmap())), rc.invertFromPrefixes)
         else No,
         if rc.fromCountries != []
         then Flip(Country(geo, rc.fromCountries, q.source.ip), rc.invertFromCountries)
         else No)
  }

  function SourcePortClause(rc: RouteConfig, q: Request): Answer {
    if rc.fromPorts == [] then Yes else Flip(Of(q.source.port in rc.fromPorts), rc.invertFromPorts)
  }

  function DestPrefixes(prefixes: seq<Prefix>, sets: seq<string>, resolve: bool, rc: RouteConfig, ctx: Context, q: Request): Answer {
    AskDest(q, resolve, Resolvers(rc, ctx), (ip: IP) => Of(InPrefixes(prefixes, sets, ctx, ip.Unmap())),
            ip => Of(InPrefixes(prefixes, sets, ctx, ip)))
  }

  function DestCountries(countries: seq<string>, resolve: bool, rc: RouteConfig, ctx: Context, geo: GeoIP, q: Request): Answer {
    AskDest(q, resolve, Resolvers(rc, ctx), ip => Country(geo, countries, ip), ip => Country(geo, countries, ip))
  }

  function ExpectedClause(rc: RouteConfig, ctx: Context, geo: GeoIP, q: Request): Answer {
    if !rc.HasExpected() then Yes
    else
      Or(if rc.HasExpectedPrefixes()
         then Flip(DestPrefixes(rc.expectedPrefixes, rc.expectedPrefixSets, true, rc, ctx, q), rc.invertExpectedPrefixes)
         else No,
         if rc.expectedCountries != []
         then Flip(DestCountries(rc.expectedCountries, true, rc, ctx, geo, q), rc.invertExpectedCountries)
         else No)
  }

  function DomainAndExpected(rc: RouteConfig, ctx: Context, geo: GeoIP, q: Request): Answer {
    And(Of(q.target.ToDomain? && InDomains(rc.toDomains, rc.toDomainSets, ctx, q.target.domain)),
        ExpectedClause(rc, ctx, geo, q))
  }

  /** The part of the destination clause that asks about addresses. */
  function AddressPart(rc: RouteConfig, ctx: Context, geo: GeoIP, q: Request): Answer {
    Or(if rc.HasToPrefixes()
       then Flip(DestPrefixes(rc.toPrefixes, rc.toPrefixSets, !rc.disableNameResolution, rc, ctx, q), rc.invertToPrefixes)
       else No,
       if rc.toCountries != []
       then Flip(DestCountries(rc.toCountries, !rc.disableNameResolution, rc, ctx, geo, q), rc.invertToCountries)
       else No)
  }

  function DestClause(rc: RouteConfig, ctx: Context, geo: GeoIP, q: Request): Answer {
    if !rc.HasToDomains() && !rc.HasToPrefixes() && rc.toCountries == [] then Yes
    else Or(if rc.HasToDomains() then Flip(DomainAndExpected(rc, ctx, geo, q), rc.invertToDomains) else No,
            AddressPart(rc, ctx, geo, q))
  }

  function DestPortClause(rc: RouteConfig, q: Request): Answer {
    if rc.toPorts == [] then Yes else Flip(Of(q.target.port in rc.toPorts), rc.invertToPorts)
  }

  /** Every clause that is present must be met, in this order; within source and destination one part is enough;
      the first error stops. */
  function Reading(rc: RouteConfig, ctx: Context, geo: GeoIP, q: Request): Answer {
    And(NetworkClause(rc, q),
    And(ServerClause(rc, q),
    And(SourceClause(rc, ctx, geo, q),
    And(SourcePortClause(rc, q),
    And(DestClause(rc, ctx, geo, q),
        DestPortClause(rc, q))))))
  }

  // ----- what makes a configuration acceptable -----

  predicate PrefixesKnown(prefixes: seq<Prefix>, sets: seq<string>, ctx: Context) {
    && (forall i :: 0 <= i < |prefixes| ==> prefixes[i].valid)
    && (forall i :: 0 <= i < |sets| ==> sets[i] in ctx.prefixSets)
  }

  predicate ClientKnown(rc: RouteConfig, ctx: Context) {
    rc.client == "reject" ||
    (&& (rc.network != "udp" ==> rc.client in ctx.tcpClients)
     && (rc.network != "tcp" ==> rc.client in ctx.udpClients))
  }

  predicate Acceptable(rc: RouteConfig, ctx: Context) {
    && rc.name != "" && rc.name != "default"
    && (ctx.hasGeoIP || (rc.fromCountries == [] && rc.toCountries == [] && rc.expectedCountries == []))
    && (ctx.resolvers != [] ||
        (!rc.HasExpected() && (rc.disableNameResolution || (!rc.HasToPrefixes() && rc.toCountries == []))))
    && (rc.HasToDomains() || !rc.HasExpected())
    && (rc.resolver != "" ==> rc.resolver in ctx.resolverMap)
    && rc.network in ["", "tcp", "udp"] && ClientKnown(rc, ctx)
    && PrefixesKnown(rc.fromPrefixes, rc.fromPrefixSets, ctx)
    && DomainSetsKnown(rc, ctx)
    && PrefixesKnown(rc.expectedPrefixes, rc.expectedPrefixSets, ctx)
    && PrefixesKnown(rc.toPrefixes, rc.toPrefixSets, ctx)
  }

  // ----- building blocks -----

  function AddTo(cs: seq<Criterion>, c: Criterion, invert: bool): seq<Criterion> {
    cs + [if invert then Inverted(c) else c]
  }

  lemma {:induction false} AllAppend(cs: seq<Criterion>, c: Criterion, geo: GeoIP, q: Request)
    ensures AllOutcome(cs + [c], geo, q) == And(AllOutcome(cs, geo, q), Outcome(c, geo, q))
    decreases |cs|
  {
    if cs == [] {
      assert ([] + [c])[1..] == [];
    } else {
      assert (cs + [c])[1..] == cs[1..] + [c];
      AllAppend(cs[1..], c, geo, q);
    }
  }

  lemma {:induction false} AnyAppend(cs: seq<Criterion>, c: Criterion, geo: GeoIP, q: Request)
    ensures AnyOutcome(cs + [c], geo, q) == Or(AnyOutcome(cs, geo, q), Outcome(c, geo, q))
    decreases |cs|
  {
    if cs == [] {
      assert ([] + [c])[1..] == [];
    } else {
      assert (cs + [c])[1..] == cs[1..] + [c];
      AnyAppend(cs[1..], c, geo, q);
    }
  }

  lemma AllAddTo(cs: seq<Criterion>, c: Criterion, invert: bool)
    ensures forall geo, q :: AllOutcome(AddTo(cs, c, invert), geo, q) ==
                             And(AllOutcome(cs, geo, q), Flip(Outcome(c, geo, q), invert))
  {
    forall geo, q
      ensures AllOutcome(AddTo(cs, c, invert), geo, q) == And(AllOutcome(cs, geo, q), Flip(Outcome(c, geo, q), invert))
    {
      AllAppend(cs, if invert then Inverted(c) else c, geo, q);
    }
  }

  lemma AnyAddTo(cs: seq<Criterion>, c: Criterion, invert: bool)
    ensures forall geo, q :: AnyOutcome(AddTo(cs, c, invert), geo, q) ==
                             Or(AnyOutcome(cs, geo, q), Flip(Outcome(c, geo, q), invert))
  {
    forall geo, q
      ensures AnyOutcome(AddTo(cs, c, invert), geo, q) == Or(AnyOutcome(cs, geo, q), Flip(Outcome(c, geo, q), invert))
    {
      AnyAppend(cs, if invert then Inverted(c) else c, geo, q);
    }
  }

  /** CriterionGroupOR.Criterion: a group of one is its member, which changes no outcome. */
  function GroupCriterion(group: seq<Criterion>): (r: Criterion)
    requires group != []
    ensures forall geo, q :: Outcome(r, geo, q) == AnyOutcome(group, geo, q)
  {
    if |group| == 1 then group[0] else GroupOR(group)
  }

  /** CriterionGroupOR.AppendTo. */
  function AppendGroup(group: seq<Criterion>, cs: seq<Criterion>): seq<Criterion> {
    if group == [] then cs else cs + [GroupCriterion(group)]
  }

  lemma AllAppendGroup(group: seq<Criterion>, cs: seq<Criterion>)
    ensures forall geo, q :: AllOutcome(AppendGroup(group, cs), geo, q) ==
              if group == [] then AllOutcome(cs, geo, q) else And(AllOutcome(cs, geo, q), AnyOutcome(group, geo, q))
  {
    if group != [] {
      forall geo, q
        ensures AllOutcome(AppendGroup(group, cs), geo, q) == And(AllOutcome(cs, geo, q), AnyOutcome(group, geo, q))
      {
        AllAppend(cs, GroupCriterion(group), geo, q);
      }
    }
  }

  /** IPSetBuilder: the union of the prefixes and the named sets. */
  method BuildIPSet(prefixes: seq<Prefix>, sets: seq<string>, ctx: Context) returns (r: Result<IPSet, ConfigError>)
    ensures r.Ok? <==> PrefixesKnown(prefixes, sets, ctx)
    ensures r.Ok? ==> forall ip :: r.value(ip) <==> InPrefixes(prefixes, sets, ctx, ip)
  {
    var s: IPSet := ip => false;
    var valid := true;
    for i := 0 to |prefixes|
      invariant valid <==> forall j :: 0 <= j < i ==> prefixes[j].valid
      invariant forall ip :: s(ip) <==> exists j :: 0 <= j < i && prefixes[j].contains(ip)
    {
      var prev, p := s, prefixes[i];
      valid := valid && p.valid;
      s := ip => prev(ip) || p.contains(ip);
    }
    for i := 0 to |sets|
      invariant forall j :: 0 <= j < i ==> sets[j] in ctx.prefixSets
      invariant forall ip :: s(ip) <==>
                  || (exists j :: 0 <= j < |prefixes| && prefixes[j].contains(ip))
                  || (exists j :: 0 <= j < i && sets[j] in ctx.prefixSets && ctx.prefixSets[sets[j]](ip))
    {
      if sets[i] !in ctx.prefixSets {
        return Err(PrefixSetNotFound);
      }
      var prev, more := s, ctx.prefixSets[sets[i]];
      s := ip => prev(ip) || more(ip);
    }
    if !valid {
      return Err(InvalidPrefix);
    }
    return Ok(s);
  }

  method BuildDomainSets(domains: seq<string>, sets: seq<string>, ctx: Context) returns (r: Result<seq<DomainSet>, ConfigError>)
    ensures r.Ok? <==> forall i :: 0 <= i < |sets| ==> sets[i] in ctx.domainSets
    ensures r.Ok? ==> forall d :: InSets(r.value, d) <==> InDomains(domains, sets, ctx, d)
  {
    var out: seq<DomainSet> := [];
    if |domains| > 0 {
      out := [d => d in domains];
    }
    ghost var first := out;
    for i := 0 to |sets|
      invariant forall j :: 0 <= j < i ==> sets[j] in ctx.domainSets
      invariant |out| == |first| + i && out[..|first|] == first
      invariant forall j :: 0 <= j < i ==> out[|first| + j] == ctx.domainSets[sets[j]]
    {
      if sets[i] !in ctx.domainSets {
        return Err(DomainSetNotFound);
      }
      out := out + [ctx.domainSets[sets[i]]];
    }
    forall d
      ensures InSets(out, d) <==> InDomains(domains, sets, ctx, d)
    {
      if i :| 0 <= i < |out| && out[i](d) {
        assert i < |first| ==> first[i] == out[i];
        assert i >= |first| ==> out[|first| + (i - |first|)] == ctx.domainSets[sets[i - |first|]];
      }
      if d in domains {
        assert first == out[..1] && out[0](d);
      }
      if j :| 0 <= j < |sets| && ctx.domainSets[sets[j]](d) {
        assert out[|first| + j](d);
      }
    }
    return Ok(out);
  }

  // ----- compilation -----

  lemma ResolvedAlike(resolvers: seq<Resolver>, domain: string, f: IP -> Answer, g: IP -> Answer)
    requires forall ip :: f(ip) == g(ip)
    ensures Resolved(resolvers, domain, f) == Resolved(resolvers, domain, g)
  {}

  lemma DestPrefixesOutcome(ips: IPSet, prefixes: seq<Prefix>, sets: seq<string>, rc: RouteConfig, ctx: Context, geo: GeoIP, q: Request)
    requires forall ip :: ips(ip) <==> InPrefixes(prefixes, sets, ctx, ip)
    ensures Outcome(DestIP(ips), geo, q) == DestPrefixes(prefixes, sets, false, rc, ctx, q)
    ensures Outcome(DestResolvedIP(ips, Resolvers(rc, ctx)), geo, q) == DestPrefixes(prefixes, sets, true, rc, ctx, q)
  {
    hide InPrefixes;
    if q.target.ToDomain? {
      ResolvedAlike(Resolvers(rc, ctx), q.target.domain, ip => Of(ips(ip)), ip => Of(InPrefixes(prefixes, sets, ctx, ip)));
    }
  }

  lemma DestCountriesOutcome(countries: seq<string>, rc: RouteConfig, ctx: Context, geo: GeoIP, q: Request)
    ensures Outcome(DestGeoIP(countries), geo, q) == DestCountries(countries, false, rc, ctx, geo, q)
    ensures Outcome(DestResolvedGeoIP(countries, Resolvers(rc, ctx)), geo, q) == DestCountries(countries, true, rc, ctx, geo, q)
  {
    if q.target.ToDomain? {
      ResolvedAlike(Resolvers(rc, ctx), q.target.domain, ip => Country(geo, countries, ip), ip => Country(geo, countries, ip));
    }
  }

  method SourceGroup(rc: RouteConfig, ctx: Context) returns (r: Result<seq<Criterion>, ConfigError>)
    ensures r.Ok? <==> PrefixesKnown(rc.fromPrefixes, rc.fromPrefixSets, ctx)
    ensures r.Ok? ==> (r.value == [] <==> !rc.HasFromPrefixes() && rc.fromCountries == [])
    ensures r.Ok? && r.value != [] ==> forall geo, q :: AnyOutcome(r.value, geo, q) == SourceClause(rc, ctx, geo, q)
  {
    hide InPrefixes;
    var group: seq<Criterion> := [];
    if rc.HasFromPrefixes() {
      var ips := BuildIPSet(rc.fromPrefixes, rc.fromPrefixSets, ctx);
      if ips.Err? {
        return Err(ips.error);
      }
      AnyAddTo(group, SourceIP(ips.value), rc.invertFromPrefixes);
      group := AddTo(group, SourceIP(ips.value), rc.invertFromPrefixes);
    }
    if |rc.fromCountries| > 0 {
      AnyAddTo(group, SourceGeoIP(rc.fromCountries), rc.invertFromCountries);
      group := AddTo(group, SourceGeoIP(rc.fromCountries), rc.invertFromCountries);
    }
    return Ok(group);
  }

  method ExpectedGroup(rc: RouteConfig, ctx: Context) returns (r: Result<Criterion, ConfigError>)
    requires rc.HasExpected()
    ensures r.Ok? <==> PrefixesKnown(rc.expectedPrefixes, rc.expectedPrefixSets, ctx)
    ensures r.Ok? ==> forall geo, q :: Outcome(r.value, geo, q) == ExpectedClause(rc, ctx, geo, q)
  {
    hide InPrefixes, DestPrefixes, DestCountries;
    var group: seq<Criterion> := [];
    if rc.HasExpectedPrefixes() {
      var ips := BuildIPSet(rc.expectedPrefixes, rc.expectedPrefixSets, ctx);
      if ips.Err? {
        return Err(ips.error);
      }
      var c := DestResolvedIP(ips.value, Resolvers(rc, ctx));
      AnyAddTo(group, c, rc.invertExpectedPrefixes);
      forall geo, q
        ensures Outcome(c, geo, q) == DestPrefixes(rc.expectedPrefixes, rc.expectedPrefixSets, true, rc, ctx, q)
      {
        DestPrefixesOutcome(ips.value, rc.expectedPrefixes, rc.expectedPrefixSets, rc, ctx, geo, q);
      }
      group := AddTo(group, c, rc.invertExpectedPrefixes);
    }
    if |rc.expectedCountries| > 0 {
      var c := DestResolvedGeoIP(rc.expectedCountries, Resolvers(rc, ctx));
      AnyAddTo(group, c, rc.invertExpectedCountries);
      forall geo, q
        ensures Outcome(c, geo, q) == DestCountries(rc.expectedCountries, true, rc, ctx, geo, q)
      {
        DestCountriesOutcome(rc.expectedCountries, rc, ctx, geo, q);
      }
      group := AddTo(group, c, rc.invertExpectedCountries);
    }
    return Ok(GroupCriterion(group));
  }

  predicate DomainSetsKnown(rc: RouteConfig, ctx: Context) {
    forall i :: 0 <= i < |rc.toDomainSets| ==> rc.toDomainSets[i] in ctx.domainSets
  }

  method DomainCriterion(rc: RouteConfig, ctx: Context) returns (r: Result<Criterion, ConfigError>)
    ensures r.Ok? <==> DomainSetsKnown(rc, ctx) && PrefixesKnown(rc.expectedPrefixes, rc.expectedPrefixSets, ctx)
    ensures r.Ok? ==> forall geo, q :: Outcome(r.value, geo, q) == DomainAndExpected(rc, ctx, geo, q)
  {
    hide InDomains, ExpectedClause;
    var sets := BuildDomainSets(rc.toDomains, rc.toDomainSets, ctx);
    if sets.Err? {
      return Err(sets.error);
    }
    if rc.HasExpected() {
      var expected := ExpectedGroup(rc, ctx);
      if expected.Err? {
        return Err(expected.error);
      }
      r := Ok(DestDomainExpected(sets.value, expected.value));
    } else {
      r := Ok(DestDomain(sets.value));
      NoExpectation(rc, ctx);
    }
  }

  lemma NoExpectation(rc: RouteConfig, ctx: Context)
    requires !rc.HasExpected()
    ensures forall geo, q :: ExpectedClause(rc, ctx, geo, q) == Yes
  {}

  method AddressCriteria(rc: RouteConfig, ctx: Context, first: seq<Criterion>) returns (r: Result<seq<Criterion>, ConfigError>)
    ensures r.Ok? <==> PrefixesKnown(rc.toPrefixes, rc.toPrefixSets, ctx)
    ensures r.Ok? ==> (r.value == [] <==> first == [] && !rc.HasToPrefixes() && rc.toCountries == [])
    ensures r.Ok? ==> forall geo, q :: AnyOutcome(r.value, geo, q) == Or(AnyOutcome(first, geo, q), AddressPart(rc, ctx, geo, q))
  {
    hide InPrefixes, DestPrefixes, DestCountries, AnyOutcome, Outcome;
    var group := first;
    if rc.HasToPrefixes() {
      var ips := BuildIPSet(rc.toPrefixes, rc.toPrefixSets, ctx);
      if ips.Err? {
        return Err(ips.error);
      }
      var c := if rc.disableNameResolution then DestIP(ips.value) else DestResolvedIP(ips.value, Resolvers(rc, ctx));
      AnyAddTo(group, c, rc.invertToPrefixes);
      forall geo, q
        ensures Outcome(c, geo, q) == DestPrefixes(rc.toPrefixes, rc.toPrefixSets, !rc.disableNameResolution, rc, ctx, q)
      {
        DestPrefixesOutcome(ips.value, rc.toPrefixes, rc.toPrefixSets, rc, ctx, geo, q);
      }
      group := AddTo(group, c, rc.invertToPrefixes);
    }
    if |rc.toCountries| > 0 {
      var c := if rc.disableNameResolution then DestGeoIP(rc.toCountries) else DestResolvedGeoIP(rc.toCountries, Resolvers(rc, ctx));
      AnyAddTo(group, c, rc.invertToCountries);
      forall geo, q
        ensures Outcome(c, geo, q) == DestCountries(rc.toCountries, !rc.disableNameResolution, rc, ctx, geo, q)
      {
        DestCountriesOutcome(rc.toCountries, rc, ctx, geo, q);
      }
      group := AddTo(group, c, rc.invertToCountries);
    }
    return Ok(group);
  }

  method DestGroup(rc: RouteConfig, ctx: Context) returns (r: Result<seq<Criterion>, ConfigError>)
    requires rc.HasToDomains() || !rc.HasExpected()
    ensures r.Ok? <==>
            && DomainSetsKnown(rc, ctx) && PrefixesKnown(rc.expectedPrefixes, rc.expectedPrefixSets, ctx)
            && PrefixesKnown(rc.toPrefixes, rc.toPrefixSets, ctx)
    ensures r.Ok? ==> (r.value == [] <==> !rc.HasToDomains() && !rc.HasToPrefixes() && rc.toCountries == [])
    ensures r.Ok? && r.value != [] ==> forall geo, q :: AnyOutcome(r.value, geo, q) == DestClause(rc, ctx, geo, q)
  {
    hide DomainAndExpected, AddressPart, Outcome;
    var group: seq<Criterion> := [];
    if rc.HasToDomains() {
      var c := DomainCriterion(rc, ctx);
      if c.Err? {
        return Err(c.error);
      }
      AnyAddTo(group, c.value, rc.invertToDomains);
      group := AddTo(group, c.value, rc.invertToDomains);
    }
    r := AddressCriteria(rc, ctx, group);
  }

  /** The checks that come before anything is built. */
  function EarlyError(rc: RouteConfig, ctx: Context): Option<ConfigError> {
    if rc.name == "" || rc.name == "default" then Some(BadName)
    else if !ctx.hasGeoIP && (|rc.fromCountries| > 0 || |rc.toCountries| > 0 || |rc.expectedCountries| > 0) then Some(MissingGeoIP)
    else if |ctx.resolvers| == 0 &&
            (rc.HasExpected() || (!rc.disableNameResolution && (rc.HasToPrefixes() || |rc.toCountries| > 0))) then Some(MissingResolvers)
    else if !rc.HasToDomains() && rc.HasExpected() then Some(MissingDomainCriteria)
    else if rc.resolver != "" && rc.resolver !in ctx.resolverMap then Some(ResolverNotFound)
    else if rc.network !in ["", "tcp", "udp"] then Some(InvalidNetwork)
    else if !ClientKnown(rc, ctx) then Some(ClientNotFound)
    else None
  }

  /** RouteConfig.Route: accepts exactly the acceptable configurations, and every request has the outcome of
      the direct reading. */
  method Compile(rc: RouteConfig, ctx: Context) returns (r: Result<Route, ConfigError>)
    ensures r.Ok? <==> Acceptable(rc, ctx)
    ensures EarlyError(rc, ctx).Some? ==> r == Err(EarlyError(rc, ctx).value)
    ensures r.Ok? ==>
              && r.value.name == rc.name
              && (forall geo, q :: AllOutcome(r.value.criteria, geo, q) == Reading(rc, ctx, geo, q))
              && r.value.tcpClient == (if rc.client == "reject" || rc.network == "udp" then None else Some(rc.client))
              && r.value.udpClient == (if rc.client == "reject" || rc.network == "tcp" then None else Some(rc.client))
  {
    hide PrefixesKnown, ClientKnown, SourceClause, DestClause, Outcome, AnyOutcome, AllOutcome,
         NetworkClause, ServerClause, SourcePortClause, DestPortClause, Reading, Resolvers, AppendGroup, AddTo, DomainSetsKnown,
         RouteConfig.HasFromPrefixes, RouteConfig.HasToPrefixes;
    var early := EarlyError(rc, ctx);
    if early.Some? {
      return Err(early.value);
    }
    var cs: seq<Criterion> := [];
    if rc.network == "tcp" {
      cs := AddTo(cs, NetworkTCP, false);
    } else if rc.network == "udp" {
      cs := AddTo(cs, NetworkUDP, false);
    }
    ghost var c1 := cs;
    NetworkStep(rc, c1);
    var tcp := if rc.client != "reject" && rc.network in ["", "tcp"] then Some(rc.client) else None;
    var udp := if rc.client != "reject" && rc.network in ["", "udp"] then Some(rc.client) else None;
    ServerStep(rc, cs);
    if |rc.fromServers| > 0 {
      cs := AddTo(cs, SourceServer(rc.fromServers), rc.invertFromServers);
    }
    ghost var c2 := cs;
    var source := SourceGroup(rc, ctx);
    if source.Err? {
      return Err(source.error);
    }
    SourceStep(rc, ctx, source.value, cs);
    cs := AppendGroup(source.value, cs);
    ghost var c3 := cs;
    SourcePortStep(rc, cs);
    if |rc.fromPorts| > 0 {
      cs := AddTo(cs, SourcePort(rc.fromPorts), rc.invertFromPorts);
    }
    ghost var c4 := cs;
    var dest := DestGroup(rc, ctx);
    if dest.Err? {
      return Err(dest.error);
    }
    DestStep(rc, ctx, dest.value, cs);
    cs := AppendGroup(dest.value, cs);
    ghost var c5 := cs;
    DestPortStep(rc, cs);
    if |rc.toPorts| > 0 {
      cs := AddTo(cs, DestPort(rc.toPorts), rc.invertToPorts);
    }
    Steps(rc, ctx, c1, c2, c3, c4, c5, cs);
    return Ok(Route(rc.name, cs, tcp, udp));
  }

  // ----- each step adds its clause -----

  lemma NetworkStep(rc: RouteConfig, cs: seq<Criterion>)
    requires cs == if rc.network == "tcp" then AddTo([], NetworkTCP, false)
                   else if rc.network == "udp" then AddTo([], NetworkUDP, false)
                   else []
    ensures forall geo, q :: AllOutcome(cs, geo, q) == NetworkClause(rc, q)
  {
    AllAddTo([], NetworkTCP, false);
    AllAddTo([], NetworkUDP, false);
  }

  lemma ServerStep(rc: RouteConfig, cs: seq<Criterion>)
    ensures forall geo, q ::
              AllOutcome(if |rc.fromServers| > 0 then AddTo(cs, SourceServer(rc.fromServers), rc.invertFromServers) else cs, geo, q)
              == And(AllOutcome(cs, geo, q), ServerClause(rc, q))
  {
    hide AllOutcome;
    AllAddTo(cs, SourceServer(rc.fromServers), rc.invertFromServers);
  }

  lemma SourcePortStep(rc: RouteConfig, cs: seq<Criterion>)
    ensures forall geo, q ::
              AllOutcome(if |rc.fromPorts| > 0 then AddTo(cs, SourcePort(rc.fromPorts), rc.invertFromPorts) else cs, geo, q)
              == And(AllOutcome(cs, geo, q), SourcePortClause(rc, q))
  {
    hide AllOutcome;
    AllAddTo(cs, SourcePort(rc.fromPorts), rc.invertFromPorts);
  }

  lemma DestPortStep(rc: RouteConfig, cs: seq<Criterion>)
    ensures forall geo, q ::
              AllOutcome(if |rc.toPorts| > 0 then AddTo(cs, DestPort(rc.toPorts), rc.invertToPorts) else cs, geo, q)
              == And(AllOutcome(cs, geo, q), DestPortClause(rc, q))
  {
    hide AllOutcome;
    AllAddTo(cs, DestPort(rc.toPorts), rc.invertToPorts);
  }

  lemma SourceStep(rc: RouteConfig, ctx: Context, group: seq<Criterion>, cs: seq<Criterion>)
    requires group == [] ==> !rc.HasFromPrefixes() && rc.fromCountries == []
    requires group != [] ==> forall geo, q :: AnyOutcome(group, geo, q) == SourceClause(rc, ctx, geo, q)
    ensures forall geo, q ::
              AllOutcome(AppendGroup(group, cs), geo, q) == And(AllOutcome(cs, geo, q), SourceClause(rc, ctx, geo, q))
  {
    hide AllOutcome, AnyOutcome;
    AllAppendGroup(group, cs);
  }

  lemma DestStep(rc: RouteConfig, ctx: Context, group: seq<Criterion>, cs: seq<Criterion>)
    requires group == [] ==> !rc.HasToDomains() && !rc.HasToPrefixes() && rc.toCountries == []
    requires group != [] ==> forall geo, q :: AnyOutcome(group, geo, q) == DestClause(rc, ctx, geo, q)
    ensures forall geo, q ::
              AllOutcome(AppendGroup(group, cs), geo, q) == And(AllOutcome(cs, geo, q), DestClause(rc, ctx, geo, q))
  {
    hide AllOutcome, AnyOutcome;
    AllAppendGroup(group, cs);
  }

  lemma Steps(rc: RouteConfig, ctx: Context, c1: seq<Criterion>, c2: seq<Criterion>, c3: seq<Criterion>,
              c4: seq<Criterion>, c5: seq<Criterion>, c6: seq<Criterion>)
    requires forall geo, q :: AllOutcome(c1, geo, q) == NetworkClause(rc, q)
    requires forall geo, q :: AllOutcome(c2, geo, q) == And(AllOutcome(c1, geo, q), ServerClause(rc, q))
    requires forall geo, q :: AllOutcome(c3, geo, q) == And(AllOutcome(c2, geo, q), SourceClause(rc, ctx, geo, q))
    requires forall geo, q :: AllOutcome(c4, geo, q) == And(AllOutcome(c3, geo, q), SourcePortClause(rc, q))
    requires forall geo, q :: AllOutcome(c5, geo, q) == And(AllOutcome(c4, geo, q), DestClause(rc, ctx, geo, q))
    requires forall geo, q :: AllOutcome(c6, geo, q) == And(AllOutcome(c5, geo, q), DestPortClause(rc, q))
    ensures forall geo, q :: AllOutcome(c6, geo, q) == Reading(rc, ctx, geo, q)
  {
    hide AllOutcome, NetworkClause, ServerClause, SourceClause, SourcePortClause, DestClause, DestPortClause;
  }
}
