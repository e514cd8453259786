/** What a route takes, in plain terms: no answers, no order of evaluation, no criteria. */
module RouteMeaning {
  import opened Words
  import opened SocksAddr
  import opened Routing
  import opened RouteConfigs

  /** The first of the resolvers that answers finds these addresses. */
  predicate Finds(resolvers: seq<Resolver>, domain: string, v6: seq<IP>, v4: seq<IP>) {
    exists k :: 0 <= k < |resolvers| && resolvers[k](domain) == Found(v6, v4) && NoneBefore(resolvers, domain, k)
  }

  predicate NoneBefore(resolvers: seq<Resolver>, domain: string, k: nat)
    requires k <= |resolvers|
  {
    forall j :: 0 <= j < k ==> resolvers[j](domain).NoAnswer?
  }

  /** The named resolver alone, or all of them. */
  function Asked(rc: RouteConfig, ctx: Context): seq<Resolver>
    requires rc.resolver != "" ==> rc.resolver in ctx.resolverMap
  {
    if rc.resolver == "" then ctx.resolvers else [ctx.resolverMap[rc.resolver]]
  }

  ghost predicate Listed(ip: IP, prefixes: seq<Prefix>, sets: seq<string>, ctx: Context) {
    || (exists p :: p in prefixes && p.contains(ip))
    || (exists n :: n in sets && n in ctx.prefixSets && ctx.prefixSets[n](ip))
  }

  /** The country of the address is one of these. */
  predicate CountryIn(geo: GeoIP, ip: IP, countries: seq<string>) {
    geo(ip).Some? && geo(ip).value in countries
  }

  ghost predicate TakesSource(rc: RouteConfig, ctx: Context, geo: GeoIP, q: Request) {
    var ip := q.source.ip;
    var byPrefix, byCountry := rc.fromPrefixes != [] || rc.fromPrefixSets != [], rc.fromCountries != [];
    || (!byPrefix && !byCountry)
    || (byPrefix && Listed(ip.Unmap(), rc.fromPrefixes, rc.fromPrefixSets, ctx) != rc.invertFromPrefixes)
    || (byCountry && CountryIn(geo, ip, rc.fromCountries) != rc.invertFromCountries)
  }

  /** `at` is the address of the target: its own, or what its domain was resolved to, if anything. */
  ghost predicate TakesAddress(rc: RouteConfig, ctx: Context, geo: GeoIP, q: Request, at: Option<IP>) {
    var ip := if q.target.ToIP? then Some(q.target.ip.Unmap()) else at;
    var known := q.target.ToIP? || !rc.disableNameResolution;
    var byPrefix, byCountry := rc.toPrefixes != [] || rc.toPrefixSets != [], rc.toCountries != [];
    || (byPrefix && (known && ip.Some? && Listed(ip.value, rc.toPrefixes, rc.toPrefixSets, ctx)) != rc.invertToPrefixes)
    || (byCountry && (known && at.Some? && CountryIn(geo, at.value, rc.toCountries)) != rc.invertToCountries)
  }

  ghost predicate TakesDest(rc: RouteConfig, ctx: Context, geo: GeoIP, q: Request, at: Option<IP>) {
    var byDomain := rc.toDomains != [] || rc.toDomainSets != [];
    || (!byDomain && rc.toPrefixes == [] && rc.toPrefixSets == [] && rc.toCountries == [])
    || (byDomain && TakesDomain(rc, ctx, geo, q, at) != rc.invertToDomains)
    || TakesAddress(rc, ctx, geo, q, at)
  }

  ghost predicate Takes(rc: RouteConfig, ctx: Context, geo: GeoIP, q: Request, at: Option<IP>) {
    && (rc.network == "" || rc.network == (if q.network.TCP? then "tcp" else "udp"))
    && (rc.fromServers == [] || (q.server in rc.fromServers) != rc.invertFromServers)
    && TakesSource(rc, ctx, geo, q)
    && (rc.fromPorts == [] || (q.source.port in rc.fromPorts) != rc.invertFromPorts)
    && TakesDest(rc, ctx, geo, q, at)
    && (rc.toPorts == [] || (q.target.port in rc.toPorts) != rc.invertToPorts)
  }

  // ----- resolving and countries, exactly -----

  lemma {:induction false} LookUpFinds(resolvers: seq<Resolver>, domain: string, k: nat)
    requires k < |resolvers| && !resolvers[k](domain).NoAnswer? && NoneBefore(resolvers, domain, k)
    ensures LookUp(resolvers, domain) == resolvers[k](domain)
    decreases k
  {
    if k > 0 {
      assert resolvers[0](domain).NoAnswer?;
      LookUpFinds(resolvers[1..], domain, k - 1);
    }
  }

  lemma {:induction false} LookUpFails(resolvers: seq<Resolver>, domain: string)
    requires NoneBefore(resolvers, domain, |resolvers|)
    ensures LookUp(resolvers, domain) == NoAnswer
    decreases |resolvers|
  {
    if resolvers != [] {
      assert resolvers[0](domain).NoAnswer?;
      LookUpFails(resolvers[1..], domain);
    }
  }

  /** The first address found, of IPv6 before IPv4, is asked about; no address means no; no answer is an error, and so is a
      broken resolver that comes first. */
  lemma ResolvedExactly(resolvers: seq<Resolver>, domain: string, ask: IP -> Answer)
    ensures NoneBefore(resolvers, domain, |resolvers|) ==> Resolved(resolvers, domain, ask) == Fail(LookupFailed)
    ensures forall k :: 0 <= k < |resolvers| && NoneBefore(resolvers, domain, k) ==>
              && (resolvers[k](domain).Broken? ==> Resolved(resolvers, domain, ask) == Fail(ResolverFailed))
              && (resolvers[k](domain).Found? ==>
                    var f := resolvers[k](domain);
                    Resolved(resolvers, domain, ask) ==
                    if f.v6 != [] then ask(f.v6[0]) else if f.v4 != [] then ask(f.v4[0]) else No)
  {
    if NoneBefore(resolvers, domain, |resolvers|) {
      LookUpFails(resolvers, domain);
    }
    forall k | 0 <= k < |resolvers| && NoneBefore(resolvers, domain, k) && !resolvers[k](domain).NoAnswer?
      ensures LookUp(resolvers, domain) == resolvers[k](domain)
    {
      LookUpFinds(resolvers, domain, k);
    }
  }

  // ----- the meaning of a route -----

  /** The address of the target, if the resolvers find these. */
  function Address(q: Request, v6: seq<IP>, v4: seq<IP>): Option<IP> {
    if q.target.ToIP? then Some(q.target.ip) else if v6 != [] then Some(v6[0]) else if v4 != [] then Some(v4[0]) else None
  }

  lemma InPrefixesListed(prefixes: seq<Prefix>, sets: seq<string>, ctx: Context, ip: IP)
    ensures InPrefixes(prefixes, sets, ctx, ip) <==> Listed(ip, prefixes, sets, ctx)
  {
    if p :| p in prefixes && p.contains(ip) {
      var i :| 0 <= i < |prefixes| && prefixes[i] == p;
    }
    if n :| n in sets && n in ctx.prefixSets && ctx.prefixSets[n](ip) {
      var i :| 0 <= i < |sets| && sets[i] == n;
    }
  }

  lemma AskedAddress(rc: RouteConfig, ctx: Context, q: Request, resolve: bool, v6: seq<IP>, v4: seq<IP>, ip: IP -> Answer, found: IP -> Answer)
    requires rc.resolver != "" ==> rc.resolver in ctx.resolverMap
    requires q.target.ToDomain? ==> Finds(Asked(rc, ctx), q.target.domain, v6, v4)
    ensures var at := Address(q, v6, v4);
            AskDest(q, resolve, Resolvers(rc, ctx), ip, found) ==
            if q.target.ToIP? then ip(q.target.ip) else if resolve && at.Some? then found(at.value) else No
  {
    if q.target.ToDomain? {
      var rs := Asked(rc, ctx);
      assert Resolvers(rc, ctx) == rs;
      var k :| 0 <= k < |rs| && rs[k](q.target.domain) == Found(v6, v4) && NoneBefore(rs, q.target.domain, k);
      ResolvedExactly(rs, q.target.domain, found);
    }
  }

  lemma PrefixPart(prefixes: seq<Prefix>, sets: seq<string>, resolve: bool, rc: RouteConfig, ctx: Context, q: Request, v6: seq<IP>, v4: seq<IP>)
    requires rc.resolver != "" ==> rc.resolver in ctx.resolverMap
    requires q.target.ToDomain? ==> Finds(Asked(rc, ctx), q.target.domain, v6, v4)
    ensures var at := Address(q, v6, v4);
            DestPrefixes(prefixes, sets, resolve, rc, ctx, q) ==
            Of(if q.target.ToIP? then Listed(q.target.ip.Unmap(), prefixes, sets, ctx)
               else resolve && at.Some? && Listed(at.value, prefixes, sets, ctx))
  {
    hide InPrefixes, Listed, Resolvers, Finds, AskDest, IP.Unmap;
    AskedAddress(rc, ctx, q, resolve, v6, v4, (ip: IP) => Of(InPrefixes(prefixes, sets, ctx, ip.Unmap())),
                 ip => Of(InPrefixes(prefixes, sets, ctx, ip)));
    var at := Address(q, v6, v4);
    if q.target.ToIP? {
      InPrefixesListed(prefixes, sets, ctx, q.target.ip.Unmap());
    } else if at.Some? {
      InPrefixesListed(prefixes, sets, ctx, at.value);
    }
  }

  lemma CountryPart(countries: seq<string>, resolve: bool, rc: RouteConfig, ctx: Context, geo: GeoIP, q: Request, v6: seq<IP>, v4: seq<IP>)
    requires rc.resolver != "" ==> rc.resolver in ctx.resolverMap
    requires q.target.ToDomain? ==> Finds(Asked(rc, ctx), q.target.domain, v6, v4)
    requires forall ip: IP :: geo(ip).Some?
    ensures var at := Address(q, v6, v4);
            DestCountries(countries, resolve, rc, ctx, geo, q) ==
            Of((q.target.ToIP? || resolve) && at.Some? && CountryIn(geo, at.value, countries))
  {
    hide Resolvers, Finds, AskDest;
    AskedAddress(rc, ctx, q, resolve, v6, v4, ip => Country(geo, countries, ip), ip => Country(geo, countries, ip));
  }

  lemma SourceMeans(rc: RouteConfig, ctx: Context, geo: GeoIP, q: Request)
    requires forall ip: IP :: geo(ip).Some?
    ensures SourceClause(rc, ctx, geo, q) == Of(TakesSource(rc, ctx, geo, q))
  {
    hide InPrefixes, Listed, IP.Unmap;
    InPrefixesListed(rc.fromPrefixes, rc.fromPrefixSets, ctx, q.source.ip.Unmap());
  }

  lemma InDomainsListed(rc: RouteConfig, ctx: Context, domain: string)
    ensures InDomains(rc.toDomains, rc.toDomainSets, ctx, domain) <==>
            || domain in rc.toDomains
            || exists n :: n in rc.toDomainSets && n in ctx.domainSets && ctx.domainSets[n](domain)
  {
    if n :| n in rc.toDomainSets && n in ctx.domainSets && ctx.domainSets[n](domain) {
      var i :| 0 <= i < |rc.toDomainSets| && rc.toDomainSets[i] == n;
    }
  }

  ghost predicate TakesDomain(rc: RouteConfig, ctx: Context, geo: GeoIP, q: Request, at: Option<IP>) {
    var expectPrefix, expectCountry := rc.expectedPrefixes != [] || rc.expectedPrefixSets != [], rc.expectedCountries != [];
    && q.target.ToDomain?
    && (|| q.target.domain in rc.toDomains
        || exists n :: n in rc.toDomainSets && n in ctx.domainSets && ctx.domainSets[n](q.target.domain))
    && (|| (!expectPrefix && !expectCountry)
        || (expectPrefix &&
            (at.Some? && Listed(at.value, rc.expectedPrefixes, rc.expectedPrefixSets, ctx)) != rc.invertExpectedPrefixes)
        || (expectCountry && (at.Some? && CountryIn(geo, at.value, rc.expectedCountries)) != rc.invertExpectedCountries))
  }

  lemma DomainMeans(rc: RouteConfig, ctx: Context, geo: GeoIP, q: Request, v6: seq<IP>, v4: seq<IP>)
    requires rc.resolver != "" ==> rc.resolver in ctx.resolverMap
    requires q.target.ToDomain? ==> Finds(Asked(rc, ctx), q.target.domain, v6, v4)
    requires forall ip: IP :: geo(ip).Some?
    ensures DomainAndExpected(rc, ctx, geo, q) == Of(TakesDomain(rc, ctx, geo, q, Address(q, v6, v4)))
  {
    hide Listed, CountryIn, Finds, DestPrefixes, DestCountries, InDomains, IP.Unmap;
    PrefixPart(rc.expectedPrefixes, rc.expectedPrefixSets, true, rc, ctx, q, v6, v4);
    CountryPart(rc.expectedCountries, true, rc, ctx, geo, q, v6, v4);
    if q.target.ToDomain? {
      InDomainsListed(rc, ctx, q.target.domain);
    }
  }

  lemma AddressMeans(rc: RouteConfig, ctx: Context, geo: GeoIP, q: Request, v6: seq<IP>, v4: seq<IP>)
    requires rc.resolver != "" ==> rc.resolver in ctx.resolverMap
    requires q.target.ToDomain? ==> Finds(Asked(rc, ctx), q.target.domain, v6, v4)
    requires forall ip: IP :: geo(ip).Some?
    ensures AddressPart(rc, ctx, geo, q) == Of(TakesAddress(rc, ctx, geo, q, Address(q, v6, v4)))
  {
    hide Listed, CountryIn, Finds, DestPrefixes, DestCountries, IP.Unmap;
    PrefixPart(rc.toPrefixes, rc.toPrefixSets, !rc.disableNameResolution, rc, ctx, q, v6, v4);
    CountryPart(rc.toCountries, !rc.disableNameResolution, rc, ctx, geo, q, v6, v4);
  }

  lemma DestMeans(rc: RouteConfig, ctx: Context, geo: GeoIP, q: Request, v6: seq<IP>, v4: seq<IP>)
    requires rc.resolver != "" ==> rc.resolver in ctx.resolverMap
    requires q.target.ToDomain? ==> Finds(Asked(rc, ctx), q.target.domain, v6, v4)
    requires forall ip: IP :: geo(ip).Some?
    ensures DestClause(rc, ctx, geo, q) == Of(TakesDest(rc, ctx, geo, q, Address(q, v6, v4)))
  {
    hide TakesDomain, TakesAddress, DomainAndExpected, AddressPart, Finds, Address;
    DomainMeans(rc, ctx, geo, q, v6, v4);
    AddressMeans(rc, ctx, geo, q, v6, v4);
    NoAddressPart(rc, ctx, geo, q, Address(q, v6, v4));
  }

  lemma NoAddressPart(rc: RouteConfig, ctx: Context, geo: GeoIP, q: Request, at: Option<IP>)
    ensures !rc.HasToPrefixes() && rc.toCountries == [] ==> !TakesAddress(rc, ctx, geo, q, at)
  {}

  /** A request is met by exactly the routes that take it, when every lookup answers. */
  lemma RouteTakesExactly(rc: RouteConfig, ctx: Context, geo: GeoIP, q: Request, v6: seq<IP>, v4: seq<IP>)
    requires Acceptable(rc, ctx) && forall ip: IP :: geo(ip).Some?
    requires q.target.ToDomain? ==> Finds(Asked(rc, ctx), q.target.domain, v6, v4)
    ensures Reading(rc, ctx, geo, q) == if Takes(rc, ctx, geo, q, Address(q, v6, v4)) then Yes else No
  {
    hide SourceClause, DestClause, TakesSource, TakesDest, Finds, Address, PrefixesKnown, ClientKnown, DomainSetsKnown;
    SourceMeans(rc, ctx, geo, q);
    DestMeans(rc, ctx, geo, q, v6, v4);
  }

  /** A named resolver is the only one asked, whatever lookups and countries answer: the route reads as one without a
      resolver's name where there is no other resolver. */
  lemma NamedResolverOnly(rc: RouteConfig, ctx: Context, geo: GeoIP, q: Request)
    requires rc.resolver != "" && rc.resolver in ctx.resolverMap
    ensures Reading(rc, ctx, geo, q) == Reading(rc.(resolver := ""), ctx.(resolvers := [ctx.resolverMap[rc.resolver]]), geo, q)
  {
    hide DestClause, SourceClause;
    SameDest(rc, ctx, geo, q);
    SameSource(rc, ctx, geo, q);
  }

  lemma SameSource(rc: RouteConfig, ctx: Context, geo: GeoIP, q: Request)
    requires rc.resolver != "" && rc.resolver in ctx.resolverMap
    ensures SourceClause(rc, ctx, geo, q) == SourceClause(rc.(resolver := ""), ctx.(resolvers := [ctx.resolverMap[rc.resolver]]), geo, q)
  {
    hide InPrefixes, Country, IP.Unmap;
    SameSets(rc, ctx, q, ctx.(resolvers := [ctx.resolverMap[rc.resolver]]));
  }

  lemma SameDest(rc: RouteConfig, ctx: Context, geo: GeoIP, q: Request)
    requires rc.resolver != "" && rc.resolver in ctx.resolverMap
    ensures DestClause(rc, ctx, geo, q) == DestClause(rc.(resolver := ""), ctx.(resolvers := [ctx.resolverMap[rc.resolver]]), geo, q)
  {
    hide DestPrefixes, DestCountries, InDomains;
    SamePrefixes(rc.toPrefixes, rc.toPrefixSets, !rc.disableNameResolution, rc, ctx, q);
    SamePrefixes(rc.expectedPrefixes, rc.expectedPrefixSets, true, rc, ctx, q);
    SameCountries(rc.toCountries, !rc.disableNameResolution, rc, ctx, geo, q);
    SameCountries(rc.expectedCountries, true, rc, ctx, geo, q);
    SameSets(rc, ctx, q, ctx.(resolvers := [ctx.resolverMap[rc.resolver]]));
  }

  lemma SamePrefixes(prefixes: seq<Prefix>, sets: seq<string>, resolve: bool, rc: RouteConfig, ctx: Context, q: Request)
    requires rc.resolver != "" && rc.resolver in ctx.resolverMap
    ensures DestPrefixes(prefixes, sets, resolve, rc, ctx, q)
         == DestPrefixes(prefixes, sets, resolve, rc.(resolver := ""), ctx.(resolvers := [ctx.resolverMap[rc.resolver]]), q)
  {
    hide LookUp, IP.Unmap;
  }

  lemma SameCountries(countries: seq<string>, resolve: bool, rc: RouteConfig, ctx: Context, geo: GeoIP, q: Request)
    requires rc.resolver != "" && rc.resolver in ctx.resolverMap
    ensures DestCountries(countries, resolve, rc, ctx, geo, q)
         == DestCountries(countries, resolve, rc.(resolver := ""), ctx.(resolvers := [ctx.resolverMap[rc.resolver]]), geo, q)
  {
    hide LookUp, Country;
  }

  lemma SameSets(rc: RouteConfig, ctx: Context, q: Request, ctx': Context)
    requires ctx'.prefixSets == ctx.prefixSets && ctx'.domainSets == ctx.domainSets
    ensures InPrefixes(rc.fromPrefixes, rc.fromPrefixSets, ctx, q.source.ip.Unmap())
         == InPrefixes(rc.fromPrefixes, rc.fromPrefixSets, ctx', q.source.ip.Unmap())
    ensures q.target.ToDomain? ==>
              InDomains(rc.toDomains, rc.toDomainSets, ctx, q.target.domain) == InDomains(rc.toDomains, rc.toDomainSets, ctx', q.target.domain)
  {}

  // ----- errors, and what is accepted -----

  /** The clauses are read in this order and the first one that is not met decides, whether it says no or fails. */
  lemma FirstClauseDecides(rc: RouteConfig, ctx: Context, geo: GeoIP, q: Request, k: nat)
    requires k <= 6
    ensures var cs := [NetworkClause(rc, q), ServerClause(rc, q), SourceClause(rc, ctx, geo, q), SourcePortClause(rc, q),
                       DestClause(rc, ctx, geo, q), DestPortClause(rc, q)];
            (forall j :: 0 <= j < k ==> cs[j] == Yes) && (k < 6 ==> cs[k] != Yes) ==>
              Reading(rc, ctx, geo, q) == if k < 6 then cs[k] else Yes
  {
    hide NetworkClause, ServerClause, SourceClause, SourcePortClause, DestClause, DestPortClause;
    var cs := [NetworkClause(rc, q), ServerClause(rc, q), SourceClause(rc, ctx, geo, q), SourcePortClause(rc, q),
               DestClause(rc, ctx, geo, q), DestPortClause(rc, q)];
    if forall j :: 0 <= j < k ==> cs[j] == Yes {
      assert k > 0 ==> cs[0] == Yes;
      assert k > 1 ==> cs[1] == Yes;
      assert k > 2 ==> cs[2] == Yes;
      assert k > 3 ==> cs[3] == Yes;
      assert k > 4 ==> cs[4] == Yes;
      assert k > 5 ==> cs[5] == Yes;
    }
  }

  /** A source that its prefixes take needs no country; otherwise an unknown country is an error. */
  lemma SourceCountryUnknown(rc: RouteConfig, ctx: Context, geo: GeoIP, q: Request)
    ensures var byPrefix := (rc.fromPrefixes != [] || rc.fromPrefixSets != [])
                            && Listed(q.source.ip.Unmap(), rc.fromPrefixes, rc.fromPrefixSets, ctx) != rc.invertFromPrefixes;
            && (byPrefix ==> SourceClause(rc, ctx, geo, q) == Yes)
            && (!byPrefix && rc.fromCountries != [] && geo(q.source.ip).None? ==> SourceClause(rc, ctx, geo, q) == Fail(CountryUnknown))
  {
    hide InPrefixes, Listed, IP.Unmap;
    InPrefixesListed(rc.fromPrefixes, rc.fromPrefixSets, ctx, q.source.ip.Unmap());
  }

  /** What a configuration must be to be accepted. */
  lemma AcceptableExactly(rc: RouteConfig, ctx: Context)
    ensures var countries := rc.fromCountries != [] || rc.toCountries != [] || rc.expectedCountries != [];
            var expects := rc.expectedPrefixes != [] || rc.expectedPrefixSets != [] || rc.expectedCountries != [];
            var asksAddress := rc.toPrefixes != [] || rc.toPrefixSets != [] || rc.toCountries != [];
            Acceptable(rc, ctx) <==>
              && rc.name !in ["", "default"] && rc.network in ["", "tcp", "udp"]
              && (countries ==> ctx.hasGeoIP)
              && (expects || (asksAddress && !rc.disableNameResolution) ==> ctx.resolvers != [])
              && (expects ==> rc.toDomains != [] || rc.toDomainSets != [])
              && (rc.resolver != "" ==> rc.resolver in ctx.resolverMap)
              && (rc.client != "reject" ==>
                    (rc.network in ["", "tcp"] ==> rc.client in ctx.tcpClients) && (rc.network in ["", "udp"] ==> rc.client in ctx.udpClients))
              && (forall p :: p in rc.fromPrefixes + rc.expectedPrefixes + rc.toPrefixes ==> p.valid)
              && (forall n :: n in rc.fromPrefixSets + rc.expectedPrefixSets + rc.toPrefixSets ==> n in ctx.prefixSets)
              && (forall n :: n in rc.toDomainSets ==> n in ctx.domainSets)
  {
    KnownMembers(rc.fromPrefixes, rc.fromPrefixSets, ctx);
    KnownMembers(rc.expectedPrefixes, rc.expectedPrefixSets, ctx);
    KnownMembers(rc.toPrefixes, rc.toPrefixSets, ctx);
    hide PrefixesKnown;
  }

  /** What is checked first, in this order. */
  lemma EarlyErrorExactly(rc: RouteConfig, ctx: Context)
    ensures var countries := rc.fromCountries != [] || rc.toCountries != [] || rc.expectedCountries != [];
            var expects := rc.expectedPrefixes != [] || rc.expectedPrefixSets != [] || rc.expectedCountries != [];
            var asksAddress := rc.toPrefixes != [] || rc.toPrefixSets != [] || rc.toCountries != [];
            var tcp, udp := rc.network != "udp", rc.network != "tcp";
            EarlyError(rc, ctx) ==
            if rc.name in ["", "default"] then Some(BadName)
            else if countries && !ctx.hasGeoIP then Some(MissingGeoIP)
            else if (expects || (asksAddress && !rc.disableNameResolution)) && ctx.resolvers == [] then Some(MissingResolvers)
            else if expects && rc.toDomains == [] && rc.toDomainSets == [] then Some(MissingDomainCriteria)
            else if rc.resolver != "" && rc.resolver !in ctx.resolverMap then Some(ResolverNotFound)
            else if rc.network !in ["", "tcp", "udp"] then Some(InvalidNetwork)
            else if rc.client != "reject" && ((tcp && rc.client !in ctx.tcpClients) || (udp && rc.client !in ctx.udpClients))
            then Some(ClientNotFound)
            else None
  {}

  lemma KnownMembers(prefixes: seq<Prefix>, sets: seq<string>, ctx: Context)
    ensures PrefixesKnown(prefixes, sets, ctx) <==>
              (forall p :: p in prefixes ==> p.valid) && forall n :: n in sets ==> n in ctx.prefixSets
  {
    if forall p :: p in prefixes ==> p.valid {
      assert forall i :: 0 <= i < |prefixes| ==> prefixes[i] in prefixes;
    }
    if forall n :: n in sets ==> n in ctx.prefixSets {
      assert forall i :: 0 <= i < |sets| ==> sets[i] in sets;
    }
  }
}
