/** Routes: a configuration record is compiled to a list of criteria, each of which is met, not met or fails. */
module Routing {
  import opened Words
  import opened SocksAddr

  // ----- requests and the world they are matched in -----

  datatype Network = TCP | UDP

  datatype Target = ToIP(ip: IP, port: U16) | ToDomain(domain: string, port: U16)

  datatype Request = Request(network: Network, server: string, source: AddrPort, target: Target)

  datatype MatchError = LookupFailed | ResolverFailed | CountryUnknown

  datatype Lookup = Found(v6: seq<IP>, v4: seq<IP>) | NoAnswer | Broken

  type IPSet = IP -> bool
  type DomainSet = string -> bool
  type Resolver = string -> Lookup
  type GeoIP = IP -> Option<string>

  /** Met, not met, or an error. */
  datatype Answer = Yes | No | Fail(e: MatchError)

  function Of(b: bool): Answer {
    if b then Yes else No
  }

  function Not(a: Answer): Answer {
    match a
    case Yes => No
    case No => Yes
    case Fail(_) => a
  }

  /** The second operand counts only if the first leaves the question open; an error settles it. */
  function And(a: Answer, b: Answer): Answer {
    if a.Yes? then b else a
  }

  function Or(a: Answer, b: Answer): Answer {
    if a.No? then b else a
  }

  function Flip(a: Answer, invert: bool): Answer {
    if invert then Not(a) else a
  }

  // ----- criteria -----

  datatype Criterion =
    | NetworkTCP
    | NetworkUDP
    | SourceServer(servers: seq<string>)
    | SourceIP(ips: IPSet)
    | SourceGeoIP(countries: seq<string>)
    | SourcePort(ports: seq<U16>)
    | DestDomain(sets: seq<DomainSet>)
    | DestDomainExpected(sets: seq<DomainSet>, expected: Criterion)
    | DestIP(ips: IPSet)
    | DestResolvedIP(ips: IPSet, resolvers: seq<Resolver>)
    | DestGeoIP(countries: seq<string>)
    | DestResolvedGeoIP(countries: seq<string>, resolvers: seq<Resolver>)
    | DestPort(ports: seq<U16>)
    | Inverted(inner: Criterion)
    | GroupOR(criteria: seq<Criterion>)

  function Country(geo: GeoIP, countries: seq<string>, ip: IP): Answer {
    match geo(ip)
    case None => Fail(CountryUnknown)
    case Some(c) => Of(c in countries)
  }

  /** The first resolver that does not pass the question on. */
  function LookUp(resolvers: seq<Resolver>, domain: string): Lookup {
    if resolvers == [] then NoAnswer
    else if resolvers[0](domain).NoAnswer? then LookUp(resolvers[1..], domain)
    else resolvers[0](domain)
  }

  /** All resolvers pass, or the answer is that of the first one that does not. */
  lemma {:induction false} LookUpIsFirst(resolvers: seq<Resolver>, domain: string)
    ensures var r := LookUp(resolvers, domain);
            || (r == NoAnswer && forall i :: 0 <= i < |resolvers| ==> resolvers[i](domain) == NoAnswer)
            || (r != NoAnswer && exists i :: 0 <= i < |resolvers| && resolvers[i](domain) == r
                                             && forall j :: 0 <= j < i ==> resolvers[j](domain) == NoAnswer)
  {
    if resolvers != [] && resolvers[0](domain).NoAnswer? {
      LookUpIsFirst(resolvers[1..], domain);
      var r := LookUp(resolvers[1..], domain);
      if r != NoAnswer {
        var i :| 0 <= i < |resolvers[1..]| && resolvers[1..][i](domain) == r
                 && forall j :: 0 <= j < i ==> resolvers[1..][j](domain) == NoAnswer;
        assert resolvers[i + 1](domain) == r;
        forall j | 0 <= j < i + 1
          ensures resolvers[j](domain) == NoAnswer
        {
          assert j > 0 ==> resolvers[j] == resolvers[1..][j - 1];
        }
      } else {
        forall i | 0 <= i < |resolvers|
          ensures resolvers[i](domain) == NoAnswer
        {
          assert i > 0 ==> resolvers[i] == resolvers[1..][i - 1];
        }
      }
    }
  }

  function AddressOf(r: Lookup): Option<IP> {
    if !r.Found? then None
    else if r.v6 != [] then Some(r.v6[0])
    else if r.v4 != [] then Some(r.v4[0])
    else None
  }

  function Resolved(resolvers: seq<Resolver>, domain: string, ask: IP -> Answer): Answer {
    match LookUp(resolvers, domain)
    case NoAnswer => Fail(LookupFailed)
    case Broken => Fail(ResolverFailed)
    case Found(v6, v4) =>
      var ip := AddressOf(Found(v6, v4));
      if ip.None? then No else ask(ip.value)
  }

  predicate InSets(sets: seq<DomainSet>, domain: string) {
    exists i :: 0 <= i < |sets| && sets[i](domain)
  }

  function Outcome(c: Criterion, geo: GeoIP, q: Request): Answer
    decreases c, 1
  {
    match c
    case NetworkTCP => Of(q.network.TCP?)
    case NetworkUDP => Of(q.network.UDP?)
    case SourceServer(servers) => Of(q.server in servers)
    case SourceIP(ips) => Of(ips(q.source.ip.Unmap()))
    case SourceGeoIP(countries) => Country(geo, countries, q.source.ip)
    case SourcePort(ports) => Of(q.source.port in ports)
    case DestDomain(sets) => Of(q.target.ToDomain? && InSets(sets, q.target.domain))
    case DestDomainExpected(sets, expected) =>
      And(Of(q.target.ToDomain? && InSets(sets, q.target.domain)), Outcome(expected, geo, q))
    case DestIP(ips) => Of(q.target.ToIP? && ips(q.target.ip.Unmap()))
    case DestResolvedIP(ips, resolvers) =>
      if q.target.ToIP? then Of(ips(q.target.ip.Unmap()))
      else Resolved(resolvers, q.target.domain, ip => Of(ips(ip)))
    case DestGeoIP(countries) => if q.target.ToIP? then Country(geo, countries, q.target.ip) else No
    case DestResolvedGeoIP(countries, resolvers) =>
      if q.target.ToIP? then Country(geo, countries, q.target.ip)
      else Resolved(resolvers, q.target.domain, ip => Country(geo, countries, ip))
    case DestPort(ports) => Of(q.target.port in ports)
    case Inverted(inner) => Not(Outcome(inner, geo, q))
    case GroupOR(criteria) => AnyOutcome(criteria, geo, q)
  }

  function AnyOutcome(cs: seq<Criterion>, geo: GeoIP, q: Request): Answer
    decreases cs, 0
  {
    if cs == [] then No else Or(Outcome(cs[0], geo, q), AnyOutcome(cs[1..], geo, q))
  }

  function AllOutcome(cs: seq<Criterion>, geo: GeoIP, q: Request): Answer {
    if cs == [] then Yes else And(Outcome(cs[0], geo, q), AllOutcome(cs[1..], geo, q))
  }

  /** How the code reports an answer: a flag and an error. */
  predicate Reports(met: bool, err: Option<MatchError>, a: Answer) {
    (met, err) == match a
                  case Yes => (true, None)
                  case No => (false, None)
                  case Fail(e) => (false, Some(e))
  }

  // ----- the search loops -----

  method MatchDomainToDomainSets(sets: seq<DomainSet>, domain: string) returns (r: bool)
    ensures r <==> InSets(sets, domain)
  {
    for i := 0 to |sets|
      invariant forall j :: 0 <= j < i ==> !sets[j](domain)
    {
      if sets[i](domain) {
        return true;
      }
    }
    return false;
  }

  method LookupAll(resolvers: seq<Resolver>, domain: string) returns (r: Lookup)
    ensures r == LookUp(resolvers, domain)
  {
    for i := 0 to |resolvers|
      invariant LookUp(resolvers, domain) == LookUp(resolvers[i..], domain)
    {
      assert resolvers[i..][1..] == resolvers[i + 1..];
      r := resolvers[i](domain);
      if r.NoAnswer? {
        continue;
      }
      return;
    }
    return NoAnswer;
  }

  method MatchAddrToGeoIPCountries(countries: seq<string>, ip: IP, geo: GeoIP) returns (met: bool, err: Option<MatchError>)
    ensures Reports(met, err, Country(geo, countries, ip))
  {
    var country := geo(ip);
    if country.None? {
      return false, Some(CountryUnknown);
    }
    met := SliceContains(countries, country.value);
    err := None;
  }

  /** Every criterion answers its outcome; none is ever both met and in error. */
  method Meet(c: Criterion, geo: GeoIP, q: Request) returns (met: bool, err: Option<MatchError>)
    ensures Reports(met, err, Outcome(c, geo, q))
    ensures !(met && err.Some?)
    decreases c, 1
  {
    err := None;
    match c {
      case NetworkTCP => met := q.network.TCP?;
      case NetworkUDP => met := q.network.UDP?;
      case SourceServer(servers) => met := SliceContains(servers, q.server);
      case SourceIP(ips) => met := ips(q.source.ip.Unmap());
      case SourceGeoIP(countries) => met, err := MatchAddrToGeoIPCountries(countries, q.source.ip, geo);
      case SourcePort(ports) => met := SliceContains(ports, q.source.port);
      case DestDomain(sets) => met := MeetDomain(sets, q);
      case DestDomainExpected(sets, expected) =>
        met := MeetDomain(sets, q);
        if met {
          met, err := Meet(expected, geo, q);
        }
      case DestIP(ips) => met := q.target.ToIP? && ips(q.target.ip.Unmap());
      case DestResolvedIP(ips, resolvers) =>
        if q.target.ToIP? {
          met := ips(q.target.ip.Unmap());
        } else {
          met, err := MatchDomainToIPSet(resolvers, q.target.domain, ips);
        }
      case DestGeoIP(countries) =>
        if q.target.ToIP? {
          met, err := MatchAddrToGeoIPCountries(countries, q.target.ip, geo);
        } else {
          met := false;
        }
      case DestResolvedGeoIP(countries, resolvers) =>
        if q.target.ToIP? {
          met, err := MatchAddrToGeoIPCountries(countries, q.target.ip, geo);
        } else {
          met, err := MatchDomainToGeoIPCountries(resolvers, q.target.domain, countries, geo);
        }
      case DestPort(ports) => met := SliceContains(ports, q.target.port);
      case Inverted(inner) =>
        met, err := Meet(inner, geo, q);
        if err.Some? {
          return false, err;
        }
        met := !met;
      case GroupOR(criteria) => met, err := MeetAny(criteria, geo, q);
    }
  }

  method MeetDomain(sets: seq<DomainSet>, q: Request) returns (met: bool)
    ensures met <==> q.target.ToDomain? && InSets(sets, q.target.domain)
  {
    if q.target.ToIP? {
      return false;
    }
    met := MatchDomainToDomainSets(sets, q.target.domain);
  }

  method MatchDomainToIPSet(resolvers: seq<Resolver>, domain: string, ips: IPSet)
    returns (met: bool, err: Option<MatchError>)
    ensures Reports(met, err, Resolved(resolvers, domain, ip => Of(ips(ip))))
  {
    var r := LookupAll(resolvers, domain);
    if !r.Found? {
      return false, Some(if r.NoAnswer? then LookupFailed else ResolverFailed);
    }
    if |r.v6| > 0 {
      return ips(r.v6[0]), None;
    }
    if |r.v4| > 0 {
      return ips(r.v4[0]), None;
    }
    return false, None;
  }

  method MatchDomainToGeoIPCountries(resolvers: seq<Resolver>, domain: string, countries: seq<string>, geo: GeoIP)
    returns (met: bool, err: Option<MatchError>)
    ensures Reports(met, err, Resolved(resolvers, domain, ip => Country(geo, countries, ip)))
  {
    var r := LookupAll(resolvers, domain);
    if !r.Found? {
      return false, Some(if r.NoAnswer? then LookupFailed else ResolverFailed);
    }
    if |r.v6| > 0 {
      met, err := MatchAddrToGeoIPCountries(countries, r.v6[0], geo);
      return;
    }
    if |r.v4| > 0 {
      met, err := MatchAddrToGeoIPCountries(countries, r.v4[0], geo);
      return;
    }
    return false, None;
  }

  method MeetAny(cs: seq<Criterion>, geo: GeoIP, q: Request) returns (met: bool, err: Option<MatchError>)
    ensures Reports(met, err, AnyOutcome(cs, geo, q))
    decreases cs, 0
  {
    for i := 0 to |cs|
      invariant AnyOutcome(cs, geo, q) == AnyOutcome(cs[i..], geo, q)
    {
      assert cs[i..][1..] == cs[i + 1..];
      met, err := Meet(cs[i], geo, q);
      if err.Some? {
        return false, err;
      }
      if met {
        return true, None;
      }
    }
    return false, None;
  }

  /** Route.Match: the first criterion that is not met decides. */
  method MatchAll(cs: seq<Criterion>, geo: GeoIP, q: Request) returns (met: bool, err: Option<MatchError>)
    ensures Reports(met, err, AllOutcome(cs, geo, q))
  {
    for i := 0 to |cs|
      invariant AllOutcome(cs, geo, q) == AllOutcome(cs[i..], geo, q)
    {
      assert cs[i..][1..] == cs[i + 1..];
      met, err := Meet(cs[i], geo, q);
      if !met {
        return false, err;
      }
    }
    return true, None;
  }
}
