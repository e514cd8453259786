/** SOCKS addresses (section 5 of RFC 1928): ATYP, address, port. */
module SocksAddr {
  import opened Words

  const AtypIPv4 := 1
  const AtypDomainName := 3
  const AtypIPv6 := 4

  const IPv4AddrLen := 1 + 4 + 2
  const IPv6AddrLen := 1 + 16 + 2
  const MaxAddrLen := 1 + 1 + 255 + 2

  type Octets4 = s: Bytes | |s| == 4 witness [0, 0, 0, 0]
  type Octets16 = s: Bytes | |s| == 16
    witness [0, 0, 0, 0, 0, 0, 0, 0, 0, 0, 0, 0, 0, 0, 0, 0]
  type DomainName = s: Bytes | |s| <= 255 witness []

  datatype IP = V4(a: Octets4) | V6(o: Octets16) {
    predicate Is4In6() {
      V6? && o[..12] == [0, 0, 0, 0, 0, 0, 0, 0, 0, 0, 0xff, 0xff]
    }

    function Unmap(): IP {
      if Is4In6() then V4(o[12..]) else this
    }
  }

  datatype AddrPort = AddrPort(ip: IP, port: U16) {
    function Unmap(): AddrPort {
      AddrPort(ip.Unmap(), port)
    }
  }

  datatype Addr = FromIP(ap: AddrPort) | FromDomain(domain: DomainName, domainPort: U16) {
    function Unmap(): Addr {
      if FromIP? then FromIP(ap.Unmap()) else this
    }
  }

  datatype AddrError = TooShort | InvalidAtyp | IsDomain

  function EncodeAddrPort(a: AddrPort): (r: Bytes)
    ensures |r| == LengthOfAddrPort(a)
  {
    match a.ip.Unmap()
    case V4(o) => [AtypIPv4] + o + Put16(a.port)
    case V6(o) => [AtypIPv6] + o + Put16(a.port)
  }

  function Encode(a: Addr): (r: Bytes)
    ensures |r| == LengthOf(a) && 1 < |r| <= MaxAddrLen
  {
    match a
    case FromIP(ap) => EncodeAddrPort(ap)
    case FromDomain(d, p) => [AtypDomainName, |d|] + d + Put16(p)
  }

  function LengthOfAddrPort(a: AddrPort): nat {
    if a.ip.V4? || a.ip.Is4In6() then IPv4AddrLen else IPv6AddrLen
  }

  function LengthOf(a: Addr): nat {
    match a
    case FromIP(ap) => LengthOfAddrPort(ap)
    case FromDomain(d, _) => 1 + 1 + |d| + 2
  }

  /** ConnAddrFromSlice: the address at the front of `b` and its length. */
  function Decode(b: Bytes): (r: Result<(Addr, nat), AddrError>)
    ensures r.Ok? ==> r.value.1 <= |b| && LengthOf(r.value.0) <= r.value.1
  {
    if |b| < 2 then Err(TooShort)
    else if b[0] == AtypDomainName then
      if |b| < 1 + 1 + b[1] as int + 2 then Err(TooShort)
      else Ok((FromDomain(b[2..2 + b[1]], Get16(b[2 + b[1]..])), 2 + b[1] as int + 2))
    else if b[0] == AtypIPv4 then
      if |b| < IPv4AddrLen then Err(TooShort)
      else Ok((FromIP(AddrPort(V4(b[1..5]), Get16(b[5..]))), IPv4AddrLen))
    else if b[0] == AtypIPv6 then
      if |b| < IPv6AddrLen then Err(TooShort)
      else Ok((FromIP(AddrPort(V6(b[1..17]), Get16(b[17..]))), IPv6AddrLen))
    else Err(InvalidAtyp)
  }

  /** ConnAddrFromSliceWithDomainCache: also returns the updated domain cache. */
  function DecodeCached(b: Bytes, cache: Bytes): (r: (Result<(Addr, nat), AddrError>, Bytes))
    ensures r.0 == Decode(b)
    ensures r.1 == if r.0.Ok? && r.0.value.0.FromDomain? then r.0.value.0.domain else cache
  {
    if |b| < 2 then (Err(TooShort), cache)
    else if b[0] == AtypDomainName then
      if |b| < 1 + 1 + b[1] as int + 2 then (Err(TooShort), cache)
      else
        var domain := b[2..2 + b[1]];
        var cache' := if cache != domain then domain else cache;
        (Ok((FromDomain(cache', Get16(b[2 + b[1]..])), 2 + b[1] as int + 2)), cache')
    else (Decode(b), cache)
  }

  /** AddrPortFromSlice: IP addresses only. */
  function DecodeAddrPort(b: Bytes): (r: Result<(AddrPort, nat), AddrError>)
    ensures r.Ok? ==> r.value.1 <= |b| && LengthOfAddrPort(r.value.0) <= r.value.1
    ensures r.Ok? <==> Decode(b).Ok? && Decode(b).value.0.FromIP?
    ensures r.Ok? ==> Decode(b).value == (FromIP(r.value.0), r.value.1)
  {
    if |b| < IPv4AddrLen then Err(TooShort)
    else if b[0] == AtypIPv4 then Ok((AddrPort(V4(b[1..5]), Get16(b[5..])), IPv4AddrLen))
    else if b[0] == AtypIPv6 then
      if |b| < IPv6AddrLen then Err(TooShort)
      else Ok((AddrPort(V6(b[1..17]), Get16(b[17..])), IPv6AddrLen))
    else if b[0] == AtypDomainName then Err(IsDomain)
    else Err(InvalidAtyp)
  }

  lemma DecodeIPv4(o: Octets4, p: U16, rest: Bytes)
    ensures Decode([AtypIPv4] + o + Put16(p) + rest) == Ok((FromIP(AddrPort(V4(o), p)), IPv4AddrLen))
  {
    var b := [AtypIPv4] + o + Put16(p) + rest;
    assert b[1..5] == o;
    assert b[5..] == Put16(p) + rest;
    Get16Put16(p, rest);
  }

  lemma DecodeIPv6(o: Octets16, p: U16, rest: Bytes)
    ensures Decode([AtypIPv6] + o + Put16(p) + rest) == Ok((FromIP(AddrPort(V6(o), p)), IPv6AddrLen))
  {
    var b := [AtypIPv6] + o + Put16(p) + rest;
    assert b[1..17] == o;
    assert b[17..] == Put16(p) + rest;
    Get16Put16(p, rest);
  }

  lemma DecodeDomain(d: DomainName, p: U16, rest: Bytes)
    ensures Decode([AtypDomainName, |d|] + d + Put16(p) + rest) == Ok((FromDomain(d, p), 2 + |d| + 2))
  {
    var b := [AtypDomainName, |d|] + d + Put16(p) + rest;
    assert b[2..2 + |d|] == d;
    assert b[2 + |d|..] == Put16(p) + rest;
    Get16Put16(p, rest);
  }

  /** Writing an address and reading it back gives the address with IPv4-mapped turned into IPv4. */
  lemma DecodeEncode(a: Addr, rest: Bytes)
    ensures Decode(Encode(a) + rest) == Ok((a.Unmap(), LengthOf(a)))
  {
    match a
    case FromIP(ap) =>
      match ap.ip.Unmap() {
        case V4(o) => DecodeIPv4(o, ap.port, rest);
        case V6(o) => DecodeIPv6(o, ap.port, rest);
      }
    case FromDomain(d, p) =>
      DecodeDomain(d, p, rest);
  }

  /** Reading an address and writing it back gives the same bytes, unless an IPv4-mapped address
      was carried in the long form. */
  lemma EncodeDecode(b: Bytes)
    requires Decode(b).Ok?
    ensures var (a, n) := Decode(b).value;
            Encode(a) == b[..n] <==> a.Unmap() == a
  {
    var (a, n) := Decode(b).value;
    if b[0] == AtypDomainName {
      assert Get16(b[2 + b[1]..]) == a.domainPort;
      assert b[2 + b[1]..][..2] == b[2 + b[1]..n];
      assert b[..n] == [b[0], b[1]] + b[2..2 + b[1]] + b[2 + b[1]..n];
    } else if b[0] == AtypIPv4 {
      assert b[5..][..2] == b[5..7];
      assert b[..n] == [b[0]] + b[1..5] + b[5..7];
    } else {
      assert b[17..][..2] == b[17..19];
      assert b[..n] == [b[0]] + b[1..17] + b[17..19];
    }
  }

  lemma DecodeEncodeAddrPort(a: AddrPort, rest: Bytes)
    ensures DecodeAddrPort(EncodeAddrPort(a) + rest) == Ok((a.Unmap(), LengthOfAddrPort(a)))
  {
    DecodeEncode(FromIP(a), rest);
  }

  /** The bytes of section 5 of RFC 1928; an IPv4-mapped address is written as IPv4. */
  lemma AddressOnTheWire(ip: IP, domain: DomainName, port: U16)
    ensures Encode(FromDomain(domain, port)) == [3, |domain|] + domain + Put16(port)
    ensures Encode(FromIP(AddrPort(ip, port))) == EncodeAddrPort(AddrPort(ip, port))
    ensures ip.V4? ==> EncodeAddrPort(AddrPort(ip, port)) == [1] + ip.a + Put16(port)
    ensures ip.V6? ==>
              EncodeAddrPort(AddrPort(ip, port)) ==
              if (forall k :: 0 <= k < 10 ==> ip.o[k] == 0) && ip.o[10] == 255 && ip.o[11] == 255
              then [1] + ip.o[12..] + Put16(port) else [4] + ip.o + Put16(port)
  {
    hide Put16;
    if ip.V6? {
      assert forall k :: 0 <= k < 12 ==> ip.o[k] == ip.o[..12][k];
    }
  }

  /** Which bytes are an address: a known type, and as many bytes as it asks for. */
  lemma AddressReadable(b: Bytes)
    ensures Decode(b).Ok? <==>
            && |b| >= 2
            && (|| (b[0] == 1 && |b| >= 7) || (b[0] == 4 && |b| >= 19)
                || (b[0] == 3 && |b| >= 4 + b[1] as int))
    ensures |b| >= 2 && b[0] !in {1, 3, 4} ==> Decode(b) == Err(InvalidAtyp)
    ensures Decode(b).Err? && (|b| < 2 || b[0] in {1, 3, 4}) ==> Decode(b) == Err(TooShort)
    ensures DecodeAddrPort(b).Err? ==>
              DecodeAddrPort(b) ==
              if |b| < 7 || b[0] == 4 then Err(TooShort) else if b[0] == 3 then Err(IsDomain) else Err(InvalidAtyp)
  {}
}
