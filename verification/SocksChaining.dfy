/**
 SOCKS-to-SOCKS chaining (internal/proxy/socks.go:162-211, 307-335): a decoded request is turned
 into "host:port" text, handed to the upstream dialer, split again and re-encoded.
 */
module SocksChaining {
  import opened Base
  import opened HostPort
  import opened SocksWire

  /** The domain, if any, has no square bracket: a check on the octets of the client's request. */
  predicate Chainable(r: Request) {
    r.atyp == ATYP_DOMAIN ==> NoBrackets(AsText(r.addr))
  }

  /** The upstream request asks for the client's destination and port. */
  ghost predicate SameDestination(ip: IpText, upstream: Result<Request, DialError>, r: Request) {
    upstream.Ok? && DestinationOf(ip, upstream.value) == DestinationOf(ip, r) && upstream.value.port == r.port
  }

  lemma SplitHostIsPart(addr: string)
    requires SplitHostPort(addr).Ok?
    ensures forall c | c in SplitHostPort(addr).value.0 :: c in addr
  {
  }

  /** The octets of a host recovered from joined text are octets of that text. */
  lemma SplitHostOctets(addr: string)
    requires SplitHostPort(addr).Ok? && Octets(addr)
    ensures Octets(SplitHostPort(addr).value.0)
  {
    var host := SplitHostPort(addr).value.0;
    SplitHostIsPart(addr);
    forall i | 0 <= i < |host| ensures host[i] as int < 256 {
      assert host[i] in addr;
    }
  }

  lemma JoinOctets(host: string, port: string)
    requires Octets(host) && AllDigits(port)
    ensures Octets(JoinHostPort(host, port))
  {
    assert forall i | 0 <= i < |port| :: port[i] in port;
  }

  lemma ChainableGoesThrough(ip: IpText, r: Request)
    requires Lawful(ip) && Valid(r) && Chainable(r)
    ensures SameDestination(ip, ClientRequest(ip, TargetText(ip, r)), r)
  {
    var host := HostText(ip, r);
    if r.atyp == ATYP_DOMAIN {
      BytesOfText(r.addr);
    } else {
      FormatHasNoBrackets(ip, r.addr);
    }
    ClientRequestOfJoin(ip, host, r.port);
  }

  lemma BracketsGoAstray(ip: IpText, r: Request)
    requires Lawful(ip) && Valid(r) && !Chainable(r)
    ensures !SameDestination(ip, ClientRequest(ip, TargetText(ip, r)), r)
  {
    var host, port := AsText(r.addr), Itoa(r.port);
    var target := JoinHostPort(host, port);
    PortTextPlain(r.port);
    ItoaDigits(r.port);
    BytesOfText(r.addr);
    SplitOfJoin(host, port);
    if SplitHostPort(target).Ok? {
      var h := SplitHostPort(target).value.0;
      SplitParts(target);
      JoinOctets(host, port);
      SplitHostOctets(target);
      TextOfBytes(h);
      assert DestinationOf(ip, r) == Name(r.addr);
      assert h != host;
    }
  }

  /**
   Chaining is transparent for every accepted request exactly when its domain has no square
   bracket: the upstream is then asked for the same destination and the same port, and none of
   the target, port or length exits is taken.
   */
  lemma ChainingIsTransparent(ip: IpText, input: seq<byte>)
    requires Lawful(ip) && Decode(input).Ok?
    ensures var r := Decode(input).value.0;
            SameDestination(ip, ClientRequest(ip, TargetText(ip, r)), r) <==> Chainable(r)
  {
    EncodeOfDecode(input);
    var r := Decode(input).value.0;
    if Chainable(r) {
      ChainableGoesThrough(ip, r);
    } else {
      BracketsGoAstray(ip, r);
    }
  }

  /** The request keeps its very form: no mapped IPv4 address, no IP literal or bracket in a domain. */
  predicate KeepsForm(ip: IpText, r: Request) {
    if r.atyp == 3 then NoBrackets(AsText(r.addr)) && ip.parse(AsText(r.addr)) == None else !V4Mapped(r.addr)
  }

  /**
   Exactly when the upstream gets the client's own request, address type and octets included. A
   domain that is an IP literal goes out as that address and a mapped address as IPv4.
   */
  lemma ReencodesExactly(ip: IpText, r: Request)
    requires Lawful(ip) && Valid(r)
    ensures ClientRequest(ip, TargetText(ip, r)) == Ok(r) <==> KeepsForm(ip, r)
  {
    if r.atyp != 3 {
      AddressFormOnWire(ip, r.addr, r.port);
    } else if Chainable(r) {
      BytesOfText(r.addr);
      ClientRequestOfJoin(ip, AsText(r.addr), r.port);
      if ip.parse(AsText(r.addr)).Some? {
        DomainFormOnWire(ip, r);
      }
    } else {
      BracketsGoAstray(ip, r);
    }
  }

  lemma DomainFormOnWire(ip: IpText, r: Request)
    requires Lawful(ip) && Valid(r) && r.atyp == 3 && Chainable(r) && ip.parse(AsText(r.addr)).Some?
    ensures ClientRequest(ip, TargetText(ip, r)) != Ok(r)
  {
    PortTextPlain(r.port);
    SplitOfJoin(AsText(r.addr), Itoa(r.port));
    AddressRequest(ip, TargetText(ip, r), AsText(r.addr), r.port);
  }

  /** Which way it goes astray: the domain "[h]" is forwarded as plain h. */
  lemma BracketedDomainForwarded(ip: IpText, h: string, port: nat)
    requires ip.parse(h) == None && Octets(h) && NoBrackets(h) && ':' !in h && |h| <= 253 && port < 65536
    ensures var r := Request(ATYP_DOMAIN, AsBytes("[" + h + "]"), port);
            Valid(r) && ClientRequest(ip, TargetText(ip, r)) == Ok(Request(ATYP_DOMAIN, AsBytes(h), port))
  {
    BracketedTarget(ip, h, port);
    PortTextPlain(port);
    SplitBracketed(h, Itoa(port));
    NameRequest(ip, "[" + h + "]:" + Itoa(port), h, port);
  }

  lemma BracketedTarget(ip: IpText, h: string, port: nat)
    requires Octets(h) && ':' !in h
    ensures TargetText(ip, Request(ATYP_DOMAIN, AsBytes("[" + h + "]"), port)) == "[" + h + "]:" + Itoa(port)
  {
    var domain := "[" + h + "]";
    TextOfBytes(domain);
    assert ':' !in domain;
  }

  /**
   Two gopr instances: the client side of one and the server side of the other agree on the target
   text, for every host that is not an IP literal, has at most 255 octets and no square bracket.
   */
  lemma ServerRecoversTarget(ip: IpText, host: string, port: nat, rest: seq<byte>)
    requires Lawful(ip) && ip.parse(host) == None && Octets(host) && |host| <= 255 && NoBrackets(host) && port < 65536
    ensures var target := JoinHostPort(host, Itoa(port));
            && ClientRequest(ip, target).Ok? && Valid(ClientRequest(ip, target).value)
            && var wire := Encode(ClientRequest(ip, target).value, 0);
               && Decode(wire + rest).Ok?
               && Decode(wire + rest).value.1 == rest
               && HostText(ip, Decode(wire + rest).value.0) == host
               && Decode(wire + rest).value.0.port == port
               && TargetText(ip, Decode(wire + rest).value.0) == target
  {
    var target := JoinHostPort(host, Itoa(port));
    ClientRequestOfJoin(ip, host, port);
    ClientRequestValid(ip, target);
    DecodeOfEncode(ClientRequest(ip, target).value, 0, rest);
    TextOfBytes(host);
  }
}
