/**
 The SOCKS5 messages of internal/proxy/socks.go as functions on octet streams: the server's decoder,
 the client's encoder, and what each side reads (sections 3 to 6 of RFC 1928, section 2 of RFC 1929).
 */
module SocksWire {
  import opened Base
  import opened HostPort

  const VERSION5: byte := 5
  const AUTH_NONE: byte := 0
  const AUTH_USER_PASS: byte := 2
  const AUTH_NO_ACCEPTABLE: byte := 255
  const USER_PASS_VERSION: byte := 1
  const CMD_CONNECT: byte := 1
  const ATYP_IPV4: byte := 1
  const ATYP_DOMAIN: byte := 3
  const ATYP_IPV6: byte := 4
  const REPLY_SUCCEEDED: byte := 0
  const REPLY_CMD_NOT_SUPPORTED: byte := 7
  const REPLY_ATYP_NOT_SUPPORTED: byte := 8

  // ---- Octets and text

  function AsText(b: seq<byte>): string {
    seq(|b|, i requires 0 <= i < |b| => b[i] as char)
  }

  function AsBytes(s: string): seq<byte> {
    seq(|s|, i requires 0 <= i < |s| => s[i] as int % 256)
  }

  ghost predicate Octets(s: string) {
    forall i | 0 <= i < |s| :: s[i] as int < 256
  }

  lemma BytesOfText(b: seq<byte>)
    ensures AsBytes(AsText(b)) == b && Octets(AsText(b))
  {
  }

  lemma TextOfBytes(s: string)
    requires Octets(s)
    ensures AsText(AsBytes(s)) == s
  {
  }

  // ---- IP addresses: ParseIP and IP.String are given, 4-byte and 16-byte forms are not

  datatype IpText = IpText(parse: string -> Option<seq<byte>>, format: seq<byte> -> string)

  const V4_PREFIX: seq<byte> := [0, 0, 0, 0, 0, 0, 0, 0, 0, 0, 255, 255]

  function To16(b: seq<byte>): seq<byte> {
    if |b| == 4 then V4_PREFIX + b else b
  }

  function To4(b: seq<byte>): Option<seq<byte>> {
    if |b| == 16 && b[..12] == V4_PREFIX then Some(b[12..]) else None
  }

  /**
   What the code relies on: a printed address parses back to the same address in 16-byte form, and
   address text never contains a square bracket.
   */
  ghost predicate Lawful(ip: IpText) {
    && (forall b: seq<byte> | |b| == 4 || |b| == 16 :: ip.parse(ip.format(b)) == Some(To16(b)))
    && (forall s: string | ip.parse(s).Some? :: |ip.parse(s).value| == 16 && NoBrackets(s))
  }

  // ---- Requests

  datatype Request = Request(atyp: byte, addr: seq<byte>, port: nat)

  predicate Valid(r: Request) {
    && r.port < 65536
    && match r.atyp
       case 1 => |r.addr| == 4
       case 4 => |r.addr| == 16
       case 3 => |r.addr| < 256
       case _ => false
  }

  function AddressField(atyp: byte, addr: seq<byte>): seq<byte>
    requires |addr| < 256
  {
    if atyp == ATYP_DOMAIN then [|addr|] + addr else addr
  }

  function PortField(port: nat): seq<byte>
    requires port < 65536
  {
    [port / 256, port % 256]
  }

  /** The request on the wire; the third octet is reserved and the server ignores it. */
  function Encode(r: Request, reserved: byte): seq<byte>
    requires Valid(r)
  {
    [VERSION5, CMD_CONNECT, reserved, r.atyp] + AddressField(r.atyp, r.addr) + PortField(r.port)
  }

  datatype ServerError = Truncated | BadVersion | BadCommand | BadAddressType | NoAcceptableMethod | WriteFailed

  /** socksReadRequest on everything the client will send: the request and what follows it. */
  function Decode(input: seq<byte>): Result<(Request, seq<byte>), ServerError> {
    if |input| < 4 then Err(Truncated)
    else if input[0] != VERSION5 then Err(BadVersion)
    else if input[1] != CMD_CONNECT then Err(BadCommand)
    else if input[3] == ATYP_IPV4 then DecodeTail(ATYP_IPV4, 4, input[4..])
    else if input[3] == ATYP_IPV6 then DecodeTail(ATYP_IPV6, 16, input[4..])
    else if input[3] == ATYP_DOMAIN then
      if |input| < 5 then Err(Truncated) else DecodeTail(ATYP_DOMAIN, input[4], input[5..])
    else Err(BadAddressType)
  }

  function DecodeTail(atyp: byte, n: nat, input: seq<byte>): Result<(Request, seq<byte>), ServerError> {
    if |input| < n + 2 then Err(Truncated)
    else Ok((Request(atyp, input[..n], 256 * (input[n] as int) + input[n + 1]), input[n + 2..]))
  }

  /** Which input is refused and how; everything else that does not decode is cut short. */
  lemma DecodeErrors(input: seq<byte>)
    ensures Decode(input) == Err(BadVersion) <==> |input| >= 4 && input[0] != 5
    ensures Decode(input) == Err(BadCommand) <==> |input| >= 4 && input[0] == 5 && input[1] != 1
    ensures Decode(input) == Err(BadAddressType) <==>
            |input| >= 4 && input[0] == 5 && input[1] == 1 && input[3] != 1 && input[3] != 3 && input[3] != 4
    ensures Decode(input).Err? ==> Decode(input).error in {Truncated, BadVersion, BadCommand, BadAddressType}
  {
  }

  /** The octets of a request, section 4 of RFC 1928. */
  lemma RequestOnTheWire(r: Request)
    requires Valid(r)
    ensures Encode(r, 0) ==
            (if r.atyp == 3 then [5, 1, 0, 3, |r.addr|] else [5, 1, 0, r.atyp]) + r.addr + [r.port / 256, r.port % 256]
  {
  }

  /** Decoding an encoded request gives it back and stops exactly behind it. */
  lemma DecodeOfEncode(r: Request, reserved: byte, rest: seq<byte>)
    requires Valid(r)
    ensures Decode(Encode(r, reserved) + rest) == Ok((r, rest))
  {
    var input := Encode(r, reserved) + rest;
    var tail := r.addr + PortField(r.port) + rest;
    if r.atyp == ATYP_DOMAIN {
      assert input[5..] == tail;
    } else {
      assert input[4..] == tail;
    }
    assert tail[..|r.addr|] == r.addr && tail[|r.addr| + 2..] == rest;
  }

  /** Whatever decodes is the encoding of the result, so nothing is skipped or invented. */
  lemma EncodeOfDecode(input: seq<byte>)
    requires Decode(input).Ok?
    ensures var (r, rest) := Decode(input).value; Valid(r) && input == Encode(r, input[2]) + rest
  {
    var (r, rest) := Decode(input).value;
    var header := [VERSION5, CMD_CONNECT, input[2], r.atyp];
    assert input == header + input[4..];
    if r.atyp == ATYP_DOMAIN {
      TailSplits(r.atyp, input[4], input[5..]);
      assert input[4..] == [input[4]] + input[5..];
    } else {
      TailSplits(r.atyp, if r.atyp == ATYP_IPV4 then 4 else 16, input[4..]);
    }
  }

  lemma TailSplits(atyp: byte, n: nat, input: seq<byte>)
    requires DecodeTail(atyp, n, input).Ok?
    ensures var (r, rest) := DecodeTail(atyp, n, input).value;
            && r.atyp == atyp && |r.addr| == n && r.port < 65536
            && input == r.addr + PortField(r.port) + rest
  {
  }

  // ---- Destinations and their text form

  function HostText(ip: IpText, r: Request): string {
    if r.atyp == ATYP_DOMAIN then AsText(r.addr) else ip.format(r.addr)
  }

  /** The "host:port" that the server hands to its dialer. */
  function TargetText(ip: IpText, r: Request): string {
    JoinHostPort(HostText(ip, r), Itoa(r.port))
  }

  datatype Destination = Address(ip: seq<byte>) | Name(domain: seq<byte>)

  /** Where a request points; a domain that is an IP literal is that address. */
  function DestinationOf(ip: IpText, r: Request): Destination {
    if r.atyp == ATYP_DOMAIN then
      match ip.parse(AsText(r.addr))
      case Some(a) => Address(a)
      case None => Name(r.addr)
    else Address(To16(r.addr))
  }

  datatype DialError =
    | ReplyTruncated | BadMethodReply | CredentialsTooLong | AuthRejected | BadTarget | BadPort | HostTooLong
    | BadReplyVersion | Refused(code: byte) | BadReplyAddressType | SendFailed

  /** The request that dialUpstreamSOCKS builds for a target; the port is cut to 16 bits unchecked. */
  function ClientRequest(ip: IpText, target: string): Result<Request, DialError> {
    match SplitHostPort(target)
    case Err(_) => Err(BadTarget)
    case Ok((host, portText)) =>
      match Atoi(portText)
      case None => Err(BadPort)
      case Some(port) =>
        match ip.parse(host)
        case Some(a) =>
          if To4(a).Some? then Ok(Request(ATYP_IPV4, To4(a).value, port % 65536))
          else Ok(Request(ATYP_IPV6, a, port % 65536))
        case None =>
          if |host| > 255 then Err(HostTooLong)
          else Ok(Request(ATYP_DOMAIN, AsBytes(host), port % 65536))
  }

  lemma ClientRequestValid(ip: IpText, target: string)
    requires Lawful(ip) && ClientRequest(ip, target).Ok?
    ensures Valid(ClientRequest(ip, target).value)
  {
  }

  lemma PortTextPlain(port: nat)
    requires port < 65536
    ensures ':' !in Itoa(port) && NoBrackets(Itoa(port)) && Atoi(Itoa(port)) == Some(port)
  {
    ItoaDigits(port);
    AtoiOfItoa(port);
    assert forall c | c in Itoa(port) :: IsDigit(c);
  }

  lemma To16To4(a: seq<byte>)
    requires |a| == 16
    ensures To4(a).Some? ==> To16(To4(a).value) == a
  {
    assert a == a[..12] + a[12..];
  }

  lemma NameRequest(ip: IpText, target: string, host: string, port: nat)
    requires SplitHostPort(target) == Ok((host, Itoa(port))) && Atoi(Itoa(port)) == Some(port) && port < 65536
    requires ip.parse(host) == None && |host| <= 255
    ensures ClientRequest(ip, target) == Ok(Request(ATYP_DOMAIN, AsBytes(host), port))
  {
  }

  lemma AddressRequest(ip: IpText, target: string, host: string, port: nat)
    requires SplitHostPort(target) == Ok((host, Itoa(port))) && Atoi(Itoa(port)) == Some(port) && port < 65536
    requires ip.parse(host).Some? && |ip.parse(host).value| == 16
    ensures ClientRequest(ip, target).Ok?
    ensures var r := ClientRequest(ip, target).value;
            r.port == port && r.atyp != ATYP_DOMAIN && To16(r.addr) == ip.parse(host).value
  {
    To16To4(ip.parse(host).value);
  }

  /** A host without brackets and a 16-bit port become the request for that very destination. */
  lemma ClientRequestOfJoin(ip: IpText, host: string, port: nat)
    requires Lawful(ip) && NoBrackets(host) && port < 65536
    requires ip.parse(host) == None ==> |host| <= 255 && Octets(host)
    ensures ClientRequest(ip, JoinHostPort(host, Itoa(port))).Ok?
    ensures var r := ClientRequest(ip, JoinHostPort(host, Itoa(port))).value;
            && r.port == port
            && DestinationOf(ip, r) == (if ip.parse(host).Some? then Address(ip.parse(host).value) else Name(AsBytes(host)))
            && (ip.parse(host) == None ==> r == Request(ATYP_DOMAIN, AsBytes(host), port))
  {
    var target := JoinHostPort(host, Itoa(port));
    PortTextPlain(port);
    SplitOfJoin(host, Itoa(port));
    if ip.parse(host).Some? {
      AddressRequest(ip, target, host, port);
    } else {
      NameRequest(ip, target, host, port);
      TextOfBytes(host);
    }
  }

  predicate V4Mapped(b: seq<byte>) {
    |b| == 16 && b[..12] == [0, 0, 0, 0, 0, 0, 0, 0, 0, 0, 255, 255]
  }

  /** What goes on the wire for an IP address: ATYP 1 with 4 octets where possible, else ATYP 4 with 16. */
  lemma AddressFormOnWire(ip: IpText, b: seq<byte>, port: nat)
    requires Lawful(ip) && (|b| == 4 || |b| == 16) && port < 65536
    ensures ClientRequest(ip, JoinHostPort(ip.format(b), Itoa(port))) ==
            Ok(if |b| == 4 then Request(1, b, port) else if V4Mapped(b) then Request(1, b[12..], port) else Request(4, b, port))
  {
    var host := ip.format(b);
    FormatHasNoBrackets(ip, b);
    PortTextPlain(port);
    SplitOfJoin(host, Itoa(port));
    ParsedAddressForm(ip, JoinHostPort(host, Itoa(port)), host, b, port);
  }

  lemma ParsedAddressForm(ip: IpText, target: string, host: string, b: seq<byte>, port: nat)
    requires SplitHostPort(target) == Ok((host, Itoa(port))) && Atoi(Itoa(port)) == Some(port) && port < 65536
    requires (|b| == 4 || |b| == 16) && ip.parse(host) == Some(To16(b))
    ensures ClientRequest(ip, target) ==
            Ok(if |b| == 4 then Request(1, b, port) else if V4Mapped(b) then Request(1, b[12..], port) else Request(4, b, port))
  {
    assert |b| == 4 ==> To16(b)[..12] == V4_PREFIX && To16(b)[12..] == b;
  }

  lemma FormatHasNoBrackets(ip: IpText, b: seq<byte>)
    requires Lawful(ip) && (|b| == 4 || |b| == 16)
    ensures NoBrackets(ip.format(b)) && ip.parse(ip.format(b)) == Some(To16(b))
  {
  }
}
