/**
 Both ends of the SOCKS handshake as the program runs them on a connection
 (internal/proxy/socks.go:140-219, 256-381). Reads return arbitrary segments of what the peer sends.
 */
module SocksConn {
  import opened Base
  import opened HostPort
  import opened SocksWire

  /** A TCP connection as one end sees it. */
  class Conn {
    var inbound: seq<byte>    // what the peer still sends before it closes
    var outbound: seq<byte>   // what this end has written
    var writable: nat         // how many more writes succeed
    var closed: bool

    constructor (inbound: seq<byte>, writable: nat)
      ensures this.inbound == inbound && this.outbound == [] && this.writable == writable && !this.closed
    {
      this.inbound, this.outbound, this.writable, this.closed := inbound, [], writable, false;
    }

    /** One Read: some octets, as many as the network happens to deliver, or none at the end. */
    method Read(limit: nat) returns (chunk: seq<byte>)
      requires 0 < limit
      modifies this`inbound
      ensures chunk + inbound == old(inbound) && |chunk| <= limit
      ensures chunk == [] ==> old(inbound) == []
    {
      if inbound == [] {
        return [];
      }
      var n :| 1 <= n <= limit && n <= |inbound|;
      chunk, inbound := inbound[..n], inbound[n..];
    }

    /** io.ReadFull: the result does not depend on how the octets were segmented. */
    method ReadFull(n: nat) returns (data: Option<seq<byte>>)
      modifies this`inbound
      ensures n <= |old(inbound)| ==> data == Some(old(inbound)[..n]) && inbound == old(inbound)[n..]
      ensures n > |old(inbound)| ==> data == None && inbound == []
    {
      var got: seq<byte> := [];
      while |got| < n
        invariant |got| <= n && got + inbound == old(inbound)
        decreases n - |got|
      {
        var chunk := Read(n - |got|);
        if chunk == [] {
          return None;
        }
        got := got + chunk;
      }
      data := Some(got);
    }

    method Write(data: seq<byte>) returns (ok: bool)
      modifies this`outbound, this`writable
      ensures ok == (old(writable) > 0)
      ensures ok ==> outbound == old(outbound) + data && writable == old(writable) - 1
      ensures !ok ==> outbound == old(outbound) && writable == 0
    {
      ok := writable > 0;
      if ok {
        outbound, writable := outbound + data, writable - 1;
      }
    }

    method Close()
      modifies this`closed
      ensures closed
    {
      closed := true;
    }
  }

  // ---- The server's end

  /** The greeting: what follows it, and whether "no authentication" was among the methods. */
  function Greeting(input: seq<byte>): Result<(bool, seq<byte>), ServerError> {
    if |input| < 2 then Err(Truncated)
    else if input[0] != VERSION5 then Err(BadVersion)
    else if |input| < input[1] as int + 2 then Err(Truncated)
    else Ok((AUTH_NONE in input[2..input[1] as int + 2], input[input[1] as int + 2..]))
  }

  /** A greeting is version 5, a count and that many methods; it is read whole whatever the methods are. */
  lemma GreetingExactly(input: seq<byte>, offered: bool, rest: seq<byte>)
    ensures Greeting(input) == Ok((offered, rest)) <==>
            exists methods: seq<byte> | |methods| < 256 :: input == [5, |methods|] + methods + rest && (offered <==> 0 in methods)
  {
    if Greeting(input) == Ok((offered, rest)) {
      var methods := input[2..input[1] as int + 2];
      assert input == [5, |methods|] + methods + rest;
    }
    if methods: seq<byte> :| |methods| < 256 && input == [5, |methods|] + methods + rest && (offered <==> 0 in methods) {
      assert input[2..input[1] as int + 2] == methods && input[input[1] as int + 2..] == rest;
    }
  }

  method Handshake(conn: Conn) returns (r: Result<(), ServerError>)
    modifies conn`inbound, conn`outbound, conn`writable
    ensures var g := Greeting(old(conn.inbound));
            match g
            case Err(e) => r == Err(e) && conn.outbound == old(conn.outbound)
            case Ok((offered, rest)) =>
              && conn.inbound == rest
              && (r.Ok? <==> offered && old(conn.writable) > 0)
              && (offered && !r.Ok? ==> r == Err(WriteFailed))
              && (!offered ==> r == Err(NoAcceptableMethod))
              && (old(conn.writable) > 0 ==>
                    conn.outbound == old(conn.outbound) + [5, if offered then 0 else 255])
  {
    var header := conn.ReadFull(2);
    if header == None {
      return Err(Truncated);
    }
    var hdr := header.value;
    if hdr[0] != VERSION5 {
      return Err(BadVersion);
    }
    var list := conn.ReadFull(hdr[1]);
    if list == None {
      return Err(Truncated);
    }
    var methods := list.value;
    assert methods == old(conn.inbound)[2..hdr[1] as int + 2];
    for i := 0 to |methods|
      invariant AUTH_NONE !in methods[..i]
      invariant conn.outbound == old(conn.outbound) && conn.writable == old(conn.writable)
      invariant conn.inbound == old(conn.inbound)[hdr[1] as int + 2..]
    {
      if methods[i] == AUTH_NONE {
        var ok := conn.Write([VERSION5, AUTH_NONE]);
        return if ok then Ok(()) else Err(WriteFailed);
      }
    }
    var _ := conn.Write([VERSION5, AUTH_NO_ACCEPTABLE]);
    return Err(NoAcceptableMethod);
  }

  /** The 10-octet reply of socksWriteReply: the wildcard address as the bound one. */
  function Reply(code: byte): seq<byte> {
    [VERSION5, code, 0, ATYP_IPV4, 0, 0, 0, 0, 0, 0]
  }

  /** The refusal that some request errors send before they are reported. */
  function Refusal(e: ServerError): seq<byte> {
    match e
    case BadCommand => Reply(REPLY_CMD_NOT_SUPPORTED)
    case BadAddressType => Reply(REPLY_ATYP_NOT_SUPPORTED)
    case _ => []
  }

  method ReadRequest(conn: Conn, ip: IpText) returns (r: Result<string, ServerError>)
    modifies conn`inbound, conn`outbound, conn`writable
    ensures match Decode(old(conn.inbound))
            case Ok((req, rest)) =>
              r == Ok(TargetText(ip, req)) && conn.inbound == rest && conn.outbound == old(conn.outbound)
            case Err(e) =>
              r == Err(e) && (old(conn.writable) > 0 ==> conn.outbound == old(conn.outbound) + Refusal(e))
  {
    ghost var input := conn.inbound;
    var header := conn.ReadFull(4);
    if header == None {
      return Err(Truncated);
    }
    var hdr := header.value;
    if hdr[0] != VERSION5 {
      return Err(BadVersion);
    }
    if hdr[1] != CMD_CONNECT {
      var _ := conn.Write(Reply(REPLY_CMD_NOT_SUPPORTED));
      return Err(BadCommand);
    }
    var host: string;
    ghost var addr: seq<byte>;
    if hdr[3] == ATYP_IPV4 {
      var b := conn.ReadFull(4);
      if b == None {
        return Err(Truncated);
      }
      host, addr := ip.format(b.value), b.value;
    } else if hdr[3] == ATYP_IPV6 {
      var b := conn.ReadFull(16);
      if b == None {
        return Err(Truncated);
      }
      host, addr := ip.format(b.value), b.value;
    } else if hdr[3] == ATYP_DOMAIN {
      var len := conn.ReadFull(1);
      if len == None {
        return Err(Truncated);
      }
      assert input[4..][1..] == input[5..];
      var b := conn.ReadFull(len.value[0]);
      if b == None {
        return Err(Truncated);
      }
      host, addr := AsText(b.value), b.value;
    } else {
      var _ := conn.Write(Reply(REPLY_ATYP_NOT_SUPPORTED));
      return Err(BadAddressType);
    }
    ghost var tail := conn.inbound;
    var portBuf := conn.ReadFull(2);
    if portBuf == None {
      return Err(Truncated);
    }
    var port := 256 * (portBuf.value[0] as int) + portBuf.value[1];
    assert Decode(input) == Ok((Request(hdr[3], addr, port), tail[2..]));
    return Ok(JoinHostPort(host, Itoa(port)));
  }

  // ---- The client's end

  function MethodReply(input: seq<byte>, want: byte): Result<seq<byte>, DialError> {
    if |input| < 2 then Err(ReplyTruncated)
    else if input[0] != VERSION5 || input[1] != want then Err(BadMethodReply)
    else Ok(input[2..])
  }

  function AuthReply(input: seq<byte>): Result<seq<byte>, DialError> {
    if |input| < 2 then Err(ReplyTruncated)
    else if input[1] != 0 then Err(AuthRejected)
    else Ok(input[2..])
  }

  function ConnectReply(input: seq<byte>): Result<seq<byte>, DialError> {
    if |input| < 4 then Err(ReplyTruncated)
    else if input[0] != VERSION5 then Err(BadReplyVersion)
    else if input[1] != REPLY_SUCCEEDED then Err(Refused(input[1]))
    else if input[3] == ATYP_IPV4 then SkipBound(input[4..], 4)
    else if input[3] == ATYP_IPV6 then SkipBound(input[4..], 16)
    else if input[3] == ATYP_DOMAIN then
      if |input| < 5 then Err(ReplyTruncated) else SkipBound(input[5..], input[4])
    else Err(BadReplyAddressType)
  }

  function SkipBound(input: seq<byte>, n: nat): Result<seq<byte>, DialError> {
    if |input| < n + 2 then Err(ReplyTruncated) else Ok(input[n + 2..])
  }

  /** The method reply and, if asked for, the username/password reply. */
  function NegotiationReplies(input: seq<byte>, auth: bool): Result<seq<byte>, DialError> {
    match MethodReply(input, if auth then AUTH_USER_PASS else AUTH_NONE)
    case Err(e) => Err(e)
    case Ok(rest) => if auth then AuthReply(rest) else Ok(rest)
  }

  /** All replies of one exchange. */
  function Replies(input: seq<byte>, auth: bool): Result<seq<byte>, DialError> {
    match NegotiationReplies(input, auth)
    case Err(e) => Err(e)
    case Ok(rest) => ConnectReply(rest)
  }

  /** The username/password request of section 2 of RFC 1929. */
  function UserPass(user: string, pass: string): seq<byte>
    requires |user| <= 255 && |pass| <= 255
  {
    [USER_PASS_VERSION, |user|] + AsBytes(user) + [|pass|] + AsBytes(pass)
  }

  predicate CredentialsFit(user: string, pass: string) {
    user != "" ==> |user| <= 255 && |pass| <= 255
  }

  /** What the client writes up to the end of the negotiation. */
  function Hello(user: string, pass: string): seq<byte>
    requires CredentialsFit(user, pass)
  {
    [VERSION5, 1, if user != "" then AUTH_USER_PASS else AUTH_NONE]
    + (if user != "" then UserPass(user, pass) else [])
  }

  /**
   dialUpstreamSOCKS after the TCP dial. The connection is handed back open exactly when the whole
   exchange succeeded, standing at the first octet of the tunnel; on every other path it is closed.
   */
  method DialUpstream(conn: Conn, ip: IpText, target: string, user: string, pass: string) returns (r: Result<(), DialError>)
    requires Lawful(ip) && !conn.closed
    modifies conn
    ensures conn.closed <==> r.Err?
    ensures r.Ok? <==> && Replies(old(conn.inbound), user != "").Ok?
                       && CredentialsFit(user, pass)
                       && ClientRequest(ip, target).Ok?
                       && old(conn.writable) >= (if user != "" then 3 else 2)
    ensures r.Ok? ==> && conn.inbound == Replies(old(conn.inbound), user != "").value
                      && Valid(ClientRequest(ip, target).value)
                      && conn.outbound == old(conn.outbound) + Hello(user, pass) + Encode(ClientRequest(ip, target).value, 0)
  {
    r := Negotiate(conn, user, pass);
    if r.Err? {
      return;
    }
    r := SendRequest(conn, ip, target);
    if r.Err? {
      return;
    }
    r := AwaitConnected(conn);
  }

  /** The method and username/password phases; each failing exit closes the connection itself. */
  method Negotiate(conn: Conn, user: string, pass: string) returns (r: Result<(), DialError>)
    requires !conn.closed
    modifies conn
    ensures conn.closed <==> r.Err?
    ensures var writes := if user != "" then 2 else 1;
            && (r.Ok? <==> && NegotiationReplies(old(conn.inbound), user != "").Ok?
                           && CredentialsFit(user, pass) && old(conn.writable) >= writes)
            && (r.Ok? ==> && conn.writable == old(conn.writable) - writes
                          && conn.inbound == NegotiationReplies(old(conn.inbound), user != "").value
                          && conn.outbound == old(conn.outbound) + Hello(user, pass))
  {
    var want := if user != "" then AUTH_USER_PASS else AUTH_NONE;
    var ok := conn.Write([VERSION5, 1, want]);
    if !ok {
      conn.Close();
      return Err(SendFailed);
    }
    var methodResp := conn.ReadFull(2);
    if methodResp == None {
      conn.Close();
      return Err(ReplyTruncated);
    }
    if methodResp.value[0] != VERSION5 || methodResp.value[1] != want {
      conn.Close();
      return Err(BadMethodReply);
    }
    if want == AUTH_USER_PASS {
      if |user| > 255 || |pass| > 255 {
        conn.Close();
        return Err(CredentialsTooLong);
      }
      ok := conn.Write(UserPass(user, pass));
      if !ok {
        conn.Close();
        return Err(SendFailed);
      }
      var authResp := conn.ReadFull(2);
      if authResp == None {
        conn.Close();
        return Err(ReplyTruncated);
      }
      if authResp.value[1] != 0 {
        conn.Close();
        return Err(AuthRejected);
      }
    }
    r := Ok(());
  }

  /** ATYP and DST.ADDR for a host; None if it is a name of more than 255 octets. */
  function AddressOctets(ip: IpText, host: string): Option<seq<byte>> {
    var addr := ip.parse(host);
    if addr.Some? && To4(addr.value).Some? then Some([ATYP_IPV4] + To4(addr.value).value)
    else if addr.Some? then Some([ATYP_IPV6] + addr.value)
    else if |host| > 255 then None
    else Some([ATYP_DOMAIN, |host|] + AsBytes(host))
  }

  /** The octets appended step by step are the encoding of the request. */
  lemma RequestOctets(ip: IpText, target: string, host: string, portText: string)
    requires Lawful(ip) && SplitHostPort(target) == Ok((host, portText)) && Atoi(portText).Some?
    ensures AddressOctets(ip, host) == None ==> ClientRequest(ip, target) == Err(HostTooLong)
    ensures AddressOctets(ip, host).Some? ==>
              && ClientRequest(ip, target).Ok? && Valid(ClientRequest(ip, target).value)
              && Encode(ClientRequest(ip, target).value, 0) ==
                 [VERSION5, CMD_CONNECT, 0] + AddressOctets(ip, host).value + PortField(Atoi(portText).value % 65536)
  {
    if AddressOctets(ip, host).Some? {
      ClientRequestValid(ip, target);
      EncodeAppends(ClientRequest(ip, target).value);
    }
  }

  lemma EncodeAppends(r: Request)
    requires Valid(r)
    ensures Encode(r, 0) == [VERSION5, CMD_CONNECT, 0] + ([r.atyp] + AddressField(r.atyp, r.addr)) + PortField(r.port)
  {
  }

  /** Parsing the target, choosing the address form and writing the CONNECT request. */
  method SendRequest(conn: Conn, ip: IpText, target: string) returns (r: Result<(), DialError>)
    requires Lawful(ip) && !conn.closed
    modifies conn`outbound, conn`writable, conn`closed
    ensures conn.closed <==> r.Err?
    ensures r.Ok? <==> ClientRequest(ip, target).Ok? && old(conn.writable) > 0
    ensures r.Ok? ==> && Valid(ClientRequest(ip, target).value)
                      && conn.outbound == old(conn.outbound) + Encode(ClientRequest(ip, target).value, 0)
    ensures ClientRequest(ip, target).Err? ==> r == Err(ClientRequest(ip, target).error)
  {
    var split := SplitHostPort(target);
    if split.Err? {
      conn.Close();
      return Err(BadTarget);
    }
    var (host, portText) := split.value;
    var number := Atoi(portText);
    if number == None {
      conn.Close();
      return Err(BadPort);
    }
    RequestOctets(ip, target, host, portText);
    var addr := AddressOctets(ip, host);
    if addr == None {
      conn.Close();
      return Err(HostTooLong);
    }
    var req: seq<byte> := [VERSION5, CMD_CONNECT, 0] + addr.value + PortField(number.value % 65536);
    var ok := conn.Write(req);
    if !ok {
      conn.Close();
      return Err(SendFailed);
    }
    r := Ok(());
  }

  /** The CONNECT reply, read through BND.PORT. */
  method AwaitConnected(conn: Conn) returns (r: Result<(), DialError>)
    requires !conn.closed
    modifies conn`inbound, conn`closed
    ensures conn.closed <==> r.Err?
    ensures match ConnectReply(old(conn.inbound))
            case Ok(rest) => r == Ok(()) && conn.inbound == rest
            case Err(e) => r == Err(e)
  {
    ghost var input := conn.inbound;
    var header := conn.ReadFull(4);
    if header == None {
      conn.Close();
      return Err(ReplyTruncated);
    }
    var hdr := header.value;
    if hdr[0] != VERSION5 {
      conn.Close();
      return Err(BadReplyVersion);
    }
    if hdr[1] != REPLY_SUCCEEDED {
      conn.Close();
      return Err(Refused(hdr[1]));
    }
    var addrLen: nat;
    if hdr[3] == ATYP_IPV4 {
      addrLen := 4;
    } else if hdr[3] == ATYP_IPV6 {
      addrLen := 16;
    } else if hdr[3] == ATYP_DOMAIN {
      var len := conn.ReadFull(1);
      if len == None {
        conn.Close();
        return Err(ReplyTruncated);
      }
      assert input[4..][1..] == input[5..];
      addrLen := len.value[0];
    } else {
      conn.Close();
      return Err(BadReplyAddressType);
    }
    var bound := conn.ReadFull(addrLen + 2);
    if bound == None {
      conn.Close();
      return Err(ReplyTruncated);
    }
    r := Ok(());
  }

  // ---- The replies as a language

  ghost predicate IsConnectReply(c: seq<byte>) {
    && |c| >= 5 && c[0] == 5 && c[1] == 0
    && (|| (c[3] == 1 && |c| == 4 + 4 + 2)
        || (c[3] == 4 && |c| == 4 + 16 + 2)
        || (c[3] == 3 && |c| == c[4] as int + 1 + 4 + 2))
  }

  /** Method reply, optional username/password reply, and CONNECT reply through BND.PORT. */
  ghost predicate IsExchange(x: seq<byte>, auth: bool) {
    var connect := if auth then 4 else 2;
    && |x| >= connect && x[0] == 5 && x[1] == (if auth then 2 else 0)
    && (auth ==> x[3] == 0)
    && IsConnectReply(x[connect..])
  }

  lemma ConnectReplyExact(input: seq<byte>)
    ensures ConnectReply(input).Ok? ==>
              var n := |input| - |ConnectReply(input).value|;
              0 <= n <= |input| && IsConnectReply(input[..n]) && ConnectReply(input).value == input[n..]
    ensures forall n | 0 <= n <= |input| && IsConnectReply(input[..n]) :: ConnectReply(input) == Ok(input[n..])
  {
    if |input| >= 5 {
      forall n | 5 <= n <= |input| ensures input[4..][n - 4..] == input[n..] && input[5..][n - 5..] == input[n..] {
      }
    }
  }

  /** The octets before the CONNECT reply are the right ones. */
  ghost predicate IsNegotiation(x: seq<byte>, auth: bool) {
    && |x| == (if auth then 4 else 2) && x[0] == 5 && x[1] == (if auth then 2 else 0)
    && (auth ==> x[3] == 0)
  }

  lemma RepliesSplit(input: seq<byte>, auth: bool)
    ensures var k := if auth then 4 else 2;
            if |input| >= k && IsNegotiation(input[..k], auth) then Replies(input, auth) == ConnectReply(input[k..])
            else Replies(input, auth).Err?
  {
    if auth && |input| >= 4 {
      assert input[2..][2..] == input[4..];
    }
  }

  lemma ExchangeSplit(input: seq<byte>, auth: bool, n: nat)
    requires n <= |input|
    ensures var k := if auth then 4 else 2;
            IsExchange(input[..n], auth) <==>
            k <= n && IsNegotiation(input[..k], auth) && IsConnectReply(input[k..][..n - k])
  {
    var k := if auth then 4 else 2;
    if k <= n {
      assert input[..n][k..] == input[k..][..n - k];
    }
  }

  /**
   The client succeeds exactly when the upstream's stream begins with one complete exchange, and it
   consumes exactly that exchange: BND.ADDR and BND.PORT included, nothing of the tunnel.
   */
  lemma ConsumesExactlyTheExchange(input: seq<byte>, auth: bool)
    ensures Replies(input, auth).Ok? <==> exists n | 0 <= n <= |input| :: IsExchange(input[..n], auth)
    ensures forall n | 0 <= n <= |input| && IsExchange(input[..n], auth) :: Replies(input, auth) == Ok(input[n..])
  {
    var k := if auth then 4 else 2;
    RepliesSplit(input, auth);
    forall n | 0 <= n <= |input| && IsExchange(input[..n], auth) ensures Replies(input, auth) == Ok(input[n..]) {
      ExchangeSplit(input, auth, n);
      ConnectReplyExact(input[k..]);
      assert input[k..][n - k..] == input[n..];
    }
    if Replies(input, auth).Ok? {
      ConnectReplyExact(input[k..]);
      var n := |input| - |Replies(input, auth).value|;
      ExchangeSplit(input, auth, n);
      assert IsExchange(input[..n], auth);
    }
  }

  /** Cut anywhere short of its end, an exchange makes the client fail. */
  lemma ProperPrefixFails(x: seq<byte>, auth: bool, n: nat)
    requires IsExchange(x, auth) && n < |x|
    ensures Replies(x[..n], auth).Err?
  {
    ConsumesExactlyTheExchange(x[..n], auth);
    ConsumesExactlyTheExchange(x, auth);
    assert x[..|x|] == x;
    forall m | 0 <= m <= n ensures x[..n][..m] == x[..m] {
    }
  }

  /** The server's success reply is a complete CONNECT reply, and no refusal is one. */
  lemma ServerReplyIsConnectReply(code: byte)
    ensures IsConnectReply(Reply(code)) <==> code == 0
  {
  }

  /** The fixed messages octet by octet: sections 3, 4 and 6 of RFC 1928 and section 2 of RFC 1929. */
  lemma MessagesOnTheWire(code: byte, user: string, pass: string)
    requires user != "" && |user| <= 255 && |pass| <= 255
    ensures Reply(code) == [5, code, 0, 1, 0, 0, 0, 0, 0, 0]
    ensures Refusal(BadCommand) == Reply(7) && Refusal(BadAddressType) == Reply(8)
    ensures Refusal(Truncated) == Refusal(BadVersion) == []
    ensures Hello("", pass) == [5, 1, 0]
    ensures Hello(user, pass) == [5, 1, 2] + [1, |user|] + AsBytes(user) + [|pass|] + AsBytes(pass)
  {
    assert Hello("", pass) == [5, 1, 0] + [];
  }

  /** A reader of the username/password request, as section 2 of RFC 1929 lays it out. */
  ghost function ReadUserPass(input: seq<byte>): Option<(seq<byte>, seq<byte>)> {
    if |input| < 2 || input[0] != 1 || |input| < input[1] as int + 3 then None
    else
      var n := input[1] as int + 2;
      if |input| != n + 1 + input[n] as int then None else Some((input[2..n], input[n + 1..]))
  }

  /** The credentials arrive separated as they were given. */
  lemma UserPassReadsBack(user: string, pass: string)
    requires |user| <= 255 && |pass| <= 255
    ensures ReadUserPass(UserPass(user, pass)) == Some((AsBytes(user), AsBytes(pass)))
  {
    var m := UserPass(user, pass);
    assert m[2..|user| + 2] == AsBytes(user) && m[|user| + 3..] == AsBytes(pass);
  }
}
