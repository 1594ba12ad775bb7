/**
 Two gopr instances talking: dialUpstreamSOCKS of one against socksHandshake, socksReadRequest and a
 success socksWriteReply of the other (internal/proxy/socks.go:140-219, 272-380), without
 authentication, over two FIFO octet streams.

 Each end is a program counter plus the octets its current io.ReadFull has gathered. A read takes
 any non-empty segment that has arrived; once an end is through the handshake it may send tunnel
 octets at any time.
 */
module SocksSession {
  import opened Base
  import opened HostPort
  import opened SocksWire
  import opened SocksConn
  import opened SocksChaining

  datatype ClientPc =
    | Greet          // before writing the greeting
    | AwaitMethod    // reading the 2-octet method reply
    | Ask            // before writing the CONNECT request
    | AwaitHeader    // reading the first 4 octets of the CONNECT reply
    | AwaitBoundLen  // reading the length of a domain BND.ADDR
    | AwaitBound(n: nat)   // discarding BND.ADDR and BND.PORT
    | Connected
    | ClientFailed

  datatype ServerPc =
    | AwaitGreeting
    | AwaitMethods(count: byte)
    | Choose(methods: seq<byte>)        // before writing the method reply
    | AwaitRequest
    | AwaitAddress(reserved: byte, atyp: byte)
    | AwaitDomainLen(reserved: byte)
    | AwaitDomain(reserved: byte, len: byte)
    | AwaitPort(reserved: byte, atyp: byte, addr: seq<byte>)
    | Answer(request: Request)          // target dialed, before writing the success reply
    | Serving(request: Request)
    | ServerFailed

  /** c2s and s2c are the octets in transit; the tunnels record what was sent behind the handshake. */
  datatype State = State(
    client: ClientPc, clientGot: seq<byte>, server: ServerPc, serverGot: seq<byte>,
    c2s: seq<byte>, s2c: seq<byte>, clientTunnel: seq<byte>, serverTunnel: seq<byte>)

  datatype Step =
    | ClientWrite
    | ClientRead(k: nat)
    | ServerWrite
    | ServerRead(k: nat)
    | ClientTunnel(data: seq<byte>)
    | ServerTunnel(data: seq<byte>)

  function Start(): State {
    State(Greet, [], AwaitGreeting, [], [], [], [], [])
  }

  /** How many octets the current io.ReadFull of the client asks for. */
  function ClientWants(pc: ClientPc): Option<nat> {
    match pc
    case AwaitMethod => Some(2)
    case AwaitHeader => Some(4)
    case AwaitBoundLen => Some(1)
    case AwaitBound(n) => Some(n)
    case _ => None
  }

  function ServerWants(pc: ServerPc): Option<nat> {
    match pc
    case AwaitGreeting => Some(2)
    case AwaitMethods(count) => Some(count as nat)
    case AwaitRequest => Some(4)
    case AwaitAddress(_, atyp) => Some(if atyp == ATYP_IPV4 then 4 else 16)
    case AwaitDomainLen(_) => Some(1)
    case AwaitDomain(_, len) => Some(len as nat)
    case AwaitPort(_, _, _) => Some(2)
    case _ => None
  }

  function ClientNext(pc: ClientPc, got: seq<byte>): ClientPc
    requires ClientWants(pc) == Some(|got|)
  {
    match pc
    case AwaitMethod => if got[0] == VERSION5 && got[1] == AUTH_NONE then Ask else ClientFailed
    case AwaitHeader =>
      if got[0] != VERSION5 || got[1] != REPLY_SUCCEEDED then ClientFailed
      else if got[3] == ATYP_IPV4 then AwaitBound(6)
      else if got[3] == ATYP_IPV6 then AwaitBound(18)
      else if got[3] == ATYP_DOMAIN then AwaitBoundLen
      else ClientFailed
    case AwaitBoundLen => AwaitBound(got[0] as nat + 2)
    case _ => Connected
  }

  function ServerNext(pc: ServerPc, got: seq<byte>): ServerPc
    requires ServerWants(pc) == Some(|got|)
  {
    match pc
    case AwaitGreeting => if got[0] == VERSION5 then AwaitMethods(got[1]) else ServerFailed
    case AwaitMethods(_) => if AUTH_NONE in got then Choose(got) else ServerFailed
    case AwaitRequest =>
      if got[0] != VERSION5 || got[1] != CMD_CONNECT then ServerFailed
      else if got[3] == ATYP_IPV4 || got[3] == ATYP_IPV6 then AwaitAddress(got[2], got[3])
      else if got[3] == ATYP_DOMAIN then AwaitDomainLen(got[2])
      else ServerFailed
    case AwaitAddress(reserved, atyp) => AwaitPort(reserved, atyp, got)
    case AwaitDomainLen(reserved) => AwaitDomain(reserved, got[0])
    case AwaitDomain(reserved, _) => AwaitPort(reserved, ATYP_DOMAIN, got)
    case AwaitPort(_, atyp, addr) => Answer(Request(atyp, addr, 256 * (got[0] as int) + got[1]))
    case _ => ServerFailed
  }

  /** A read takes what has arrived, up to what is wanted; an empty ReadFull returns at once. */
  predicate ReadEnabled(wants: Option<nat>, got: seq<byte>, stream: seq<byte>, k: nat) {
    && wants.Some? && k <= |stream| && |got| + k <= wants.value
    && (k == 0 ==> |got| == wants.value)
  }

  predicate Enabled(s: State, step: Step) {
    match step
    case ClientWrite => s.client.Greet? || s.client.Ask?
    case ClientRead(k) => ReadEnabled(ClientWants(s.client), s.clientGot, s.s2c, k)
    case ServerWrite => s.server.Choose? || s.server.Answer?
    case ServerRead(k) => ReadEnabled(ServerWants(s.server), s.serverGot, s.c2s, k)
    case ClientTunnel(_) => s.client.Connected?
    case ServerTunnel(_) => s.server.Serving?
  }

  function Apply(s: State, step: Step, request: Request): State
    requires Valid(request) && Enabled(s, step)
  {
    match step
    case ClientWrite =>
      if s.client.Greet? then s.(client := AwaitMethod, c2s := s.c2s + [VERSION5, 1, AUTH_NONE])
      else s.(client := AwaitHeader, c2s := s.c2s + Encode(request, 0))
    case ClientRead(k) =>
      var got := s.clientGot + s.s2c[..k];
      if ClientWants(s.client) == Some(|got|) then
        s.(client := ClientNext(s.client, got), clientGot := [], s2c := s.s2c[k..])
      else s.(clientGot := got, s2c := s.s2c[k..])
    case ServerWrite =>
      if s.server.Choose? then s.(server := AwaitRequest, s2c := s.s2c + [VERSION5, AUTH_NONE])
      else s.(server := Serving(s.server.request), s2c := s.s2c + Reply(REPLY_SUCCEEDED))
    case ServerRead(k) =>
      var got := s.serverGot + s.c2s[..k];
      if ServerWants(s.server) == Some(|got|) then
        s.(server := ServerNext(s.server, got), serverGot := [], c2s := s.c2s[k..])
      else s.(serverGot := got, c2s := s.c2s[k..])
    case ClientTunnel(data) => s.(c2s := s.c2s + data, clientTunnel := s.clientTunnel + data)
    case ServerTunnel(data) => s.(s2c := s.s2c + data, serverTunnel := s.serverTunnel + data)
  }

  function Run(s: State, steps: seq<Step>, request: Request): Option<State>
    requires Valid(request)
    decreases |steps|
  {
    if steps == [] then Some(s)
    else if Enabled(s, steps[0]) then Run(Apply(s, steps[0], request), steps[1..], request)
    else None
  }

  // ---- Each end alone is the program of SocksConn

  /**
   The request the server gets to from program point `pc` with `stream` to come, and what it leaves
   unread; None if it fails or runs out of octets first.
   */
  function ServerResult(pc: ServerPc, stream: seq<byte>): Option<(Request, seq<byte>)>
    decreases ServerRank(pc)
  {
    match pc
    case Answer(request) => Some((request, stream))
    case Serving(request) => Some((request, stream))
    case ServerFailed => None
    case Choose(_) => ServerResult(AwaitRequest, stream)
    case _ =>
      var n := ServerWants(pc).value;
      if |stream| < n then None else ServerResult(ServerNext(pc, stream[..n]), stream[n..])
  }

  /** What the client leaves unread once connected. */
  function ClientResult(pc: ClientPc, stream: seq<byte>): Option<seq<byte>>
    decreases ClientRank(pc)
  {
    match pc
    case Connected => Some(stream)
    case ClientFailed => None
    case Greet => ClientResult(AwaitMethod, stream)
    case Ask => ClientResult(AwaitHeader, stream)
    case _ =>
      var n := ClientWants(pc).value;
      if |stream| < n then None else ClientResult(ClientNext(pc, stream[..n]), stream[n..])
  }

  lemma RequestPhase(stream: seq<byte>)
    ensures ServerResult(AwaitRequest, stream) == match Decode(stream) { case Ok(r) => Some(r) case Err(_) => None }
  {
    if |stream| >= 4 {
      var hdr, rest := stream[..4], stream[4..];
      if ServerNext(AwaitRequest, hdr).AwaitAddress? {
        AddressPhase(hdr[2], hdr[3], rest);
      } else if ServerNext(AwaitRequest, hdr).AwaitDomainLen? && |stream| >= 5 {
        assert rest[1..] == stream[5..];
        DomainPhase(hdr[2], rest[0], stream[5..]);
      }
    }
  }

  lemma AddressPhase(reserved: byte, atyp: byte, stream: seq<byte>)
    requires atyp == ATYP_IPV4 || atyp == ATYP_IPV6
    ensures var n := if atyp == ATYP_IPV4 then 4 else 16;
            ServerResult(AwaitAddress(reserved, atyp), stream) ==
            match DecodeTail(atyp, n, stream) { case Ok(r) => Some(r) case Err(_) => None }
  {
    PortPhase(reserved, atyp, if atyp == ATYP_IPV4 then 4 else 16, stream);
  }

  lemma DomainPhase(reserved: byte, len: byte, stream: seq<byte>)
    ensures ServerResult(AwaitDomain(reserved, len), stream) ==
            match DecodeTail(ATYP_DOMAIN, len, stream) { case Ok(r) => Some(r) case Err(_) => None }
  {
    PortPhase(reserved, ATYP_DOMAIN, len, stream);
  }

  lemma PortPhase(reserved: byte, atyp: byte, n: nat, stream: seq<byte>)
    ensures (if |stream| < n then None else ServerResult(AwaitPort(reserved, atyp, stream[..n]), stream[n..])) ==
            match DecodeTail(atyp, n, stream) { case Ok(r) => Some(r) case Err(_) => None }
  {
    if |stream| >= n + 2 {
      assert stream[n..][2..] == stream[n + 2..];
    }
  }

  /** What the server's methods in SocksConn make of a stream. */
  function Accepted(stream: seq<byte>): Option<(Request, seq<byte>)> {
    match Greeting(stream)
    case Ok((true, rest)) => (match Decode(rest) case Ok(r) => Some(r) case Err(_) => None)
    case _ => None
  }

  lemma ServerPhases(stream: seq<byte>)
    ensures ServerResult(AwaitGreeting, stream) == Accepted(stream)
  {
    if |stream| >= 2 && stream[0] == VERSION5 {
      var n := stream[1] as nat;
      if |stream| >= n + 2 {
        assert stream[2..][..n] == stream[2..n + 2] && stream[2..][n..] == stream[n + 2..];
        RequestPhase(stream[n + 2..]);
      }
    }
  }

  lemma ConnectPhase(stream: seq<byte>)
    ensures ClientResult(AwaitHeader, stream) == match ConnectReply(stream) { case Ok(rest) => Some(rest) case Err(_) => None }
  {
    if |stream| >= 5 {
      assert stream[4..][1..] == stream[5..] && stream[4..][..1] == [stream[4]];
    }
  }

  lemma ClientPhases(stream: seq<byte>)
    ensures ClientResult(Greet, stream) == match Replies(stream, false) { case Ok(rest) => Some(rest) case Err(_) => None }
  {
    if |stream| >= 2 {
      ConnectPhase(stream[2..]);
    }
  }

  /** Octets gathered by an unfinished read count as still to come, however they were segmented. */
  lemma ServerReadKeeps(s: State, k: nat, request: Request)
    requires Valid(request) && Enabled(s, ServerRead(k))
    ensures var t := Apply(s, ServerRead(k), request);
            ServerResult(t.server, t.serverGot + t.c2s) == ServerResult(s.server, s.serverGot + s.c2s)
  {
    var got, rest := s.serverGot + s.c2s[..k], s.c2s[k..];
    assert s.serverGot + s.c2s == got + rest;
    assert (got + rest)[..|got|] == got && (got + rest)[|got|..] == rest;
    assert [] + rest == rest;
  }

  lemma ClientReadKeeps(s: State, k: nat, request: Request)
    requires Valid(request) && Enabled(s, ClientRead(k))
    ensures var t := Apply(s, ClientRead(k), request);
            ClientResult(t.client, t.clientGot + t.s2c) == ClientResult(s.client, s.clientGot + s.s2c)
  {
    var got, rest := s.clientGot + s.s2c[..k], s.s2c[k..];
    assert s.clientGot + s.s2c == got + rest;
    assert (got + rest)[..|got|] == got && (got + rest)[|got|..] == rest;
    assert [] + rest == rest;
  }

  predicate ServerStep(step: Step) {
    step.ServerRead? || step.ServerWrite?
  }

  predicate ClientStep(step: Step) {
    step.ClientRead? || step.ClientWrite?
  }

  /** An end has gathered no more than it wants, and nothing when no read is under way. */
  predicate Settled(s: State) {
    Gathered(ServerWants(s.server), s.serverGot) && Gathered(ClientWants(s.client), s.clientGot)
  }

  predicate Gathered(wants: Option<nat>, got: seq<byte>) {
    if wants == None then got == [] else |got| <= wants.value
  }

  lemma {:induction false} ServerRunKeeps(s: State, steps: seq<Step>, request: Request)
    requires Valid(request) && Settled(s) && Run(s, steps, request).Some? && forall i | 0 <= i < |steps| :: ServerStep(steps[i])
    ensures var t := Run(s, steps, request).value;
            Settled(t) && ServerResult(t.server, t.serverGot + t.c2s) == ServerResult(s.server, s.serverGot + s.c2s)
    decreases |steps|
  {
    if steps != [] {
      if steps[0].ServerRead? {
        ServerReadKeeps(s, steps[0].k, request);
      }
      ServerRunKeeps(Apply(s, steps[0], request), steps[1..], request);
    }
  }

  lemma {:induction false} ClientRunKeeps(s: State, steps: seq<Step>, request: Request)
    requires Valid(request) && Settled(s) && Run(s, steps, request).Some? && forall i | 0 <= i < |steps| :: ClientStep(steps[i])
    ensures var t := Run(s, steps, request).value;
            Settled(t) && ClientResult(t.client, t.clientGot + t.s2c) == ClientResult(s.client, s.clientGot + s.s2c)
    decreases |steps|
  {
    if steps != [] {
      if steps[0].ClientRead? {
        ClientReadKeeps(s, steps[0].k, request);
      }
      ClientRunKeeps(Apply(s, steps[0], request), steps[1..], request);
    }
  }

  /** How many octets an end can ask for next. */
  function NextRead(wants: Option<nat>, got: seq<byte>): nat {
    if wants == Some(|got|) then 0 else 1
  }

  lemma ServerStuck(s: State)
    requires Settled(s) && !Enabled(s, ServerWrite) && !Enabled(s, ServerRead(NextRead(ServerWants(s.server), s.serverGot)))
    ensures s.server.Serving? <==> ServerResult(s.server, s.serverGot + s.c2s).Some?
  {
  }

  lemma ServerThrough(s: State)
    requires Settled(s) && (s.server.Answer? || s.server.Serving?)
    ensures ServerResult(s.server, s.serverGot + s.c2s) == Some((s.server.request, s.c2s))
  {
    assert s.serverGot + s.c2s == s.c2s;
  }

  lemma ClientStuck(s: State)
    requires Settled(s) && !Enabled(s, ClientWrite) && !Enabled(s, ClientRead(NextRead(ClientWants(s.client), s.clientGot)))
    ensures s.client.Connected? <==> ClientResult(s.client, s.clientGot + s.s2c).Some?
  {
  }

  lemma ClientThrough(s: State)
    requires Settled(s) && s.client.Connected?
    ensures ClientResult(s.client, s.clientGot + s.s2c) == Some(s.s2c)
  {
    assert s.clientGot + s.s2c == s.s2c;
  }

  /**
   On every octet stream and for every segmentation, the server's program counter gets to a request,
   and what it leaves unread, exactly as Handshake and ReadRequest do: no run of it ends up with another
   request, and a run that can go no further serves if and only if they accept.
   */
  lemma ServerIsHandshakeAndReadRequest(stream: seq<byte>, steps: seq<Step>, request: Request)
    requires Valid(request) && Run(Start().(c2s := stream), steps, request).Some? && forall i | 0 <= i < |steps| :: ServerStep(steps[i])
    ensures var t := Run(Start().(c2s := stream), steps, request).value;
            && (t.server.Answer? || t.server.Serving? ==> Accepted(stream) == Some((t.server.request, t.c2s)))
            && (!Enabled(t, ServerWrite) && !Enabled(t, ServerRead(NextRead(ServerWants(t.server), t.serverGot))) ==>
                  (t.server.Serving? <==> Accepted(stream).Some?))
  {
    var s := Start().(c2s := stream);
    var t := Run(s, steps, request).value;
    assert [] + stream == stream;
    ServerRunKeeps(s, steps, request);
    ServerPhases(stream);
    if t.server.Answer? || t.server.Serving? {
      ServerThrough(t);
    }
    if !Enabled(t, ServerWrite) && !Enabled(t, ServerRead(NextRead(ServerWants(t.server), t.serverGot))) {
      ServerStuck(t);
    }
  }

  /** The same for the client and the replies that Negotiate and AwaitConnected read. */
  lemma ClientIsNegotiateAndAwaitConnected(stream: seq<byte>, steps: seq<Step>, request: Request)
    requires Valid(request) && Run(Start().(s2c := stream), steps, request).Some? && forall i | 0 <= i < |steps| :: ClientStep(steps[i])
    ensures var t := Run(Start().(s2c := stream), steps, request).value;
            && (t.client.Connected? ==> Replies(stream, false) == Ok(t.s2c))
            && (!Enabled(t, ClientWrite) && !Enabled(t, ClientRead(NextRead(ClientWants(t.client), t.clientGot))) ==>
                  (t.client.Connected? <==> Replies(stream, false).Ok?))
  {
    var s := Start().(s2c := stream);
    var t := Run(s, steps, request).value;
    assert [] + stream == stream;
    ClientRunKeeps(s, steps, request);
    ClientPhases(stream);
    if t.client.Connected? {
      ClientThrough(t);
    }
    if !Enabled(t, ClientWrite) && !Enabled(t, ClientRead(NextRead(ClientWants(t.client), t.clientGot))) {
      ClientStuck(t);
    }
  }

  // ---- The invariant: where each end stands in the octets the other end wrote

  /** The part of the request that the server has consumed. */
  function Consumed(pc: ServerPc, got: seq<byte>): seq<byte> {
    match pc
    case AwaitRequest => got
    case AwaitAddress(reserved, atyp) => [VERSION5, CMD_CONNECT, reserved, atyp] + got
    case AwaitDomainLen(reserved) => [VERSION5, CMD_CONNECT, reserved, ATYP_DOMAIN] + got
    case AwaitDomain(reserved, len) => [VERSION5, CMD_CONNECT, reserved, ATYP_DOMAIN, len] + got
    case AwaitPort(reserved, atyp, addr) =>
      [VERSION5, CMD_CONNECT, reserved, atyp] + (if |addr| < 256 then AddressField(atyp, addr) else []) + got
    case _ => []
  }

  predicate ReadsRequest(pc: ServerPc) {
    pc.AwaitRequest? || pc.AwaitAddress? || pc.AwaitDomainLen? || pc.AwaitDomain? || pc.AwaitPort?
  }

  /** The server is inside the request `wire`, with `ahead` still to come. */
  ghost predicate InsideRequest(pc: ServerPc, got: seq<byte>, ahead: seq<byte>, request: Request)
    requires Valid(request)
  {
    && ReadsRequest(pc)
    && Consumed(pc, got) + ahead == Encode(request, 0)
    && |got| <= ServerWants(pc).value
    && (pc.AwaitRequest? ==> |got| < 4)
    && (pc.AwaitAddress? ==> (pc.atyp == ATYP_IPV4 || pc.atyp == ATYP_IPV6) && |got| < ServerWants(pc).value)
    && (pc.AwaitDomainLen? ==> got == [])
    && (pc.AwaitDomain? ==> |got| < pc.len || pc.len == 0)
    && (pc.AwaitPort? ==> |pc.addr| < 256 && |got| < 2
                          && (pc.atyp == ATYP_IPV4 ==> |pc.addr| == 4) && (pc.atyp == ATYP_IPV6 ==> |pc.addr| == 16)
                          && (pc.atyp == ATYP_IPV4 || pc.atyp == ATYP_IPV6 || pc.atyp == ATYP_DOMAIN))
  }

  ghost predicate InsideGreeting(pc: ServerPc, got: seq<byte>, ahead: seq<byte>) {
    match pc
    case AwaitGreeting => |got| < 2 && got + ahead == [VERSION5, 1, AUTH_NONE]
    case AwaitMethods(count) => count == 1 && got == [] && ahead == [AUTH_NONE]
    case Choose(methods) => got == [] && methods == [AUTH_NONE] && ahead == []
    case _ => false
  }

  ghost predicate Inv(s: State, request: Request)
    requires Valid(request)
  {
    && (!s.client.Connected? ==> s.clientTunnel == [])
    && (!s.server.Serving? ==> s.serverTunnel == [])
    && match s.client
       case Greet => s == Start()
       case AwaitMethod =>
         && |s.clientGot| < 2
         && (|| (InsideGreeting(s.server, s.serverGot, s.c2s) && s.clientGot == [] && s.s2c == [])
             || (s.server.AwaitRequest? && s.serverGot == [] && s.c2s == [] && s.clientGot + s.s2c == [VERSION5, AUTH_NONE]))
       case Ask => s.server.AwaitRequest? && s.serverGot == s.c2s == s.s2c == s.clientGot == []
       case AwaitHeader =>
         && |s.clientGot| < 4
         && (|| (InsideRequest(s.server, s.serverGot, s.c2s, request) && s.clientGot == [] && s.s2c == [])
             || (s.server == Answer(request) && s.serverGot == s.c2s == s.s2c == s.clientGot == [])
             || (s.server == Serving(request) && s.serverGot == s.c2s == []
                 && s.clientGot + s.s2c == Reply(REPLY_SUCCEEDED) + s.serverTunnel))
       case AwaitBound(n) =>
         && n == 6 && |s.clientGot| < 6
         && s.server == Serving(request) && s.serverGot == s.c2s == []
         && s.clientGot + s.s2c == Reply(REPLY_SUCCEEDED)[4..] + s.serverTunnel
       case Connected =>
         && s.server == Serving(request) && s.serverGot == [] && s.clientGot == []
         && s.c2s == s.clientTunnel && s.s2c == s.serverTunnel
       case _ => false
  }

  // ---- Every step keeps it

  lemma TakeAll(got: seq<byte>, stream: seq<byte>, k: nat, whole: seq<byte>)
    requires k <= |stream| && got + stream == whole
    ensures got + stream[..k] + stream[k..] == whole
    ensures got + stream[..k] == whole[..|got| + k] && stream[k..] == whole[|got| + k..]
  {
    assert stream == stream[..k] + stream[k..];
  }

  /** After a read of k octets the server stands `next` with `got`, and `ahead` is still to come. */
  lemma GreetingRead(pc: ServerPc, got: seq<byte>, ahead: seq<byte>, k: nat)
    requires InsideGreeting(pc, got, ahead) && ReadEnabled(ServerWants(pc), got, ahead, k)
    ensures var more := got + ahead[..k];
            if ServerWants(pc) == Some(|more|) then InsideGreeting(ServerNext(pc, more), [], ahead[k..])
            else InsideGreeting(pc, more, ahead[k..])
  {
    var more := got + ahead[..k];
    if pc.AwaitGreeting? {
      var wire: seq<byte> := [VERSION5, 1, AUTH_NONE];
      TakeAll(got, ahead, k, wire);
      assert |more| == 2 ==> more[0] == wire[0] && more[1] == wire[1] && ahead[k..] == [AUTH_NONE];
    } else {
      assert more == [AUTH_NONE] && ahead[k..] == [];
    }
  }

  lemma RequestRead(pc: ServerPc, got: seq<byte>, ahead: seq<byte>, k: nat, request: Request)
    requires Valid(request) && InsideRequest(pc, got, ahead, request) && ReadEnabled(ServerWants(pc), got, ahead, k)
    ensures var more := got + ahead[..k];
            if ServerWants(pc) != Some(|more|) then InsideRequest(pc, more, ahead[k..], request)
            else
              var next := ServerNext(pc, more);
              InsideRequest(next, [], ahead[k..], request) || (next == Answer(request) && ahead[k..] == [])
  {
    var more := got + ahead[..k];
    TakeAll(Consumed(pc, got), ahead, k, Encode(request, 0));
    ConsumedGrows(pc, got, ahead[..k]);
    if ServerWants(pc) == Some(|more|) {
      if pc.AwaitPort? {
        PortRead(pc, more, ahead[k..], request);
      } else {
        PartRead(pc, more, ahead[k..], request);
      }
    }
  }

  lemma ConsumedGrows(pc: ServerPc, got: seq<byte>, more: seq<byte>)
    requires ReadsRequest(pc)
    ensures Consumed(pc, got + more) == Consumed(pc, got) + more
  {
  }

  lemma PartRead(pc: ServerPc, got: seq<byte>, rest: seq<byte>, request: Request)
    requires Valid(request) && ReadsRequest(pc) && !pc.AwaitPort? && ServerWants(pc) == Some(|got|)
    requires pc.AwaitAddress? ==> pc.atyp == ATYP_IPV4 || pc.atyp == ATYP_IPV6
    requires Consumed(pc, got) + rest == Encode(request, 0)
    ensures InsideRequest(ServerNext(pc, got), [], rest, request)
  {
    if pc.AwaitRequest? {
      HeaderPart(got, rest, request);
    } else if pc.AwaitAddress? {
      AddressPart(pc, got, rest, request);
    } else {
      DomainPart(pc, got, rest, request);
    }
  }

  lemma AddressPart(pc: ServerPc, got: seq<byte>, rest: seq<byte>, request: Request)
    requires Valid(request) && pc.AwaitAddress? && (pc.atyp == ATYP_IPV4 || pc.atyp == ATYP_IPV6)
    requires ServerWants(pc) == Some(|got|) && Consumed(pc, got) + rest == Encode(request, 0)
    ensures InsideRequest(ServerNext(pc, got), [], rest, request)
  {
    assert Consumed(ServerNext(pc, got), []) == Consumed(pc, got);
  }

  lemma DomainPart(pc: ServerPc, got: seq<byte>, rest: seq<byte>, request: Request)
    requires Valid(request) && (pc.AwaitDomainLen? || pc.AwaitDomain?)
    requires ServerWants(pc) == Some(|got|) && Consumed(pc, got) + rest == Encode(request, 0)
    ensures InsideRequest(ServerNext(pc, got), [], rest, request)
  {
    assert Consumed(ServerNext(pc, got), []) == Consumed(pc, got);
  }

  lemma HeaderPart(got: seq<byte>, rest: seq<byte>, request: Request)
    requires Valid(request) && |got| == 4 && got + rest == Encode(request, 0)
    ensures InsideRequest(ServerNext(AwaitRequest, got), [], rest, request)
  {
    var wire := Encode(request, 0);
    assert got == wire[..4] == [VERSION5, CMD_CONNECT, 0, request.atyp];
    assert Consumed(ServerNext(AwaitRequest, got), []) == got;
  }

  /** The last two octets complete the very request that was sent. */
  lemma PortRead(pc: ServerPc, got: seq<byte>, rest: seq<byte>, request: Request)
    requires Valid(request) && pc.AwaitPort? && |got| == 2 && |pc.addr| < 256
    requires Valid(Request(pc.atyp, pc.addr, 0)) && Consumed(pc, got) + rest == Encode(request, 0)
    ensures ServerNext(pc, got) == Answer(request) && rest == []
  {
    var read := Request(pc.atyp, pc.addr, 256 * (got[0] as int) + got[1]);
    assert PortField(read.port) == got;
    var wire := Encode(request, 0);
    assert wire[2] == pc.reserved;
    assert Encode(read, 0) + rest == wire;
    assert wire + [] == wire;
    DecodeOfEncode(read, 0, rest);
    DecodeOfEncode(request, 0, []);
  }

  lemma ServerReadInv(s: State, k: nat, request: Request)
    requires Valid(request) && Inv(s, request) && Enabled(s, ServerRead(k))
    ensures Inv(Apply(s, ServerRead(k), request), request)
  {
    if s.client.AwaitMethod? {
      GreetingRead(s.server, s.serverGot, s.c2s, k);
    } else if s.client.AwaitHeader? {
      RequestRead(s.server, s.serverGot, s.c2s, k, request);
    }
  }

  lemma MethodReadInv(s: State, k: nat, request: Request)
    requires Valid(request) && Inv(s, request) && Enabled(s, ClientRead(k)) && s.client.AwaitMethod?
    ensures Inv(Apply(s, ClientRead(k), request), request)
  {
    TakeAll(s.clientGot, s.s2c, k, [VERSION5, AUTH_NONE]);
  }

  lemma HeaderRead(got: seq<byte>, ahead: seq<byte>, k: nat, tunnel: seq<byte>)
    requires k <= |ahead| && |got| + k <= 4 && got + ahead == Reply(REPLY_SUCCEEDED) + tunnel
    ensures var more := got + ahead[..k];
            if |more| == 4 then
              ClientNext(AwaitHeader, more) == AwaitBound(6) && ahead[k..] == Reply(REPLY_SUCCEEDED)[4..] + tunnel
            else more + ahead[k..] == Reply(REPLY_SUCCEEDED) + tunnel
  {
    var reply := Reply(REPLY_SUCCEEDED);
    TakeAll(got, ahead, k, reply + tunnel);
    assert (reply + tunnel)[..4] == reply[..4];
    assert (reply + tunnel)[4..] == reply[4..] + tunnel;
  }

  lemma HeaderReadInv(s: State, k: nat, request: Request)
    requires Valid(request) && Inv(s, request) && Enabled(s, ClientRead(k)) && s.client.AwaitHeader?
    ensures Inv(Apply(s, ClientRead(k), request), request)
  {
    HeaderRead(s.clientGot, s.s2c, k, s.serverTunnel);
  }

  lemma BoundReadInv(s: State, k: nat, request: Request)
    requires Valid(request) && Inv(s, request) && Enabled(s, ClientRead(k)) && s.client.AwaitBound?
    ensures Inv(Apply(s, ClientRead(k), request), request)
  {
    var whole := Reply(REPLY_SUCCEEDED)[4..] + s.serverTunnel;
    TakeAll(s.clientGot, s.s2c, k, whole);
    assert whole[6..] == s.serverTunnel;
  }

  lemma ClientReadInv(s: State, k: nat, request: Request)
    requires Valid(request) && Inv(s, request) && Enabled(s, ClientRead(k))
    ensures Inv(Apply(s, ClientRead(k), request), request)
  {
    match s.client
    case AwaitMethod => MethodReadInv(s, k, request);
    case AwaitHeader => HeaderReadInv(s, k, request);
    case _ => BoundReadInv(s, k, request);
  }

  lemma RequestBegins(request: Request)
    requires Valid(request)
    ensures InsideRequest(AwaitRequest, [], Encode(request, 0), request)
  {
    assert [] + Encode(request, 0) == Encode(request, 0);
  }

  lemma ClientWriteInv(s: State, request: Request)
    requires Valid(request) && Inv(s, request) && Enabled(s, ClientWrite)
    ensures Inv(Apply(s, ClientWrite, request), request)
  {
    if s.client.Ask? {
      RequestBegins(request);
      assert s.c2s + Encode(request, 0) == Encode(request, 0);
    }
  }

  lemma ServerWriteInv(s: State, request: Request)
    requires Valid(request) && Inv(s, request) && Enabled(s, ServerWrite)
    ensures Inv(Apply(s, ServerWrite, request), request)
  {
    if s.server.Answer? {
      assert s.clientGot + (s.s2c + Reply(REPLY_SUCCEEDED)) == Reply(REPLY_SUCCEEDED) + s.serverTunnel;
    }
  }

  lemma TunnelInv(s: State, step: Step, request: Request)
    requires Valid(request) && Inv(s, request) && Enabled(s, step) && (step.ClientTunnel? || step.ServerTunnel?)
    ensures Inv(Apply(s, step, request), request)
  {
    if step.ServerTunnel? {
      var t, d := s.serverTunnel, step.data;
      assert s.clientGot + (s.s2c + d) == (s.clientGot + s.s2c) + d;
      assert Reply(REPLY_SUCCEEDED) + (t + d) == (Reply(REPLY_SUCCEEDED) + t) + d;
      assert Reply(REPLY_SUCCEEDED)[4..] + (t + d) == (Reply(REPLY_SUCCEEDED)[4..] + t) + d;
    }
  }

  lemma StepInv(s: State, step: Step, request: Request)
    requires Valid(request) && Inv(s, request) && Enabled(s, step)
    ensures Inv(Apply(s, step, request), request)
  {
    match step
    case ClientRead(k) => ClientReadInv(s, k, request);
    case ServerRead(k) => ServerReadInv(s, k, request);
    case ClientWrite => ClientWriteInv(s, request);
    case ServerWrite => ServerWriteInv(s, request);
    case _ => TunnelInv(s, step, request);
  }

  lemma {:induction false} RunInv(s: State, steps: seq<Step>, request: Request)
    requires Valid(request) && Inv(s, request) && Run(s, steps, request).Some?
    ensures Inv(Run(s, steps, request).value, request)
    decreases |steps|
  {
    if steps != [] {
      StepInv(s, steps[0], request);
      RunInv(Apply(s, steps[0], request), steps[1..], request);
    }
  }

  // ---- Progress

  predicate Done(s: State) {
    s.client.Connected? && s.server.Serving?
  }

  predicate HandshakeStep(step: Step) {
    !step.ClientTunnel? && !step.ServerTunnel?
  }

  function ClientRank(pc: ClientPc): nat {
    match pc
    case Greet => 6
    case AwaitMethod => 5
    case Ask => 4
    case AwaitHeader => 3
    case AwaitBoundLen => 2
    case AwaitBound(_) => 1
    case _ => 0
  }

  function ServerRank(pc: ServerPc): nat {
    match pc
    case AwaitGreeting => 8
    case AwaitMethods(_) => 7
    case Choose(_) => 6
    case AwaitRequest => 5
    case AwaitAddress(_, _) => 3
    case AwaitDomainLen(_) => 4
    case AwaitDomain(_, _) => 3
    case AwaitPort(_, _, _) => 2
    case Answer(_) => 1
    case _ => 0
  }

  /** How much handshake is left: program points first, octets still wanted second. */
  function Left(s: State): int {
    1000 * (ClientRank(s.client) + ServerRank(s.server)) - |s.clientGot| - |s.serverGot|
  }

  lemma GotIsShort(s: State, request: Request)
    requires Valid(request) && Inv(s, request)
    ensures |s.clientGot| < 256 && |s.serverGot| < 256
    ensures s.client.Connected? || s.client.Greet? || s.client.Ask? ==> s.clientGot == []
    ensures ServerWants(s.server) == None ==> s.serverGot == []
    ensures 0 <= Left(s)
  {
  }

  lemma ServerReadShrinks(s: State, k: nat, request: Request)
    requires Valid(request) && |s.serverGot| < 256 && Enabled(s, ServerRead(k))
    ensures Left(Apply(s, ServerRead(k), request)) < Left(s)
  {
  }

  lemma ClientReadShrinks(s: State, k: nat, request: Request)
    requires Valid(request) && |s.clientGot| < 256 && Enabled(s, ClientRead(k))
    ensures Left(Apply(s, ClientRead(k), request)) < Left(s)
  {
  }

  lemma StepShrinks(s: State, step: Step, request: Request)
    requires Valid(request) && Inv(s, request) && Enabled(s, step)
    ensures if HandshakeStep(step) then Left(Apply(s, step, request)) < Left(s) else Left(Apply(s, step, request)) == Left(s)
  {
    GotIsShort(s, request);
    match step
    case ClientRead(k) => ClientReadShrinks(s, k, request);
    case ServerRead(k) => ServerReadShrinks(s, k, request);
    case _ =>
  }

  function HandshakeSteps(steps: seq<Step>): nat {
    if steps == [] then 0 else (if HandshakeStep(steps[0]) then 1 else 0) + HandshakeSteps(steps[1..])
  }

  lemma {:induction false} RunIsBounded(s: State, steps: seq<Step>, request: Request)
    requires Valid(request) && Inv(s, request) && Run(s, steps, request).Some?
    ensures HandshakeSteps(steps) + Left(Run(s, steps, request).value) <= Left(s)
    decreases |steps|
  {
    if steps != [] {
      StepInv(s, steps[0], request);
      StepShrinks(s, steps[0], request);
      RunIsBounded(Apply(s, steps[0], request), steps[1..], request);
    }
  }

  /** Inside the request the server can always read on. */
  lemma RequestReadable(pc: ServerPc, got: seq<byte>, ahead: seq<byte>, request: Request)
    requires Valid(request) && InsideRequest(pc, got, ahead, request)
    ensures ReadEnabled(ServerWants(pc), got, ahead, if ServerWants(pc) == Some(|got|) then 0 else 1)
  {
    var wire := Encode(request, 0);
    assert Consumed(pc, got) + ahead == wire;
    assert wire[3] == request.atyp;
    assert request.atyp == ATYP_DOMAIN ==> wire[4] == |request.addr|;
  }

  lemma SomeStepEnabled(s: State, request: Request)
    requires Valid(request) && Inv(s, request) && !Done(s)
    ensures exists step :: HandshakeStep(step) && Enabled(s, step)
  {
    if s.client.Greet? || s.client.Ask? {
      assert Enabled(s, ClientWrite);
    } else if s.server.Choose? || s.server.Answer? {
      assert Enabled(s, ServerWrite);
    } else if s.client.AwaitHeader? && InsideRequest(s.server, s.serverGot, s.c2s, request) {
      RequestReadable(s.server, s.serverGot, s.c2s, request);
      assert Enabled(s, ServerRead(if ServerWants(s.server) == Some(|s.serverGot|) then 0 else 1));
    } else if s.client.AwaitMethod? && InsideGreeting(s.server, s.serverGot, s.c2s) {
      assert Enabled(s, ServerRead(1));
    } else {
      assert Enabled(s, ClientRead(1));
    }
  }

  /**
   For every request and every segmentation, a run of the two ends never fails and never
   deadlocks: it takes at most 14000 handshake steps, and while it is unfinished another one can be
   taken. When it is finished the server has recovered exactly the client's request, and each stream
   holds exactly the other side's tunnel octets, so both ends stand at the first of them.
   */
  lemma HandshakeCompletes(steps: seq<Step>, request: Request)
    requires Valid(request) && Run(Start(), steps, request).Some?
    ensures var s := Run(Start(), steps, request).value;
            && !s.client.ClientFailed? && !s.server.ServerFailed?
            && HandshakeSteps(steps) <= 14000
            && (!Done(s) ==> exists step :: HandshakeStep(step) && Enabled(s, step))
            && (s.server.Serving? ==> s.server.request == request)
            && (s.client.Connected? ==> Done(s) && s.c2s == s.clientTunnel && s.s2c == s.serverTunnel)
  {
    var s := Run(Start(), steps, request).value;
    RunInv(Start(), steps, request);
    RunIsBounded(Start(), steps, request);
    GotIsShort(s, request);
    if !Done(s) {
      SomeStepEnabled(s, request);
    }
  }

  /**
   Two chained instances agree on the destination: for every host that is not an IP literal, has at
   most 255 octets and no square bracket, and every 16-bit port, the server ends up serving exactly
   that host and port.
   */
  lemma ChainedInstancesAgree(ip: IpText, host: string, port: nat, steps: seq<Step>)
    requires Lawful(ip) && ip.parse(host) == None && Octets(host) && |host| <= 255 && NoBrackets(host) && port < 65536
    ensures var target := JoinHostPort(host, Itoa(port));
            && ClientRequest(ip, target).Ok?
            && var request := ClientRequest(ip, target).value;
               && Valid(request)
               && (Run(Start(), steps, request).Some? && Run(Start(), steps, request).value.server.Serving? ==>
                     var served := Run(Start(), steps, request).value.server.request;
                     HostText(ip, served) == host && served.port == port && TargetText(ip, served) == target)
  {
    ServerRecoversTarget(ip, host, port, []);
    var request := ClientRequest(ip, JoinHostPort(host, Itoa(port))).value;
    if Run(Start(), steps, request).Some? {
      HandshakeCompletes(steps, request);
      DecodeOfEncode(request, 0, []);
    }
  }
}
