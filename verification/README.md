# gopr in Dafny

gopr relays TCP and UDP traffic and runs an HTTP or SOCKS5 proxy, alone or chained to an upstream
proxy. This project models the parts of it whose correctness is not visible in any single function
and proves what they guarantee over every input, every segmentation and every interleaving.

| modules | part of gopr |
|---|---|
| `UdpTable`, `UdpRelay`, `UdpProofs`, `UdpTheorems` | the UDP session table shared by the receive loop, one reply relay per session and the reaper, as a transition system; the lock-held sections also as a class |
| `HostPort`, `SocksWire`, `SocksConn`, `SocksChaining`, `SocksSession` | both ends of SOCKS5: messages, the program's reads and writes on a connection, chaining, and the two ends run against each other over FIFO streams |
| `Options`, `OptionsProofs`, `OptionsAccepted`, `Endpoint`, `Config` | the command line: scoped options, endpoint suffixes, address normalisation, cross-field validation |
| `Pump`, `Pipe` | the copy loop and the two concurrent directions of a relayed connection |
| `Digest`, `DigestProofs`, `DigestReading`, `Connect` | Digest authentication (RFC 2617) and the two-attempt CONNECT through an upstream HTTP proxy |

Verify everything with `dafny verify dfyconfig.toml`.

## How the code is modelled

- **UDP.** A step is one lock-held section, or one socket operation or counter update outside the
  lock; the reaper's scan holds the mutex over several steps. Session pointers are indices into the
  list of all sessions ever allocated. Each loop has its own reused buffer. `Log` records what crossed
  the sockets and no guard reads it. Times are nanoseconds.
- **Connections.** Reads return arbitrary segments; SOCKS writes fail after an arbitrary number of
  successes, and the copy loop's writes may be short or fail at any point. A relayed connection is two
  goroutines that take one turn of the copy loop at a time and share a WaitGroup. Go strings are sequences of characters, one per octet.
- **Given functions.** `ParseIP` and `IP.String` come as a pair with the law that a printed address
  parses back and that address text has no square bracket. MD5 in hexadecimal is a function with
  plain output; the client nonce or the failure to draw one, dial outcomes, the clock and whether a
  certificate file embeds a key are parameters.

## What turned out not to hold, and exactly when it does

- A reply that cannot be sent to the client ends the relay goroutine without removing the session
  (internal/relay/udp.go:143-145), and such runs exist (`StrandingHappens`). A tabled session has a
  running relay if and only if no client write of that relay has failed (`SocketOwnership`);
  afterwards the client's datagrams still flow into the session and no reply ever comes back until
  two idle minutes pass (`FailedClientWriteStrandsSession`, `StrandedUntilIdle`).
- SOCKS chaining keeps the destination if and only if the requested domain has no square bracket
  (`ChainingIsTransparent`); the domain `[h]` is forwarded as `h` (`BracketedDomainForwarded`). The
  address type is kept if and only if the address is no mapped IPv4 one and the domain no IP literal
  (`ReencodesExactly`).
- A server can recompute the Digest response from the header if and only if qop is `auth` or the
  algorithm is not MD5-sess (`ServerCanVerify`): otherwise the header lacks the client nonce, and the
  response is no function of the rest of the header (`UnverifiableWithoutClientNonce`).
- README.md:191-192 says that `-M` with an active UDP/SSL listener is an error. It is not:
  `-M -signca=ca.pem -servername=example.org host:1 2/UDP/SSL` is accepted (`MitmOverDtlsInstance`).
  A well-formed line of this kind is accepted if and only if the `-M` block names a server and a
  signing CA, there is no `-Z` or `-F`, and `-Q` fits the target (`MitmOverDtls`).

## Model

| member | source | states |
|---|---|---|
| UdpTable.SessionTable.Route | internal/relay/udp.go:82-97 | finds the client's session or dials one, touches it, and leaves the table unchanged exactly when the client is unknown and the dial fails |
| UdpTable.SessionTable.Remove | internal/relay/udp.go:120-124 | exactly the exiting relay's own session leaves the table if it still is there; every other entry stays, a replacement for the same client included |
| UdpTable.SessionTable.Reap | internal/relay/udp.go:157-166 | whatever order the map is visited in, exactly the sessions idle for more than two minutes are closed and deleted |
| UdpTable.ReapExtends | internal/relay/udp.go:159-165 | one visit of the scan extends its order-free effect by exactly that key |
| UdpProofs.MainInv | internal/relay/udp.go:66-109 | every step of the receive loop keeps all invariants: ownership, locals against the reused buffer, write order, counters; that it drops nothing is EveryDatagramAccountedFor |
| UdpProofs.RelayInv | internal/relay/udp.go:115-147 | every step of a reply relay keeps all invariants, the unlocked gap before its close included |
| UdpProofs.VisitInv | internal/relay/udp.go:159-165 | closing and deleting an idle session in mid-scan keeps all invariants |
| UdpProofs.RunInv | internal/relay/udp.go:66-169 | every run of any interleaving stays within the invariants |
| UdpTheorems.SocketOwnership | internal/relay/udp.go:82-169 | in every reachable state an open target socket is tabled under the key it was dialed for or its relay is about to close it; no tabled socket is closed; exactly one relay per session, and a tabled session's relay is running if and only if the run has no failed client write of that relay |
| UdpTheorems.AbandonedExactly | internal/relay/udp.go:143-145 | a relay has left without cleaning up if and only if one of its client writes failed in the run |
| UdpTheorems.OnlySocketsAndMutexBlock | internal/relay/udp.go:66-169 | in every reachable state a step waits only for its thread's program point, the mutex or a socket; the model's index and length guards hold nothing up |
| UdpTheorems.RemovedForGood | internal/relay/udp.go:82-169 | a session removed from the table never returns and a closed socket never reopens, over every continuation |
| UdpTheorems.LateExitKeepsReplacement | internal/relay/udp.go:118-125 | no step of a relay touches another session's entry; the late exit of a reaped session's relay leaves its replacement in place |
| UdpTheorems.NoCrossTraffic | internal/relay/udp.go:66-108 | replies go only to the client the socket was dialed for, complete and in order save possibly the last; each client datagram is written unmodified, at most once, in arrival order, only to sockets dialed for its sender |
| UdpTheorems.EveryDatagramAccountedFor | internal/relay/udp.go:66-108 | over every run, the arrivals are exactly the writes, the failed target writes, the failed dials for clients without a session, and at most one datagram in hand |
| UdpTheorems.RoutesToTabled | internal/relay/udp.go:82-97 | a datagram goes to the open session tabled for its sender now, to a new one if there is none, or nowhere if that dial fails |
| UdpTheorems.Accounting | internal/relay/udp.go:104-146 | `sent` and `recv` are exact at every moment; `recv` exceeds the delivered bytes by exactly the reply in flight or finally lost |
| UdpTheorems.RemovalsAreJustified | internal/relay/udp.go:119-165 | an entry leaves only through its own relay's read error or after more than two idle minutes |
| UdpTheorems.LastIsLatestTraffic | internal/relay/udp.go:91-142 | over every run, `last` is the time of the latest step that was traffic of the session in either direction, the dial being the first |
| UdpTheorems.IdleSessionsGoWithinThreeMinutes | internal/relay/udp.go:149-167 | with ticks every 60 s, a tabled session was touched within the last 180 s, and within 120 s before the latest scan |
| UdpTheorems.FailedClientWriteStrandsSession | internal/relay/udp.go:143-145 | after a failed client write the session stays tabled with an open socket nobody reads, and no continuation sends its client another reply |
| UdpTheorems.StrandingHappens | internal/relay/udp.go:118-145 | for every client, datagram and reply there is a run that ends with such a session |
| UdpTheorems.StrandedUntilIdle | internal/relay/udp.go:143-167 | such a session ends only after two idle minutes and is fed by its client until then |
| HostPort.SplitOfJoin | internal/proxy/socks.go:307-311 | splitting undoes joining a host and port if and only if the host has no square bracket |
| HostPort.SplitExactly | internal/proxy/socks.go:307-311 | an address splits if and only if it is written host:port or [host]:port without other brackets or colons, and then into those parts |
| HostPort.RelaySplitOfJoin | internal/relay/relay.go:72-79 | the relay's last-colon/trim splitter recovers host and port of a joined address |
| HostPort.AtoiOfItoa | internal/proxy/socks.go:312-316 | reading a printed port gives it back |
| HostPort.AtoiExactly | internal/proxy/socks.go:312-316 | exactly the decimal numerals with optional sign that fit 64 bits are read, to their value |
| SocksWire.DecodeOfEncode | internal/proxy/socks.go:162-211 | the server decodes every request to itself and stops exactly behind it |
| SocksWire.EncodeOfDecode | internal/proxy/socks.go:162-211 | whatever the server accepts is the encoding of its result followed by the rest |
| SocksWire.DecodeErrors | internal/proxy/socks.go:162-198 | which input is refused for its version, its command or its address type, by the octets; all else that fails is cut short |
| SocksWire.RequestOnTheWire | internal/proxy/socks.go:317-335 | the octets of a request for each address type |
| SocksWire.ClientRequestOfJoin | internal/proxy/socks.go:307-335 | a bracket-free host and a 16-bit port become the request for that destination, without error exits; the address form is AddressFormOnWire |
| SocksWire.AddressFormOnWire | internal/proxy/socks.go:319-325 | an IPv4 address, mapped or not, goes out as ATYP 1 with its 4 octets, any other address as ATYP 4 with its 16 |
| SocksConn.Conn.ReadFull | internal/proxy/socks.go:141-144 | a full read does not depend on segmentation |
| SocksConn.Handshake | internal/proxy/socks.go:140-160 | accepts exactly a complete version-5 greeting offering no authentication, consumes exactly it and answers accordingly |
| SocksConn.GreetingExactly | internal/proxy/socks.go:140-156 | a greeting is version 5, a count and that many methods, read whole; it offers no authentication exactly if method 0 is among them |
| SocksConn.MessagesOnTheWire | internal/proxy/socks.go:213-291 | the fixed messages of both ends octet by octet |
| SocksConn.ReadRequest | internal/proxy/socks.go:162-211 | consumes exactly one request and returns its target text; refusals are sent only for bad commands and address types |
| SocksConn.DialUpstream | internal/proxy/socks.go:256-381 | each failing exit closes the socket itself, so it is returned open exactly when the exchange succeeded and is closed on every other path; on success it stands at the first tunnel octet and exactly the protocol's octets were written |
| SocksConn.Negotiate | internal/proxy/socks.go:264-305 | the method and username/password phases succeed exactly on the right replies, fitting credentials and successful writes, and close the socket otherwise |
| SocksConn.SendRequest | internal/proxy/socks.go:307-339 | the request for the target is written whole, or the socket is closed: bad target, bad port, host too long, failed write |
| SocksConn.AwaitConnected | internal/proxy/socks.go:341-380 | the CONNECT reply is consumed through BND.PORT for all three address types; the socket is closed on every failure |
| SocksConn.ConsumesExactlyTheExchange | internal/proxy/socks.go:272-380 | the client succeeds if and only if the stream begins with a complete exchange, and consumes exactly that |
| SocksConn.ProperPrefixFails | internal/proxy/socks.go:272-380 | any proper prefix of an exchange yields an error |
| SocksConn.UserPassReadsBack | internal/proxy/socks.go:287-291 | a reader following section 2 of RFC 1929 recovers user and password from the request |
| SocksConn.ServerReplyIsConnectReply | internal/proxy/socks.go:213-219 | the server's reply is a complete CONNECT reply exactly when its code is success |
| SocksChaining.ChainingIsTransparent | internal/proxy/socks.go:162-211 | for every accepted request, decode, join, split and re-encode reach the same destination and port if and only if the domain has no square bracket |
| SocksChaining.ReencodesExactly | internal/proxy/socks.go:162-335 | the upstream gets the client's very request, address type included, if and only if it is no mapped IPv4 address and its domain neither an IP literal nor bracketed |
| SocksChaining.BracketedDomainForwarded | internal/proxy/socks.go:307-331 | the domain [h] is forwarded as h |
| SocksChaining.ServerRecoversTarget | internal/proxy/socks.go:307-335 | the server recovers the host, port and target text the client side was given, and what follows the request |
| SocksSession.StepInv | internal/proxy/socks.go:140-219 | every read, write or tunnel step of either end keeps the two program counters and the octets in transit in agreement |
| SocksSession.ServerIsHandshakeAndReadRequest | internal/proxy/socks.go:140-211 | on every stream and segmentation the server's step machine gets to exactly the request and remainder that the handshake and request readers accept |
| SocksSession.ClientIsNegotiateAndAwaitConnected | internal/proxy/socks.go:264-380 | on every stream and segmentation the client's step machine connects exactly when the replies are a complete exchange, leaving the same remainder |
| SocksSession.HandshakeCompletes | internal/proxy/socks.go:256-381 | for every request and segmentation the two ends never fail or deadlock, take boundedly many steps, agree on the request, and stop aligned at the first tunnel octet in both directions |
| SocksSession.ChainedInstancesAgree | internal/proxy/socks.go:256-381 | two chained instances end up serving exactly the host and port asked for, for every non-IP, bracket-free host of at most 255 octets |
| Options.ExtractOptions | internal/config/parse.go:365-508 | the scanning loop computes the scoped option semantics, whose acceptance is AcceptedExactly and whose values are LineReads |
| OptionsAccepted.AcceptedExactly | internal/config/parse.go:365-508 | a line is accepted if and only if only flags precede the blocks, no kind of block occurs twice and every block fits |
| OptionsAccepted.ClassifyExactly | internal/config/parse.go:373-505 | flags, opening tokens, sub-options and positional arguments are told apart by their text |
| OptionsAccepted.SslAccepted | internal/config/parse.go:408-466 | a -Q or -Z block is accepted if and only if it holds only flags and its own sub-options, -key=, -cert= and -ca= not again after a value |
| OptionsAccepted.MitmAccepted | internal/config/parse.go:440-488 | the same for -M with -signca=, -servername= and -ca= |
| OptionsAccepted.ForwardAccepted | internal/config/parse.go:489-502 | a -F block is accepted if and only if it holds only flags and at most one -user=, with a non-empty user before a colon |
| OptionsProofs.InsertGlobal | internal/config/parse.go:351-383 | inserting a global flag anywhere among the options keeps the error, or the blocks and the remainder, and adds just that flag |
| OptionsProofs.RemainderAndLevel | internal/config/parse.go:328-383 | the remainder starts at the first non-option and the log level is the highest given |
| OptionsProofs.BlockOrderIrrelevant | internal/config/parse.go:384-505 | permuting whole -Q/-Z/-M/-F blocks preserves acceptance, every field and the remainder |
| OptionsProofs.EveryLineHasBlocks | internal/config/parse.go:371-507 | every command line is a preamble, blocks and a positional tail, so the permutation theorem covers all |
| OptionsProofs.SslBlockReads | internal/config/parse.go:408-472 | within a -Q or -Z block each setting is the value of its own token |
| OptionsProofs.MitmBlockReads | internal/config/parse.go:440-488 | the same within -M |
| OptionsProofs.LineReads | internal/config/parse.go:365-508 | on every accepted command line each -Q, -Z, -M and -F setting is what that block's own tokens say, or its default; nothing leaks between blocks |
| OptionsProofs.FlagsAre | internal/config/parse.go:374-379 | -help, -version and -v take effect exactly when they stand among the option tokens |
| OptionsProofs.UserSplits | internal/config/parse.go:489-502 | -user= is accepted exactly once with a non-empty user before the first colon, losing nothing |
| OptionsProofs.ExtractTidy | internal/config/parse.go:365-508 | a block that was not opened has no settings |
| Endpoint.NormalFormIsFixed | internal/config/parse.go:682-737 | a normalised address is a fixed point under both flags, has a host and a port in 1..65535, and both splitters agree on it |
| Endpoint.NormalizesExactly | internal/config/parse.go:682-737 | which tokens normalise and to what: a bare listen port to 0.0.0.0 and that port, a written host and port to themselves, an empty listen host to 0.0.0.0 |
| Endpoint.ParseEndpointLoop | internal/config/parse.go:624-674 | the suffix loop with `last` and `seen` computes the endpoint semantics |
| Endpoint.SeenIsRedundant | internal/config/parse.go:655-661 | the `seen` check never changes which suffix lists are accepted nor their flags |
| Endpoint.PrintedEndpointParses | internal/config/parse.go:624-674 | an address with any allowed, case-consistent suffix list parses back to exactly those flags |
| Endpoint.ParsedEndpointPrints | internal/config/parse.go:624-674 | whatever parses is an address followed by a strictly increasing, case-consistent suffix list, SSL only on a target |
| Config.ForwardConfigIsReady | internal/config/parse.go:164-281 | forward configurations agree on TCP/UDP with one set, have listen SSL exactly with one of static certificate and signing CA, client TLS settings only with target SSL, and a server name whenever a signing CA meets UDP |
| Config.ForwardConfigReadsTokens | internal/config/parse.go:224-280 | every field of a forward configuration read off the line: endpoints from the two positional tokens, TLS settings from the tokens of each block, verbosity and log level from the flags |
| Config.SslRules | internal/config/parse.go:745-795 | the TLS rules accept if and only if -Q fits the target and the listener has exactly one complete server block when it needs one |
| Config.KeyCertExactly | internal/config/parse.go:781-795 | a key needs its certificate; a certificate without a key is accepted if and only if its file holds one |
| Config.ForwardLineAccepted | internal/config/parse.go:164-281 | a line with two valid endpoints is accepted if and only if its options fit, it has no -F, and its blocks serve what the endpoints' /SSL asks for, judged by their tokens |
| Config.MitmOverDtls | internal/config/parse.go:758-763 | -M with an active UDP/SSL listener is accepted if and only if the block names server and signing CA, there is no -Z or -F, and -Q fits the target |
| Config.MitmOverDtlsAccepted | internal/config/parse.go:758-763 | for every signing CA, server name, target and UDP/SSL listener there is such an accepted line, with that configuration |
| Config.MitmOverDtlsInstance | internal/config/parse.go:758-763 | one such line written out |
| Config.DtlsNameIsThere | internal/relay/relay.go:103-113 | the DTLS listener mints with the configured signing CA and a non-empty name, or else loads a non-empty certificate path; the empty-name error is unreachable |
| Config.ProxyConfigIsReady | internal/config/parse.go:182-219 | proxy configurations listen on plain TCP, have normalised addresses and carry credentials only for an upstream |
| Config.ProxyTokensSelect | internal/config/parse.go:182-219 | proxy lines, bare or chained, with or without a listen suffix: accepted if and only if the options fit, without TLS blocks, -F only with -user= and an upstream; then every field is read off the tokens |
| Config.ProxyConfigReadsTokens | internal/config/parse.go:546-609 | every proxy configuration comes from such a line |
| Config.InfoAndCount | internal/config/parse.go:169-178 | -help, then -version, decides everything; otherwise exactly two positional arguments are needed |
| Config.BlockOrderKeepsConfig | internal/config/parse.go:164-281 | the order of option blocks does not affect the configuration |
| Config.SplitArgGroups | internal/config/parse.go:150-161 | the groups are separator-free and rejoin to the argument list |
| Config.SplitIsUnique | internal/config/parse.go:150-161 | a separator-free grouping is determined by its line |
| Config.ParseAll | internal/config/parse.go:119-146 | all or nothing over the one grouping of the line: one parsed configuration per group in order, or exactly the offending groups; a line without separator gets its own outcome; every forward configuration is ready for the relay |
| Pump.Copy | internal/logx/logx.go:127-160 | with and without instrumentation the copy delivers, counts and returns the same, turn by turn |
| Pump.PlainCopy | internal/logx/logx.go:128-130 | io.Copy's loop meets the same specification |
| Pump.CopyTurn | internal/logx/logx.go:138-159 | one turn: write result before read error, data together with an error delivered |
| Pump.CopyIsFaithful | internal/logx/logx.go:127-160 | a copy delivers a prefix of the source; it reports nil if and only if the source ended regularly and every write was complete, and then everything was delivered |
| Pump.CopyExactly | internal/logx/logx.go:127-160 | what is delivered and returned on every path, errors included, from the reads and the writes looked at separately |
| Pipe.PipeIsFaithful | internal/relay/tcp.go:104-123 | in every interleaving each side receives exactly what Copy delivers, a prefix of the other's octets and all of them if Copy saw no error; the WaitGroup counts the unfinished goroutines; a side is half-closed exactly when it supports that and its writer is past its copy; the call returns only after both with the delivered lengths |
| Pipe.NothingAfterHalfClose | internal/proxy/socks.go:224-243 | no write reaches a side once its write half has been shut |
| Pipe.ReturnsOnceBothEnded | internal/relay/tcp.go:104-123 | once both peers have ended, boundedly many steps are left and one is possible until the call has returned |
| Pipe.CopyExtends | internal/logx/logx.go:138-159 | turns taken one at a time between other steps add up to an uninterrupted copy |
| Pipe.GoesOnExtends | internal/logx/logx.go:138-159 | a further turn lets the copy go on exactly if that turn alone does |
| Digest.SplitAuthParams | internal/proxy/digest.go:75-95 | for every text, the pieces are the only ones that rejoin to it with each cut comma outside quotes and none left outside |
| Digest.SplitIsExact | internal/proxy/digest.go:73-95 | the splitter's result is characterised without it, in both directions |
| Digest.SplitOfCommas | internal/proxy/digest.go:73-95 | splitting undoes joining quote-balanced pieces with commas |
| Digest.ParseDigestChallenge | internal/proxy/digest.go:36-71 | the parameter loop computes the parsed challenge |
| DigestReading.ChallengeExactly | internal/proxy/digest.go:36-71 | a header is a usable challenge if and only if the scheme is Digest in any case and the nonce non-empty; each field is the last parameter of its name, qop is auth if offered |
| DigestReading.ChallengeSpelling | internal/proxy/digest.go:36-71 | scheme case, surrounding spaces and respelled parameters do not change what is parsed |
| DigestReading.ParamSpelling | internal/proxy/digest.go:43-50 | a parameter reads the same in any letter case of its key and with any spaces around key and value |
| DigestReading.OffersAuthExactly | internal/proxy/digest.go:60-65 | a qop list offers auth if and only if one of its comma-separated elements is that word, spaces aside |
| Digest.FindDigestChallenge | internal/proxy/digest.go:25-32 | the first header that is a usable Digest challenge, or none exactly when no header is |
| DigestProofs.BuiltHeaderParsesBack | internal/proxy/digest.go:101-142 | parsing the header built for a plain challenge returns that challenge, commas, equals signs and spaces included |
| DigestProofs.HeaderParams | internal/proxy/digest.go:129-140 | what a server reads out of the header, parameter by parameter |
| DigestProofs.ResponseIsRequestDigest | internal/proxy/digest.go:115-127 | the response is the request-digest of section 3.2.2.1 of RFC 2617 for MD5 and MD5-sess, with and without qop |
| DigestProofs.QuoteReadsBack | internal/proxy/digest.go:129-140 | quoted text reads back whatever it holds and contains no bare quote |
| DigestProofs.ServerCanVerify | internal/proxy/digest.go:115-127 | a server recomputes the response from header, method and password if and only if qop is auth or the algorithm is not MD5-sess |
| DigestProofs.UnverifiableWithoutClientNonce | internal/proxy/digest.go:115-140 | for MD5-sess without qop some hash and two client nonces give headers equal in all parameters but different responses |
| Connect.Network.ConnectAttempt | internal/proxy/http.go:330-361 | the socket is handed back open only together with a response |
| Connect.DialUpstreamConnect | internal/proxy/http.go:288-325 | every opened socket is closed or returned; at most two dials, the second only after a 407 with an answerable Digest challenge, credentials and a client nonce, presenting the answer for this user and target; a connection is returned exactly when the last response was 200 |
| Connect.AnswerDigest | internal/proxy/http.go:307-314 | an answer is built exactly when there is a usable, supported challenge and a nonce, and it is the right one |
| Connect.RetryAnswersTheChallenge | internal/proxy/http.go:307-316 | the second attempt carries the user as username, the target as uri, realm and nonce of the challenge found and the RFC 2617 response; the upstream can check it under the stated condition |

## Left out

- `RunHTTP`, `handleConnect`, `handleForward`, `RoundTrip`: they rest on net/http behaviour outside these files; a response is only its status and challenge headers.
- `bufferedConn`: its read-ahead is part of HTTP response reading, which is abstract here.
- Shutdown of `serveUDP`, accept loops, `relay.Run`, `main`: goroutine plumbing with little state.
- `serveUDPDTLS`, TLS and DTLS configuration, certificate minting: wrappers over foreign libraries.
- Deadlines, log output, usage text, error wording: errors are enumerated, not worded.
- Text beyond ASCII: case mapping, case folding and white space are those of ASCII; Go's Unicode folding accepts a few more spellings.
- Digest.Quote: models %q on printable ASCII; other characters, which Go escapes in further ways, are not modelled.
- Pump.PlainCopy: io.Copy is modelled by its read-write loop; its ReaderFrom and WriterTo shortcuts are not.
- SocksSession.HandshakeCompletes: covers the exchange without authentication and a successful dial, as two chained instances run it.
- Real datagram loss and reordering: a socket delivers, fails or is closed.
