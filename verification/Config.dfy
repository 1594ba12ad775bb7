/**
 From a command line to a validated configuration (internal/config/parse.go:109-281, 510-609,
 739-795), and what the relay relies on (internal/relay/relay.go:86-113, internal/tlsutil/dtls.go:48-51).
 Reading a certificate file for an embedded key is a parameter.
 */
module Config {
  import opened Base
  import opened HostPort
  import opened Options
  import opened OptionsProofs
  import opened OptionsAccepted
  import opened Endpoint

  datatype Mode = ModeForward | ModeHTTPProxy | ModeSOCKSProxy | ModeVersion | ModeHelp

  datatype Side = Side(addr: string, tcp: bool, udp: bool, ssl: bool)
  datatype TlsConfig = TlsConfig(keyPath: string, certPath: string, caPath: string, verify: bool)
  datatype MitmConfig = MitmConfig(signCAPath: string, serverName: string, caPath: string, verify: bool)

  datatype Config = Config(
    mode: Mode, target: Side, listen: Side, upstreamAddr: string, upstreamKind: Mode, user: string, pass: string,
    clientTLS: TlsConfig, serverTLS: TlsConfig, mitm: MitmConfig, logLevel: nat, verbose: bool)

  const NO_SIDE := Side("", false, false, false)
  const NO_TLS := TlsConfig("", "", "", false)
  const NO_MITM_CONFIG := MitmConfig("", "", "", false)
  const NO_CONFIG := Config(ModeForward, NO_SIDE, NO_SIDE, "", ModeForward, "", "", NO_TLS, NO_TLS, NO_MITM_CONFIG, 0, false)

  datatype EmbeddedKey = Unreadable | KeyMissing | KeyPresent

  datatype SslError =
    | BothServerBlocks | ClientBlockWithoutSSL | ServerBlockWithoutSSL | MitmBlockWithoutSSL | DtlsNeedsServerName
    | ServerNameWithoutSignCA | KeyWithoutCert | CertUnreadable | CertWithoutKey | ListenNeedsCertificate

  datatype ConfigError =
    | InOptions(o: OptionError) | WrongPositionalCount(n: nat) | BadUpstream(a: AddrError) | ProxyWithTLS | BadListenSuffix
    | BadListen(a: AddrError) | ForwardNeedsUpstream | ForwardNeedsUser | ForwardOutsideProxy | InEndpoint(p: EndpointError)
    | InSSL(s: SslError)

  // ---- TLS rules

  function KeyCertRule(keyPath: string, certPath: string, keyIn: string -> EmbeddedKey): Option<SslError> {
    if keyPath != "" && certPath == "" then Some(KeyWithoutCert)
    else if certPath != "" && keyPath == "" then
      match keyIn(certPath)
      case Unreadable => Some(CertUnreadable)
      case KeyMissing => Some(CertWithoutKey)
      case KeyPresent => None
    else None
  }

  /** A key needs its certificate, and a certificate without a key must hold one itself. */
  predicate PairUsable(keyPath: string, certPath: string, keyIn: string -> EmbeddedKey) {
    (keyPath != "" ==> certPath != "") && (certPath != "" && keyPath == "" ==> keyIn(certPath) == KeyPresent)
  }

  lemma KeyCertExactly(keyPath: string, certPath: string, keyIn: string -> EmbeddedKey)
    ensures KeyCertRule(keyPath, certPath, keyIn) == None <==> PairUsable(keyPath, certPath, keyIn)
  {
  }

  function ValidateSSL(o: Options, sslListen: bool, sslListenUDP: bool, sslTarget: bool, keyIn: string -> EmbeddedKey): Option<SslError> {
    if o.z.seen && o.m.seen then Some(BothServerBlocks)
    else if o.q.seen && !sslTarget then Some(ClientBlockWithoutSSL)
    else if o.z.seen && !sslListen then Some(ServerBlockWithoutSSL)
    else if o.m.seen && !sslListen then Some(MitmBlockWithoutSSL)
    else if o.m.seen && sslListenUDP && o.m.serverName == "" then Some(DtlsNeedsServerName)
    else if o.m.serverName != "" && o.m.signCAPath == "" then Some(ServerNameWithoutSignCA)
    else if KeyCertRule(o.q.keyPath, o.q.certPath, keyIn).Some? then KeyCertRule(o.q.keyPath, o.q.certPath, keyIn)
    else if KeyCertRule(o.z.keyPath, o.z.certPath, keyIn).Some? then KeyCertRule(o.z.keyPath, o.z.certPath, keyIn)
    else if sslListen && o.z.certPath == "" && o.m.signCAPath == "" then Some(ListenNeedsCertificate)
    else None
  }

  // ---- Proxy targets

  predicate MatchKeyword(tok: string, word: string) {
    tok == ToUpper(word) || tok == ToLower(word)
  }

  function ProxyMode(tok: string): Option<Mode> {
    if MatchKeyword(tok, "proxy") then Some(ModeHTTPProxy)
    else if MatchKeyword(tok, "socks") then Some(ModeSOCKSProxy)
    else None
  }

  /** The listen token's address and the protocol it names, if any. */
  function SplitProxyListen(tok: string): Result<(string, Option<Mode>), ConfigError> {
    match Cut(tok, '/')
    case None => Ok((tok, None))
    case Some((addr, suffix)) =>
      if '/' in suffix || ProxyMode(suffix) == None then Err(BadListenSuffix) else Ok((addr, ProxyMode(suffix)))
  }

  /** None if the target is not of proxy kind; otherwise its protocol and upstream address. */
  function ClassifyProxyTarget(tok: string): Option<Result<(Mode, string), ConfigError>> {
    if ProxyMode(tok).Some? then Some(Ok((ProxyMode(tok).value, "")))
    else
      match Cut(tok, '/')
      case None => None
      case Some((addr, suffix)) =>
        if '/' in suffix || ProxyMode(suffix) == None then None
        else
          match NormalizeAddr(addr, true)
          case Err(e) => Some(Err(BadUpstream(e)))
          case Ok(upstream) => Some(Ok((ProxyMode(suffix).value, upstream)))
  }

  function ParseProxy(o: Options, mode: Mode, upstream: string, listenTok: string): Result<Config, ConfigError> {
    if o.q.seen || o.z.seen || o.m.seen then Err(ProxyWithTLS)
    else
      match SplitProxyListen(listenTok)
      case Err(e) => Err(e)
      case Ok((addrTok, frontend)) =>
        match NormalizeAddr(addrTok, false)
        case Err(e) => Err(BadListen(e))
        case Ok(addr) =>
          if o.f.seen && upstream == "" then Err(ForwardNeedsUpstream)
          else if o.f.seen && !o.f.userSeen then Err(ForwardNeedsUser)
          else
            Ok(NO_CONFIG.(mode := if frontend.Some? then frontend.value else mode,
                          listen := Side(addr, true, false, false),
                          upstreamAddr := upstream, upstreamKind := mode,
                          user := if o.f.seen then o.f.user else "", pass := if o.f.seen then o.f.pass else "",
                          logLevel := o.globals.logLevel, verbose := o.globals.verbose))
  }

  function ParseForward(o: Options, targetTok: string, listenTok: string, keyIn: string -> EmbeddedKey): Result<Config, ConfigError> {
    if o.f.seen then Err(ForwardOutsideProxy)
    else
      match ParseEndpoint(targetTok, true)
      case Err(e) => Err(InEndpoint(e))
      case Ok(target) =>
        match ParseEndpoint(listenTok, false)
        case Err(e) => Err(InEndpoint(e))
        case Ok(listen) =>
          var udp := listen.flags.udp;
          var tcp := listen.flags.tcp || !udp;
          var sslListenUDP := udp && listen.flags.ssl;
          var sslListen := (tcp && listen.flags.ssl) || sslListenUDP;
          var sslTarget := (tcp && target.flags.ssl) || (udp && target.flags.ssl);
          match ValidateSSL(o, sslListen, sslListenUDP, sslTarget, keyIn)
          case Some(e) => Err(InSSL(e))
          case None =>
            Ok(NO_CONFIG.(mode := ModeForward,
                          target := Side(target.addr, tcp, udp, target.flags.ssl),
                          listen := Side(listen.addr, tcp, udp, listen.flags.ssl),
                          clientTLS := TlsConfig(o.q.keyPath, o.q.certPath, o.q.caPath, o.q.verify),
                          serverTLS := TlsConfig(o.z.keyPath, o.z.certPath, o.z.caPath, o.z.verify),
                          mitm := MitmConfig(o.m.signCAPath, o.m.serverName, o.m.caPath, o.m.verify),
                          logLevel := o.globals.logLevel, verbose := o.globals.verbose))
  }

  /** Parse after the options have been taken off. */
  function ParseRest(o: Options, rest: seq<string>, keyIn: string -> EmbeddedKey): Result<Config, ConfigError> {
    if o.globals.help then Ok(NO_CONFIG.(mode := ModeHelp))
    else if o.globals.version then Ok(NO_CONFIG.(mode := ModeVersion))
    else if |rest| != 2 then Err(WrongPositionalCount(|rest|))
    else
      match ClassifyProxyTarget(rest[0])
      case Some(Err(e)) => Err(e)
      case Some(Ok((mode, upstream))) => ParseProxy(o, mode, upstream, rest[1])
      case None => ParseForward(o, rest[0], rest[1], keyIn)
  }

  function Parse(args: seq<string>, keyIn: string -> EmbeddedKey): Result<Config, ConfigError> {
    match Extract(START, args)
    case Err(e) => Err(InOptions(e))
    case Ok((o, rest)) => ParseRest(o, rest, keyIn)
  }

  // ---- What a forward configuration guarantees

  /** The address is one that normalisation leaves alone. */
  ghost predicate Normal(addr: string) {
    NormalizeAddr(addr, true) == Ok(addr) && NormalizeAddr(addr, false) == Ok(addr)
  }

  ghost predicate RelayReady(c: Config) {
    && Normal(c.target.addr) && Normal(c.listen.addr)
    && c.target.tcp == c.listen.tcp && c.target.udp == c.listen.udp && (c.listen.tcp || c.listen.udp)
    && (c.listen.ssl <==> (c.serverTLS.certPath != "") != (c.mitm.signCAPath != ""))
    && (c.serverTLS.certPath != "" ==> c.mitm.signCAPath == "")
    && (c.clientTLS.keyPath != "" || c.clientTLS.certPath != "" || c.clientTLS.caPath != "" || !c.clientTLS.verify ==> c.target.ssl)
    && (c.clientTLS.keyPath != "" ==> c.clientTLS.certPath != "")
    && (c.serverTLS.keyPath != "" ==> c.serverTLS.certPath != "")
    && (c.mitm.serverName != "" ==> c.mitm.signCAPath != "")
    && (c.mitm.signCAPath != "" && c.listen.udp ==> c.mitm.serverName != "")
    && c.upstreamAddr == "" && c.user == ""
  }

  lemma EndpointNormal(tok: string, isTarget: bool)
    requires ParseEndpoint(tok, isTarget).Ok?
    ensures Normal(ParseEndpoint(tok, isTarget).value.addr)
  {
    var addrTok := SplitToken(tok).0;
    NormalFormIsFixed(addrTok, isTarget, true);
    NormalFormIsFixed(addrTok, isTarget, false);
  }

  lemma ForwardReady(o: Options, targetTok: string, listenTok: string, keyIn: string -> EmbeddedKey)
    requires Tidy(o) && ParseForward(o, targetTok, listenTok, keyIn).Ok?
    ensures RelayReady(ParseForward(o, targetTok, listenTok, keyIn).value)
  {
    EndpointNormal(targetTok, true);
    EndpointNormal(listenTok, false);
    var t, l := ParseEndpoint(targetTok, true).value.flags, ParseEndpoint(listenTok, false).value.flags;
    SslBlocksMatch(o, l.ssl, l.udp && l.ssl, t.ssl, keyIn);
  }

  /** What a listener needs: nothing without /SSL, and otherwise one complete -Z or -M block, not both. */
  predicate ListenerServed(o: Options, sslListen: bool, sslListenUDP: bool, keyIn: string -> EmbeddedKey) {
    if !sslListen then !o.z.seen && !o.m.seen
    else if o.m.seen then !o.z.seen && o.m.signCAPath != "" && (sslListenUDP ==> o.m.serverName != "")
    else o.z.seen && o.z.certPath != "" && PairUsable(o.z.keyPath, o.z.certPath, keyIn)
  }

  /** The TLS rules accept exactly what serves both sides; each block matters only to its own side. */
  lemma SslRules(o: Options, sslListen: bool, sslListenUDP: bool, sslTarget: bool, keyIn: string -> EmbeddedKey)
    requires Tidy(o) && (sslListenUDP ==> sslListen)
    ensures ValidateSSL(o, sslListen, sslListenUDP, sslTarget, keyIn) == None <==>
            && (o.q.seen ==> sslTarget) && PairUsable(o.q.keyPath, o.q.certPath, keyIn)
            && ListenerServed(o, sslListen, sslListenUDP, keyIn)
  {
    assert Seen(Get(o, ScopeQ)) == o.q.seen && Seen(Get(o, ScopeZ)) == o.z.seen && Seen(Get(o, ScopeM)) == o.m.seen;
  }

  lemma SslBlocksMatch(o: Options, sslListen: bool, sslListenUDP: bool, sslTarget: bool, keyIn: string -> EmbeddedKey)
    requires Tidy(o) && ValidateSSL(o, sslListen, sslListenUDP, sslTarget, keyIn) == None
    ensures sslListen <==> (o.z.certPath != "") != (o.m.signCAPath != "")
    ensures o.z.certPath != "" ==> o.m.signCAPath == ""
    ensures o.q.keyPath != "" || o.q.certPath != "" || o.q.caPath != "" || !o.q.verify ==> sslTarget
    ensures o.q.keyPath != "" ==> o.q.certPath != ""
    ensures o.z.keyPath != "" ==> o.z.certPath != ""
    ensures o.m.serverName != "" ==> o.m.signCAPath != ""
    ensures o.m.signCAPath != "" && sslListenUDP ==> o.m.serverName != ""
    ensures o.m.signCAPath != "" ==> sslListen
  {
    assert Seen(Get(o, ScopeQ)) == o.q.seen && Seen(Get(o, ScopeZ)) == o.z.seen && Seen(Get(o, ScopeM)) == o.m.seen;
  }

  /** Every forward configuration that Parse hands out is one the relay can run on unchecked. */
  lemma ForwardConfigIsReady(args: seq<string>, keyIn: string -> EmbeddedKey)
    requires Parse(args, keyIn).Ok? && Parse(args, keyIn).value.mode == ModeForward
    ensures RelayReady(Parse(args, keyIn).value)
  {
    ExtractTidy(START, args);
    var (o, rest) := Extract(START, args).value;
    ForwardMode(o, rest, keyIn);
    ForwardReady(o, rest[0], rest[1], keyIn);
  }

  /** The settings of a block as its tokens on the command line give them. */
  function TlsOf(subs: seq<string>): TlsConfig {
    TlsConfig(ValueOf(subs, "-key=", ""), ValueOf(subs, "-cert=", ""), ValueOf(subs, "-ca=", ""), Verified(subs, true))
  }

  function MitmOf(subs: seq<string>): MitmConfig {
    MitmConfig(ValueOf(subs, "-signca=", ""), ValueOf(subs, "-servername=", ""), ValueOf(subs, "-ca=", ""), Verified(subs, true))
  }

  /** The sides of a forward configuration as the two positional tokens give them. */
  ghost predicate SidesRead(c: Config, target: string, targetList: seq<Suffix>, listen: string, listenList: seq<Suffix>) {
    var tcp := Has(listenList, 0) || !Has(listenList, 1);
    && NormalizeAddr(target, true) == Ok(c.target.addr) && NormalizeAddr(listen, false) == Ok(c.listen.addr)
    && c.target == Side(c.target.addr, tcp, Has(listenList, 1), Has(targetList, 2))
    && c.listen == Side(c.listen.addr, tcp, Has(listenList, 1), Has(listenList, 2))
  }

  /** Its TLS and logging settings as the option tokens and blocks give them. */
  ghost predicate SettingsRead(c: Config, options: seq<string>, bs: seq<Block>) {
    && c.clientTLS == TlsOf(SubsOf(bs, ScopeQ)) && c.serverTLS == TlsOf(SubsOf(bs, ScopeZ))
    && c.mitm == MitmOf(SubsOf(bs, ScopeM))
    && (c.verbose <==> "-v" in options) && IsMaxLevel(c.logLevel, 0, options)
    && !HasBlock(bs, ScopeF) && "-help" !in options && "-version" !in options
  }

  /**
   Where every field of a forward configuration comes from, for a line of preamble, blocks and tail:
   the tail is two printed endpoints in target, listen order; the listen token alone decides TCP and
   UDP (TCP if it names neither); the TLS settings are the values in the tokens of the -Q, -Z and -M
   block; -v decides verbosity and the highest of -d, -dd and -ddd the log level.
   */
  lemma ForwardConfigReadsTokens(args: seq<string>, pre: seq<string>, bs: seq<Block>, tail: seq<string>, keyIn: string -> EmbeddedKey, c: Config)
    returns (target: string, targetList: seq<Suffix>, listen: string, listenList: seq<Suffix>)
    requires Decomposed(args, pre, bs, tail) && Parse(args, keyIn) == Ok(c) && c.mode == ModeForward
    ensures Allowed(targetList, true) && Allowed(listenList, false)
    ensures tail == [target + WithSlashes(Spell(targetList)), listen + WithSlashes(Spell(listenList))]
    ensures SidesRead(c, target, targetList, listen, listenList) && SettingsRead(c, Taken(args), bs)
  {
    ForwardTokens(args, keyIn, c);
    LineOptions(args, pre, bs, tail);
    target, targetList, listen, listenList := ForwardLine(Extract(START, args).value.0, tail, Taken(args), bs, keyIn, c);
  }

  lemma ForwardLine(o: Options, tail: seq<string>, options: seq<string>, bs: seq<Block>, keyIn: string -> EmbeddedKey, c: Config)
    returns (target: string, targetList: seq<Suffix>, listen: string, listenList: seq<Suffix>)
    requires |tail| == 2 && ParseForward(o, tail[0], tail[1], keyIn) == Ok(c)
    requires OptionsRead(o, options, bs) && !o.globals.help && !o.globals.version
    ensures Allowed(targetList, true) && Allowed(listenList, false)
    ensures tail == [target + WithSlashes(Spell(targetList)), listen + WithSlashes(Spell(listenList))]
    ensures SidesRead(c, target, targetList, listen, listenList) && SettingsRead(c, options, bs)
  {
    target, targetList, listen, listenList := ForwardSides(o, tail[0], tail[1], keyIn, c);
    ForwardSettings(o, tail[0], tail[1], keyIn, c, options, bs);
  }

  lemma ForwardSides(o: Options, targetTok: string, listenTok: string, keyIn: string -> EmbeddedKey, c: Config)
    returns (target: string, targetList: seq<Suffix>, listen: string, listenList: seq<Suffix>)
    requires ParseForward(o, targetTok, listenTok, keyIn) == Ok(c)
    ensures Allowed(targetList, true) && Allowed(listenList, false)
    ensures targetTok == target + WithSlashes(Spell(targetList)) && listenTok == listen + WithSlashes(Spell(listenList))
    ensures SidesRead(c, target, targetList, listen, listenList)
  {
    target, targetList := ParsedEndpointPrints(targetTok, true);
    listen, listenList := ParsedEndpointPrints(listenTok, false);
  }

  /** These options are what the option tokens and blocks say. */
  ghost predicate OptionsRead(o: Options, options: seq<string>, bs: seq<Block>) {
    && o.q == SslSettings(SubsOf(bs, ScopeQ), HasBlock(bs, ScopeQ)) && o.z == SslSettings(SubsOf(bs, ScopeZ), HasBlock(bs, ScopeZ))
    && o.m == MitmSettings(SubsOf(bs, ScopeM), HasBlock(bs, ScopeM)) && o.f.seen == HasBlock(bs, ScopeF)
    && (o.globals.verbose <==> "-v" in options) && IsMaxLevel(o.globals.logLevel, 0, options)
    && (o.globals.help <==> "-help" in options) && (o.globals.version <==> "-version" in options)
  }

  /** The options and tokens behind a forward configuration. */
  lemma ForwardTokens(args: seq<string>, keyIn: string -> EmbeddedKey, c: Config)
    requires Parse(args, keyIn) == Ok(c) && c.mode == ModeForward
    ensures Extract(START, args).Ok? && |Extract(START, args).value.1| == 2
    ensures var (o, rest) := Extract(START, args).value;
            ParseForward(o, rest[0], rest[1], keyIn) == Ok(c) && !o.globals.help && !o.globals.version
  {
    ForwardMode(Extract(START, args).value.0, Extract(START, args).value.1, keyIn);
  }

  lemma LineOptions(args: seq<string>, pre: seq<string>, bs: seq<Block>, tail: seq<string>)
    requires Decomposed(args, pre, bs, tail) && Extract(START, args).Ok?
    ensures var (o, rest) := Extract(START, args).value; rest == tail && OptionsRead(o, Taken(args), bs)
  {
    LineReads(args, pre, bs, tail);
    FlagsAre(START, args);
    LevelIsMaximum(START, args);
  }

  /** Only a non-proxy target leads to forward mode. */
  lemma ForwardMode(o: Options, rest: seq<string>, keyIn: string -> EmbeddedKey)
    requires ParseRest(o, rest, keyIn).Ok? && ParseRest(o, rest, keyIn).value.mode == ModeForward
    ensures |rest| == 2 && ParseRest(o, rest, keyIn) == ParseForward(o, rest[0], rest[1], keyIn)
    ensures !o.globals.help && !o.globals.version
  {
    var k := ClassifyProxyTarget(rest[0]);
    if k.Some? && k.value.Ok? {
      ProxyModeIsProxy(rest[0]);
      ProxyIsNotForward(o, k.value.value.0, k.value.value.1, rest[1]);
    }
  }

  lemma ProxyModeIsProxy(tok: string)
    ensures ClassifyProxyTarget(tok).Some? && ClassifyProxyTarget(tok).value.Ok? ==> IsProxy(ClassifyProxyTarget(tok).value.value.0)
  {
  }

  lemma ProxyIsNotForward(o: Options, mode: Mode, upstream: string, listenTok: string)
    requires IsProxy(mode)
    ensures ParseProxy(o, mode, upstream, listenTok).Ok? ==> IsProxy(ParseProxy(o, mode, upstream, listenTok).value.mode)
  {
  }

  lemma ForwardSettings(o: Options, targetTok: string, listenTok: string, keyIn: string -> EmbeddedKey, c: Config, options: seq<string>, bs: seq<Block>)
    requires ParseForward(o, targetTok, listenTok, keyIn) == Ok(c) && OptionsRead(o, options, bs)
    requires !o.globals.help && !o.globals.version
    ensures SettingsRead(c, options, bs)
  {
  }

  // ---- -M on a DTLS listener

  /** A printed target endpoint is never taken for a proxy target. */
  lemma EndpointIsNoProxy(target: string, list: seq<Suffix>)
    requires '/' !in target && NormalizeAddr(target, true).Ok? && Allowed(list, true)
    ensures ClassifyProxyTarget(target + WithSlashes(Spell(list))) == None
  {
    assert ':' in target;
    if list == [] {
      assert target + WithSlashes(Spell(list)) == target;
      KeywordsAreLetters(target);
    } else {
      var word, more := Word(2, list[0].upper), WithSlashes(Spell(list)[1..]);
      assert target + WithSlashes(Spell(list)) == target + "/" + (word + more);
      assert more == "" ==> word + more == word;
      SlashOrNothing(Spell(list)[1..]);
      SslIsNoProxy(list[0].upper);
      SuffixIsNoProxy(target, word + more);
    }
  }

  lemma SuffixIsNoProxy(addr: string, suffix: string)
    requires '/' !in addr && ('/' in suffix || ProxyMode(suffix) == None)
    ensures ClassifyProxyTarget(addr + "/" + suffix) == None
  {
    SlashIsNoKeyword(addr, suffix);
    CutSuffix(addr, suffix);
  }

  lemma SlashOrNothing(parts: seq<string>)
    ensures WithSlashes(parts) == "" || '/' in WithSlashes(parts)
  {
  }

  lemma KeywordsAreLetters(tok: string)
    ensures ProxyMode(tok).Some? ==> ':' !in tok && '/' !in tok
  {
    ProxyWords();
  }

  lemma ProxyWords()
    ensures ToUpper("proxy") == "PROXY" && ToLower("proxy") == "proxy" && ToUpper("socks") == "SOCKS" && ToLower("socks") == "socks"
  {
  }

  lemma SslIsNoProxy(upper: bool)
    ensures ProxyMode(Word(2, upper)) == None
  {
    ProxyWords();
    assert Word(2, upper)[0] == 'S' || Word(2, upper)[0] == 's';
    assert |Word(2, upper)| == 3;
  }

  /** The TLS blocks of a line serve both sides, judged by their tokens. */
  predicate TlsFits(bs: seq<Block>, sslListen: bool, udp: bool, sslTarget: bool, keyIn: string -> EmbeddedKey) {
    var q, z, m := TlsOf(SubsOf(bs, ScopeQ)), TlsOf(SubsOf(bs, ScopeZ)), MitmOf(SubsOf(bs, ScopeM));
    && (HasBlock(bs, ScopeQ) ==> sslTarget) && PairUsable(q.keyPath, q.certPath, keyIn)
    && if !sslListen then !HasBlock(bs, ScopeZ) && !HasBlock(bs, ScopeM)
       else if HasBlock(bs, ScopeM) then !HasBlock(bs, ScopeZ) && m.signCAPath != "" && (udp ==> m.serverName != "")
       else HasBlock(bs, ScopeZ) && z.certPath != "" && PairUsable(z.keyPath, z.certPath, keyIn)
  }

  /**
   Which forward lines are accepted: for two printed endpoints, exactly those whose options fit, that
   have no -F block, and whose TLS blocks serve what the endpoints' /SSL asks for.
   */
  lemma ForwardLineAccepted(args: seq<string>, pre: seq<string>, bs: seq<Block>, target: string, targetList: seq<Suffix>,
                            listen: string, listenList: seq<Suffix>, keyIn: string -> EmbeddedKey)
    requires Decomposed(args, pre, bs, [target + WithSlashes(Spell(targetList)), listen + WithSlashes(Spell(listenList))])
    requires "-help" !in Taken(args) && "-version" !in Taken(args)
    requires '/' !in target && NormalizeAddr(target, true).Ok? && Allowed(targetList, true)
    requires '/' !in listen && NormalizeAddr(listen, false).Ok? && Allowed(listenList, false)
    ensures Parse(args, keyIn).Ok? <==>
            && LineFits(pre, bs) && !HasBlock(bs, ScopeF)
            && TlsFits(bs, Has(listenList, 2), Has(listenList, 1), Has(targetList, 2), keyIn)
  {
    var tail := [target + WithSlashes(Spell(targetList)), listen + WithSlashes(Spell(listenList))];
    AcceptedExactly(args, pre, bs, tail);
    if LineFits(pre, bs) {
      LineOptions(args, pre, bs, tail);
      ExtractTidy(START, args);
      EndpointIsNoProxy(target, targetList);
      PrintedEndpointParses(target, targetList, true);
      PrintedEndpointParses(listen, listenList, false);
      ForwardAcceptedBy(Extract(START, args).value.0, Taken(args), bs, tail, keyIn, FlagsOf(targetList), FlagsOf(listenList));
    }
  }

  lemma ForwardAcceptedBy(o: Options, options: seq<string>, bs: seq<Block>, tail: seq<string>, keyIn: string -> EmbeddedKey, t: Flags, l: Flags)
    requires Tidy(o) && OptionsRead(o, options, bs) && !o.globals.help && !o.globals.version && |tail| == 2
    requires ClassifyProxyTarget(tail[0]) == None
    requires ParseEndpoint(tail[0], true).Ok? && ParseEndpoint(tail[0], true).value.flags == t
    requires ParseEndpoint(tail[1], false).Ok? && ParseEndpoint(tail[1], false).value.flags == l
    ensures ParseRest(o, tail, keyIn).Ok? <==> !HasBlock(bs, ScopeF) && TlsFits(bs, l.ssl, l.udp, t.ssl, keyIn)
  {
    SslRules(o, l.ssl, l.udp && l.ssl, t.ssl, keyIn);
  }

  /**
   -M with an active UDP/SSL listener is accepted, if and only if the -M block names both the server
   and the signing CA, there is no -Z or -F block, and -Q, if present, fits a target with /SSL.
   */
  lemma MitmOverDtls(args: seq<string>, pre: seq<string>, bs: seq<Block>, target: string, targetList: seq<Suffix>,
                     listen: string, listenList: seq<Suffix>, keyIn: string -> EmbeddedKey)
    requires Decomposed(args, pre, bs, [target + WithSlashes(Spell(targetList)), listen + WithSlashes(Spell(listenList))])
    requires LineFits(pre, bs) && "-help" !in Taken(args) && "-version" !in Taken(args)
    requires '/' !in target && NormalizeAddr(target, true).Ok? && Allowed(targetList, true)
    requires '/' !in listen && NormalizeAddr(listen, false).Ok? && Allowed(listenList, false)
    requires HasBlock(bs, ScopeM) && Has(listenList, 1) && Has(listenList, 2)
    ensures Parse(args, keyIn).Ok? <==>
            var q, m := TlsOf(SubsOf(bs, ScopeQ)), MitmOf(SubsOf(bs, ScopeM));
            && m.serverName != "" && m.signCAPath != "" && !HasBlock(bs, ScopeZ) && !HasBlock(bs, ScopeF)
            && (HasBlock(bs, ScopeQ) ==> Has(targetList, 2)) && PairUsable(q.keyPath, q.certPath, keyIn)
  {
    ForwardLineAccepted(args, pre, bs, target, targetList, listen, listenList, keyIn);
  }

  lemma MitmTokens(ca: string, name: string)
    ensures Classify("-signca=" + ca) == IsSub(SignCa(ca)) && Classify("-servername=" + name) == IsSub(ServerName(name))
  {
    var a, b := "-signca=" + ca, "-servername=" + name;
    assert a[8..] == ca && b[12..] == name;
    assert a[1] == 's' && a[2] == 'i' && b[1] == 's' && b[2] == 'e';
    assert "-signca=" <= a && "-servername=" <= b;
  }

  lemma MitmLine(ca: string, name: string, tail: seq<string>)
    requires StartsPositional(tail)
    ensures Extract(START, ["-M", "-signca=" + ca, "-servername=" + name] + tail) ==
            Ok((NO_OPTIONS.(m := MitmScope(ca, name, "", true, true)), tail))
  {
    var line := ["-M", "-signca=" + ca, "-servername=" + name] + tail;
    MitmTokens(ca, name);
    var begun := Scan(NO_OPTIONS.(m := NO_MITM.(seen := true)), Some(ScopeM));
    var signed := Scan(NO_OPTIONS.(m := MitmScope(ca, "", "", true, true)), Some(ScopeM));
    var named := Scan(NO_OPTIONS.(m := MitmScope(ca, name, "", true, true)), Some(ScopeM));
    assert line[1..][1..] == line[2..] && line[2..][1..] == line[3..] == tail;
    assert Extract(named, tail) == Ok((named.opts, tail));
    assert Extract(signed, line[2..]) == Extract(named, tail);
    assert Extract(begun, line[1..]) == Extract(signed, line[2..]);
  }

  function MitmArgs(ca: string, name: string, target: string, listen: string): seq<string> {
    ["-M", "-signca=" + ca, "-servername=" + name] + [target, listen + "/UDP/SSL"]
  }

  /**
   So -M over DTLS is no error: for any signing CA and server name, any target and any UDP/SSL
   listener there is such a line, and it yields that configuration.
   */
  lemma MitmOverDtlsAccepted(ca: string, name: string, target: string, listen: string, keyIn: string -> EmbeddedKey)
    requires ca != "" && name != "" && Classify(target).Positional?
    requires '/' !in target && NormalizeAddr(target, true).Ok? && '/' !in listen && NormalizeAddr(listen, false).Ok?
    ensures var r := Parse(MitmArgs(ca, name, target, listen), keyIn);
            r.Ok? && r.value.mode == ModeForward && r.value.mitm == MitmConfig(ca, name, "", true) && r.value.listen.udp && r.value.listen.ssl
  {
    MitmLine(ca, name, [target, listen + "/UDP/SSL"]);
    var o := NO_OPTIONS.(m := MitmScope(ca, name, "", true, true));
    UdpSslEndpoints(target, listen);
    assert ParseRest(o, [target, listen + "/UDP/SSL"], keyIn) == ParseForward(o, target, listen + "/UDP/SSL", keyIn);
  }

  lemma UdpSslEndpoints(target: string, listen: string)
    requires '/' !in target && NormalizeAddr(target, true).Ok? && '/' !in listen && NormalizeAddr(listen, false).Ok?
    ensures ClassifyProxyTarget(target) == None && ParseEndpoint(target, true).Ok?
    ensures ParseEndpoint(listen + "/UDP/SSL", false) == Ok(Parsed(NormalizeAddr(listen, false).value, Flags(false, true, true)))
  {
    var list := [Suffix(1, true), Suffix(2, true)];
    UdpSslSuffixes();
    assert target + WithSlashes(Spell([])) == target;
    EndpointIsNoProxy(target, []);
    PrintedEndpointParses(target, [], true);
    PrintedEndpointParses(listen, list, false);
    assert list[0].i == 1 && list[1].i == 2;
  }

  lemma UdpSslSuffixes()
    ensures WithSlashes(Spell([Suffix(1, true), Suffix(2, true)])) == "/UDP/SSL" && WithSlashes(Spell([])) == ""
  {
    var words := Spell([Suffix(1, true), Suffix(2, true)]);
    assert words == ["UDP", "SSL"] && words[1..] == ["SSL"] && words[1..][1..] == [];
    assert WithSlashes(["SSL"]) == "/SSL";
  }

  /** One of them: -M -signca=ca.pem -servername=example.org host:1 2/UDP/SSL. */
  lemma MitmOverDtlsInstance(keyIn: string -> EmbeddedKey)
    ensures Parse(MitmArgs("ca.pem", "example.org", "host:1", "2"), keyIn).Ok?
  {
    HostOne();
    MitmOverDtlsAccepted("ca.pem", "example.org", "host:1", "2", keyIn);
  }

  lemma HostOne()
    ensures NormalizeAddr("host:1", true).Ok? && '/' !in "host:1" && Classify("host:1").Positional?
    ensures NormalizeAddr("2", false).Ok?
  {
    PortOk("1");
    PortOk("2");
    NoDashIsPositional("host:1");
    WrittenAddress("host:1", "host", "1");
  }

  lemma NoDashIsPositional(tok: string)
    requires tok != "" && tok[0] != '-'
    ensures Classify(tok).Positional?
  {
  }

  lemma WrittenAddress(tok: string, host: string, port: string)
    requires tok == host + ":" + port && Written(tok, host, port) && host != "" && ValidatePort(port) == None
    ensures NormalizeAddr(tok, true).Ok?
  {
    assert tok[|host|] == ':';
    SplitExactly(tok, host, port);
  }

  lemma PortOk(p: string)
    requires p == "1" || p == "2"
    ensures ValidatePort(p) == None && AllDigits(p)
  {
    assert p[..0] == [] && forall c | c in p :: IsDigit(c);
    assert DecimalValue(p) == if p == "1" then 1 else 2;
  }

  /** Which certificate source serverDTLSConfig picks. */
  datatype Certificate = Minted(signCA: string, name: string) | EmptyNameError | Static(cert: string)

  function ServerDTLS(c: Config): Certificate {
    if c.mitm.signCAPath != "" then
      if c.mitm.serverName == "" then EmptyNameError else Minted(c.mitm.signCAPath, c.mitm.serverName)
    else Static(c.serverTLS.certPath)
  }

  /** The DTLS listener never meets the empty-name error and never loads a nameless certificate. */
  lemma DtlsNameIsThere(args: seq<string>, keyIn: string -> EmbeddedKey)
    requires Parse(args, keyIn).Ok? && Parse(args, keyIn).value.mode == ModeForward
    requires Parse(args, keyIn).value.listen.ssl && Parse(args, keyIn).value.listen.udp
    ensures var c := Parse(args, keyIn).value;
            if c.mitm.signCAPath == "" then ServerDTLS(c) == Static(c.serverTLS.certPath) && c.serverTLS.certPath != ""
            else ServerDTLS(c) == Minted(c.mitm.signCAPath, c.mitm.serverName) && c.mitm.serverName != ""
  {
    ForwardConfigIsReady(args, keyIn);
  }

  /** Every proxy configuration listens on plain TCP and carries credentials only for an upstream. */
  lemma ProxyConfigIsReady(args: seq<string>, keyIn: string -> EmbeddedKey)
    requires Parse(args, keyIn).Ok?
    requires Parse(args, keyIn).value.mode == ModeHTTPProxy || Parse(args, keyIn).value.mode == ModeSOCKSProxy
    ensures var c := Parse(args, keyIn).value;
            && Normal(c.listen.addr) && c.listen.tcp && !c.listen.udp && !c.listen.ssl
            && (c.upstreamKind == ModeHTTPProxy || c.upstreamKind == ModeSOCKSProxy)
            && (c.upstreamAddr != "" ==> Normal(c.upstreamAddr))
            && (c.user != "" ==> c.upstreamAddr != "")
            && (c.user == "" ==> c.pass == "")
            && c.clientTLS == c.serverTLS == NO_TLS && c.mitm == NO_MITM_CONFIG
  {
    UserNonEmpty(START, args);
    var (o, rest) := Extract(START, args).value;
    var (mode, upstream) := ClassifyProxyTarget(rest[0]).value.value;
    if upstream != "" {
      var addrTok := Cut(rest[0], '/').value.0;
      NormalFormIsFixed(addrTok, true, true);
      NormalFormIsFixed(addrTok, true, false);
    }
    var listenTok := SplitProxyListen(rest[1]).value.0;
    NormalFormIsFixed(listenTok, false, true);
    NormalFormIsFixed(listenTok, false, false);
  }

  function ProxyWord(m: Mode, upper: bool): string {
    if m == ModeHTTPProxy then (if upper then "PROXY" else "proxy") else (if upper then "SOCKS" else "socks")
  }

  predicate IsProxy(m: Mode) {
    m == ModeHTTPProxy || m == ModeSOCKSProxy
  }

  lemma ProxyWordMode(m: Mode, upper: bool)
    requires IsProxy(m)
    ensures ProxyMode(ProxyWord(m, upper)) == Some(m) && '/' !in ProxyWord(m, upper)
  {
    ProxyWords();
  }

  /** Only the four spellings name a protocol. */
  lemma ProxyModeWord(tok: string) returns (upper: bool)
    requires ProxyMode(tok).Some?
    ensures IsProxy(ProxyMode(tok).value) && tok == ProxyWord(ProxyMode(tok).value, upper)
  {
    ProxyWords();
    upper := tok == ToUpper("proxy") || tok == ToUpper("socks");
  }

  lemma CutSuffix(addr: string, word: string)
    requires '/' !in addr
    ensures Cut(addr + "/" + word, '/') == Some((addr, word))
  {
    var tok := addr + "/" + word;
    assert tok[..|addr|] == addr && tok[|addr| + 1..] == word;
    IndexOfIs(tok, '/', |addr|);
  }

  lemma SlashIsNoKeyword(addr: string, word: string)
    ensures ProxyMode(addr + "/" + word) == None
  {
    assert (addr + "/" + word)[|addr|] == '/';
    KeywordsAreLetters(addr + "/" + word);
  }

  /** A word for one of the two protocols, in upper or lower case. */
  datatype Protocol = Protocol(mode: Mode, upper: bool)

  function Name(p: Protocol): string {
    ProxyWord(p.mode, p.upper)
  }

  /** The target token: a bare protocol, or an upstream that speaks it. */
  function ProxyTarget(upstream: Option<string>, back: Protocol): string {
    if upstream.Some? then upstream.value + "/" + Name(back) else Name(back)
  }

  /** The listen token: an address, with the protocol to serve if it differs. */
  function ProxyListen(listen: string, front: Option<Protocol>): string {
    if front.Some? then listen + "/" + Name(front.value) else listen
  }

  ghost predicate ProxyParts(upstream: Option<string>, back: Protocol, listen: string, front: Option<Protocol>) {
    && IsProxy(back.mode) && (front.Some? ==> IsProxy(front.value.mode))
    && (upstream.Some? ==> '/' !in upstream.value && NormalizeAddr(upstream.value, true).Ok?)
    && '/' !in listen && NormalizeAddr(listen, false).Ok?
  }

  lemma ProxyTargetIs(upstream: Option<string>, back: Protocol)
    requires IsProxy(back.mode) && (upstream.Some? ==> '/' !in upstream.value && NormalizeAddr(upstream.value, true).Ok?)
    ensures ClassifyProxyTarget(ProxyTarget(upstream, back)) ==
            Some(Ok((back.mode, if upstream.Some? then NormalizeAddr(upstream.value, true).value else "")))
  {
    ProxyWordMode(back.mode, back.upper);
    if upstream.Some? {
      SlashIsNoKeyword(upstream.value, Name(back));
      CutSuffix(upstream.value, Name(back));
    }
  }

  lemma ProxyListenIs(listen: string, front: Option<Protocol>)
    requires '/' !in listen && (front.Some? ==> IsProxy(front.value.mode))
    ensures SplitProxyListen(ProxyListen(listen, front)) == Ok((listen, if front.Some? then Some(front.value.mode) else None))
  {
    if front.Some? {
      ProxyWordMode(front.value.mode, front.value.upper);
      CutSuffix(listen, Name(front.value));
    }
  }

  lemma UpstreamNotEmpty(tok: string)
    requires NormalizeAddr(tok, true).Ok?
    ensures NormalizeAddr(tok, true).value != ""
  {
    var host, port := NormalParts(tok, true);
  }

  /** What the program makes of a proxy line. */
  ghost predicate ProxyRead(c: Config, options: seq<string>, bs: seq<Block>, upstream: Option<string>, back: Protocol,
                            listen: string, front: Option<Protocol>) {
    var user := ValueOf(SubsOf(bs, ScopeF), "-user=", "");
    && c.mode == (if front.Some? then front.value.mode else back.mode) && c.upstreamKind == back.mode
    && (if upstream.Some? then NormalizeAddr(upstream.value, true) == Ok(c.upstreamAddr) else c.upstreamAddr == "")
    && c.listen == Side(c.listen.addr, true, false, false) && NormalizeAddr(listen, false) == Ok(c.listen.addr)
    && (if HasBlock(bs, ScopeF) then user == c.user + ":" + c.pass && c.user != "" && ':' !in c.user else c.user == c.pass == "")
    && c.target == NO_SIDE && c.clientTLS == c.serverTLS == NO_TLS && c.mitm == NO_MITM_CONFIG
    && (c.verbose <==> "-v" in options) && IsMaxLevel(c.logLevel, 0, options)
  }

  /**
   Proxy lines, chained or not, with or without a listen suffix: accepted exactly when the options
   fit, there is no TLS block, and -F, if given, comes with -user= and an upstream. The listener
   speaks the protocol its own token names, or else the target's; the upstream speaks the target's.
   */
  lemma ProxyTokensSelect(args: seq<string>, pre: seq<string>, bs: seq<Block>, upstream: Option<string>, back: Protocol,
                          listen: string, front: Option<Protocol>, keyIn: string -> EmbeddedKey)
    requires Decomposed(args, pre, bs, [ProxyTarget(upstream, back), ProxyListen(listen, front)])
    requires ProxyParts(upstream, back, listen, front) && "-help" !in Taken(args) && "-version" !in Taken(args)
    ensures Parse(args, keyIn).Ok? <==> LineFits(pre, bs) && ProxyFits(bs, upstream.Some?)
    ensures Parse(args, keyIn).Ok? ==> ProxyRead(Parse(args, keyIn).value, Taken(args), bs, upstream, back, listen, front)
  {
    var tail := [ProxyTarget(upstream, back), ProxyListen(listen, front)];
    AcceptedExactly(args, pre, bs, tail);
    if LineFits(pre, bs) {
      LineOptions(args, pre, bs, tail);
      LineReads(args, pre, bs, tail);
      ProxyRestAccepted(Extract(START, args).value.0, Taken(args), bs, upstream, back, listen, front, keyIn);
    }
  }

  /** The blocks that a proxy line may have. */
  predicate ProxyFits(bs: seq<Block>, chained: bool) {
    && !HasBlock(bs, ScopeQ) && !HasBlock(bs, ScopeZ) && !HasBlock(bs, ScopeM)
    && (HasBlock(bs, ScopeF) ==> chained && ValueOf(SubsOf(bs, ScopeF), "-user=", "") != "")
  }

  lemma ProxyRestAccepted(o: Options, options: seq<string>, bs: seq<Block>, upstream: Option<string>, back: Protocol,
                          listen: string, front: Option<Protocol>, keyIn: string -> EmbeddedKey)
    requires OptionsRead(o, options, bs) && UserRead(o.f, bs) && !o.globals.help && !o.globals.version
    requires ProxyParts(upstream, back, listen, front)
    ensures var r := ParseRest(o, [ProxyTarget(upstream, back), ProxyListen(listen, front)], keyIn);
            && (r.Ok? <==> ProxyFits(bs, upstream.Some?))
            && (r.Ok? ==> ProxyRead(r.value, options, bs, upstream, back, listen, front))
  {
    ProxyTargetIs(upstream, back);
    ProxyAcceptedBy(o, options, bs, upstream, back, listen, front);
  }

  lemma ProxyAcceptedBy(o: Options, options: seq<string>, bs: seq<Block>, upstream: Option<string>, back: Protocol,
                        listen: string, front: Option<Protocol>)
    requires OptionsRead(o, options, bs) && ProxyParts(upstream, back, listen, front) && UserRead(o.f, bs)
    ensures var up := if upstream.Some? then NormalizeAddr(upstream.value, true).value else "";
            var r := ParseProxy(o, back.mode, up, ProxyListen(listen, front));
            && (r.Ok? <==> ProxyFits(bs, upstream.Some?))
            && (r.Ok? ==> ProxyRead(r.value, options, bs, upstream, back, listen, front))
  {
    ProxyListenIs(listen, front);
    if upstream.Some? {
      UpstreamNotEmpty(upstream.value);
    }
  }

  /** The credentials are those of the line's -F block. */
  ghost predicate UserRead(f: ForwardScope, bs: seq<Block>) {
    var text := ValueOf(SubsOf(bs, ScopeF), "-user=", "");
    if f.userSeen then text == f.user + ":" + f.pass && f.user != "" && ':' !in f.user else f.user == f.pass == text == ""
  }

  /** Every proxy configuration comes from such a line. */
  lemma ProxyConfigReadsTokens(args: seq<string>, keyIn: string -> EmbeddedKey)
    returns (upstream: Option<string>, back: Protocol, listen: string, front: Option<Protocol>)
    requires Parse(args, keyIn).Ok? && IsProxy(Parse(args, keyIn).value.mode)
    ensures ProxyParts(upstream, back, listen, front)
    ensures Extract(START, args).Ok? && Extract(START, args).value.1 == [ProxyTarget(upstream, back), ProxyListen(listen, front)]
  {
    var (o, rest) := Extract(START, args).value;
    upstream, back := ProxyTargetParts(rest[0]);
    listen, front := ProxyListenParts(rest[1]);
    assert rest == [rest[0], rest[1]];
  }

  lemma ProxyTargetParts(tok: string) returns (upstream: Option<string>, back: Protocol)
    requires ClassifyProxyTarget(tok).Some? && ClassifyProxyTarget(tok).value.Ok?
    ensures tok == ProxyTarget(upstream, back) && IsProxy(back.mode)
    ensures upstream.Some? ==> '/' !in upstream.value && NormalizeAddr(upstream.value, true).Ok?
  {
    if ProxyMode(tok).Some? {
      var upper := ProxyModeWord(tok);
      upstream, back := None, Protocol(ProxyMode(tok).value, upper);
    } else {
      var (addr, suffix) := Cut(tok, '/').value;
      CutRejoins(tok);
      var upper := ProxyModeWord(suffix);
      upstream, back := Some(addr), Protocol(ProxyMode(suffix).value, upper);
    }
  }

  lemma ProxyListenParts(tok: string) returns (listen: string, front: Option<Protocol>)
    requires SplitProxyListen(tok).Ok?
    ensures tok == ProxyListen(listen, front) && '/' !in listen && (front.Some? ==> IsProxy(front.value.mode))
    ensures listen == SplitProxyListen(tok).value.0
  {
    CutRejoins(tok);
    if Cut(tok, '/') == None {
      listen, front := tok, None;
    } else {
      var (addr, suffix) := Cut(tok, '/').value;
      var upper := ProxyModeWord(suffix);
      listen, front := addr, Some(Protocol(ProxyMode(suffix).value, upper));
    }
  }

  lemma CutRejoins(tok: string)
    ensures match Cut(tok, '/')
            case None => '/' !in tok
            case Some((addr, suffix)) => tok == addr + "/" + suffix && '/' !in addr
  {
  }

  /** -help and -version decide everything, -help first; otherwise two positional arguments are needed. */
  lemma InfoAndCount(args: seq<string>, pre: seq<string>, bs: seq<Block>, tail: seq<string>, keyIn: string -> EmbeddedKey)
    requires Decomposed(args, pre, bs, tail)
    ensures !LineFits(pre, bs) ==> Parse(args, keyIn).Err?
    ensures LineFits(pre, bs) && "-help" in Taken(args) ==> Parse(args, keyIn) == Ok(NO_CONFIG.(mode := ModeHelp))
    ensures LineFits(pre, bs) && "-help" !in Taken(args) && "-version" in Taken(args) ==>
              Parse(args, keyIn) == Ok(NO_CONFIG.(mode := ModeVersion))
    ensures LineFits(pre, bs) && "-help" !in Taken(args) && "-version" !in Taken(args) && |tail| != 2 ==> Parse(args, keyIn).Err?
  {
    AcceptedExactly(args, pre, bs, tail);
    if LineFits(pre, bs) {
      LineOptions(args, pre, bs, tail);
    }
  }

  lemma {:induction false} UserNonEmpty(st: Scan, args: seq<string>)
    requires Extract(st, args).Ok? && (st.opts.f.userSeen ==> st.opts.f.user != "")
    ensures Extract(st, args).value.0.f.userSeen ==> Extract(st, args).value.0.f.user != ""
    decreases |args|
  {
    if args != [] && !Classify(args[0]).Positional? {
      UserNonEmpty(Step(st, Classify(args[0])).value, args[1..]);
    }
  }

  /** The order of option blocks on the command line does not affect the configuration. */
  lemma BlockOrderKeepsConfig(pre: seq<string>, bs: seq<Block>, cs: seq<Block>, tail: seq<string>, keyIn: string -> EmbeddedKey)
    requires Inner(pre) && WellFormed(bs) && WellFormed(cs) && multiset(bs) == multiset(cs) && StartsPositional(tail)
    ensures var a, b := Parse(pre + Flatten(bs) + tail, keyIn), Parse(pre + Flatten(cs) + tail, keyIn);
            a == b || (a.Err? && b.Err?)
  {
    BlockOrderIrrelevant(pre, bs, cs, tail);
  }

  // ---- Several targets in one command line

  const SEPARATOR := "--"

  /** splitArgGroups. */
  method SplitArgGroups(args: seq<string>) returns (groups: seq<seq<string>>)
    ensures SplitsInto(args, groups)
  {
    groups := [[]];
    for i := 0 to |args|
      invariant groups != [] && JoinGroups(groups) == args[..i]
      invariant forall j | 0 <= j < |groups| :: SEPARATOR !in groups[j]
    {
      var a := args[i];
      assert args[..i + 1] == args[..i] + [a];
      if a == SEPARATOR {
        JoinGroupsNew(groups);
        groups := groups + [[]];
      } else {
        JoinGroupsGrow(groups, a);
        var last := |groups| - 1;
        groups := groups[last := groups[last] + [a]];
      }
    }
    assert args[..|args|] == args;
  }

  /** The groups written out with separators between them. */
  function JoinGroups(groups: seq<seq<string>>): seq<string>
    requires groups != []
  {
    if |groups| == 1 then groups[0] else JoinGroups(groups[..|groups| - 1]) + [SEPARATOR] + groups[|groups| - 1]
  }

  /** The groups are what stands between the separators of the line. */
  predicate SplitsInto(args: seq<string>, groups: seq<seq<string>>) {
    groups != [] && JoinGroups(groups) == args && forall i | 0 <= i < |groups| :: SEPARATOR !in groups[i]
  }

  lemma JoinGroupsNew(groups: seq<seq<string>>)
    requires groups != []
    ensures JoinGroups(groups + [[]]) == JoinGroups(groups) + [SEPARATOR]
  {
    assert (groups + [[]])[..|groups|] == groups;
  }

  lemma JoinGroupsGrow(groups: seq<seq<string>>, a: string)
    requires groups != []
    ensures var last := |groups| - 1; JoinGroups(groups[last := groups[last] + [a]]) == JoinGroups(groups) + [a]
  {
    var last := |groups| - 1;
    var grown := groups[last := groups[last] + [a]];
    assert grown[..last] == groups[..last];
  }

  /** A group list is determined by the line it was split from. */
  lemma {:induction false} SplitIsUnique(gs: seq<seq<string>>, hs: seq<seq<string>>)
    requires gs != [] && SplitsInto(JoinGroups(gs), gs) && SplitsInto(JoinGroups(gs), hs)
    ensures gs == hs
    decreases |gs|
  {
    var line := JoinGroups(gs);
    var g, h := gs[|gs| - 1], hs[|hs| - 1];
    LastGroup(gs);
    LastGroup(hs);
    NoLonger(line, g, h);
    NoLonger(line, h, g);
    assert g == line[|line| - |g|..] == h;
    if |gs| > 1 && |hs| > 1 {
      var gi, hi := gs[..|gs| - 1], hs[..|hs| - 1];
      assert JoinGroups(gi) == line[..|line| - |g| - 1] == JoinGroups(hi);
      SplitIsUnique(gi, hi);
      assert gs == gi + [g] && hs == hi + [h];
    }
  }

  /** A separator-free ending cannot reach past a separator. */
  lemma NoLonger(line: seq<string>, g: seq<string>, h: seq<string>)
    requires |g| <= |line| && |h| <= |line| && line[|line| - |h|..] == h && SEPARATOR !in h
    requires |g| < |line| ==> line[|line| - |g| - 1] == SEPARATOR
    ensures |h| <= |g|
  {
    assert forall i | |line| - |h| <= i < |line| :: line[i] == h[i - (|line| - |h|)];
  }

  lemma LastGroup(gs: seq<seq<string>>)
    requires gs != []
    ensures var line, g := JoinGroups(gs), gs[|gs| - 1];
            && |g| <= |line| && line[|line| - |g|..] == g
            && (|gs| == 1 <==> |line| == |g|)
            && (|gs| > 1 ==> line[|line| - |g| - 1] == SEPARATOR && JoinGroups(gs[..|gs| - 1]) == line[..|line| - |g| - 1])
  {
  }

  /** A line is one group exactly when it has no separator. */
  lemma OneGroup(gs: seq<seq<string>>)
    requires gs != [] && SplitsInto(JoinGroups(gs), gs)
    ensures |gs| == 1 <==> SEPARATOR !in JoinGroups(gs)
  {
    LastGroup(gs);
  }

  datatype ParseAllError = Alone(e: ConfigError) | Groups(bad: seq<nat>)

  predicate IsInfo(m: Mode) {
    m == ModeHelp || m == ModeVersion
  }

  type Parser = seq<string> -> Result<Config, ConfigError>

  /** Parse, given what the certificate files hold. */
  function ParserFor(keyIn: string -> EmbeddedKey): Parser {
    (g: seq<string>) => Parse(g, keyIn)
  }

  /** A group that may stand beside others. */
  predicate GroupOk(g: seq<string>, parse: Parser) {
    parse(g).Ok? && parse(g).value.mode != ModeHelp && parse(g).value.mode != ModeVersion
  }

  /** One configuration per group, in order, if all may stand together; otherwise exactly the offending groups. */
  ghost predicate JudgesGroups(r: Result<seq<Config>, ParseAllError>, gs: seq<seq<string>>, parse: Parser) {
    && (r.Ok? <==> forall i | 0 <= i < |gs| :: GroupOk(gs[i], parse))
    && (r.Ok? ==> |r.value| == |gs| && forall i | 0 <= i < |gs| :: parse(gs[i]) == Ok(r.value[i]))
    && (r.Err? ==> r.error.Groups? && forall i: nat :: i in r.error.bad <==> i < |gs| && !GroupOk(gs[i], parse))
  }

  /** ParseAll's loop over several groups. */
  method ParseGroups(gs: seq<seq<string>>, parse: Parser) returns (r: Result<seq<Config>, ParseAllError>)
    ensures JudgesGroups(r, gs, parse)
  {
    var cfgs: seq<Config>, bad: seq<nat> := [], [];
    for i := 0 to |gs|
      invariant forall j: nat :: j in bad <==> j < i && !GroupOk(gs[j], parse)
      invariant bad == [] ==> |cfgs| == i && forall j | 0 <= j < i :: parse(gs[j]) == Ok(cfgs[j])
    {
      var c := parse(gs[i]);
      if c.Err? || IsInfo(c.value.mode) {
        bad := bad + [i];
      } else {
        cfgs := cfgs + [c.value];
      }
    }
    if bad != [] {
      assert bad[0] in bad;
      r := Err(Groups(bad));
    } else {
      r := Ok(cfgs);
    }
  }

  /**
   ParseAll: all or nothing. With several groups it yields one configuration per group, in order,
   exactly when every group is valid on its own and none asks for help or version; otherwise it
   reports exactly the offending groups and no configuration. Every forward configuration it yields
   is one the relay can run on.
   */
  method ParseAll(args: seq<string>, keyIn: string -> EmbeddedKey) returns (r: Result<seq<Config>, ParseAllError>)
    ensures SEPARATOR !in args ==> r == match Parse(args, keyIn) { case Ok(c) => Ok([c]) case Err(e) => Err(Alone(e)) }
    ensures SEPARATOR in args ==> forall gs | SplitsInto(args, gs) :: JudgesGroups(r, gs, ParserFor(keyIn))
    ensures exists gs :: SplitsInto(args, gs)
    ensures r.Ok? ==> forall i | 0 <= i < |r.value| :: r.value[i].mode == ModeForward ==> RelayReady(r.value[i])
  {
    var groups := SplitArgGroups(args);
    OneGroup(groups);
    forall gs | SplitsInto(args, gs) ensures gs == groups {
      SplitIsUnique(gs, groups);
    }
    forall g | Parse(g, keyIn).Ok? && Parse(g, keyIn).value.mode == ModeForward ensures RelayReady(Parse(g, keyIn).value) {
      ForwardConfigIsReady(g, keyIn);
    }
    if |groups| == 1 {
      var c := Parse(groups[0], keyIn);
      r := if c.Ok? then Ok([c.value]) else Err(Alone(c.error));
    } else {
      r := ParseGroups(groups, ParserFor(keyIn));
    }
  }
}
