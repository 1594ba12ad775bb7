/**
 The option scanner of internal/config/parse.go:283-508: -Q, -Z, -M and -F each open a block that
 the following sub-options belong to; -d, -v, -help and -version are global.
 */
module Options {
  import opened Base
  import opened HostPort

  datatype Scope = ScopeQ | ScopeZ | ScopeM | ScopeF

  datatype SslScope = SslScope(keyPath: string, certPath: string, caPath: string, verify: bool, seen: bool)
  datatype MitmScope = MitmScope(signCAPath: string, serverName: string, caPath: string, verify: bool, seen: bool)
  datatype ForwardScope = ForwardScope(user: string, pass: string, userSeen: bool, seen: bool)
  datatype Globals = Globals(help: bool, version: bool, logLevel: nat, verbose: bool)
  datatype Options = Options(q: SslScope, z: SslScope, m: MitmScope, f: ForwardScope, globals: Globals)

  /** One block's accumulated sub-options. */
  datatype Part = Ssl(ssl: SslScope) | Mitm(mitm: MitmScope) | Forward(forward: ForwardScope)

  const NO_SSL := SslScope("", "", "", true, false)
  const NO_MITM := MitmScope("", "", "", true, false)
  const NO_FORWARD := ForwardScope("", "", false, false)
  const NO_GLOBALS := Globals(false, false, 0, false)
  const NO_OPTIONS := Options(NO_SSL, NO_SSL, NO_MITM, NO_FORWARD, NO_GLOBALS)

  // ---- Tokens

  datatype Global = Help | Version | Verbose | Level(n: nat)

  datatype Sub =
    | Key(path: string) | Cert(path: string) | Ca(path: string) | Verify(on: bool)
    | SignCa(path: string) | ServerName(name: string) | User(text: string)

  datatype Token = IsGlobal(g: Global) | Open(k: Scope) | IsSub(s: Sub) | Positional

  predicate HasPrefix(tok: string, prefix: string) {
    prefix <= tok
  }

  function Classify(tok: string): Token {
    if tok == "-help" then IsGlobal(Help)
    else if tok == "-version" then IsGlobal(Version)
    else if tok == "-v" then IsGlobal(Verbose)
    else if tok == "-d" then IsGlobal(Level(1))
    else if tok == "-dd" then IsGlobal(Level(2))
    else if tok == "-ddd" then IsGlobal(Level(3))
    else if tok == "-Q" then Open(ScopeQ)
    else if tok == "-Z" then Open(ScopeZ)
    else if tok == "-M" then Open(ScopeM)
    else if tok == "-F" then Open(ScopeF)
    else if HasPrefix(tok, "-key=") then IsSub(Key(tok[5..]))
    else if HasPrefix(tok, "-cert=") then IsSub(Cert(tok[6..]))
    else if HasPrefix(tok, "-ca=") then IsSub(Ca(tok[4..]))
    else if HasPrefix(tok, "-verify=") then IsSub(Verify(tok[8..] != "0"))
    else if HasPrefix(tok, "-signca=") then IsSub(SignCa(tok[8..]))
    else if HasPrefix(tok, "-servername=") then IsSub(ServerName(tok[12..]))
    else if HasPrefix(tok, "-user=") then IsSub(User(tok[6..]))
    else Positional
  }

  // ---- The effect of one token

  datatype OptionError = BlockRepeated(k: Scope) | SubRepeated | Misplaced | BadUser

  function ApplyGlobal(g: Globals, t: Global): Globals {
    match t
    case Help => g.(help := true)
    case Version => g.(version := true)
    case Verbose => g.(verbose := true)
    case Level(n) => if n > g.logLevel then g.(logLevel := n) else g
  }

  function Get(o: Options, k: Scope): Part {
    match k
    case ScopeQ => Ssl(o.q)
    case ScopeZ => Ssl(o.z)
    case ScopeM => Mitm(o.m)
    case ScopeF => Forward(o.f)
  }

  /** The part has the kind that belongs to block k. */
  predicate Fits(p: Part, k: Scope) {
    match k
    case ScopeQ => p.Ssl?
    case ScopeZ => p.Ssl?
    case ScopeM => p.Mitm?
    case ScopeF => p.Forward?
  }

  function Put(o: Options, k: Scope, p: Part): Options
    requires Fits(p, k)
  {
    match k
    case ScopeQ => o.(q := p.ssl)
    case ScopeZ => o.(z := p.ssl)
    case ScopeM => o.(m := p.mitm)
    case ScopeF => o.(f := p.forward)
  }

  predicate Seen(p: Part) {
    match p
    case Ssl(s) => s.seen
    case Mitm(m) => m.seen
    case Forward(f) => f.seen
  }

  function MarkSeen(p: Part): Part {
    match p
    case Ssl(s) => Ssl(s.(seen := true))
    case Mitm(m) => Mitm(m.(seen := true))
    case Forward(f) => Forward(f.(seen := true))
  }

  /** A sub-option inside its block: refused where it does not belong or repeats a non-empty value. */
  function ApplySub(p: Part, s: Sub): Result<Part, OptionError> {
    match p
    case Ssl(b) =>
      (match s
       case Key(v) => if b.keyPath != "" then Err(SubRepeated) else Ok(Ssl(b.(keyPath := v)))
       case Cert(v) => if b.certPath != "" then Err(SubRepeated) else Ok(Ssl(b.(certPath := v)))
       case Ca(v) => if b.caPath != "" then Err(SubRepeated) else Ok(Ssl(b.(caPath := v)))
       case Verify(on) => Ok(Ssl(b.(verify := on)))
       case _ => Err(Misplaced))
    case Mitm(b) =>
      (match s
       case Ca(v) => if b.caPath != "" then Err(SubRepeated) else Ok(Mitm(b.(caPath := v)))
       case Verify(on) => Ok(Mitm(b.(verify := on)))
       case SignCa(v) => if b.signCAPath != "" then Err(SubRepeated) else Ok(Mitm(b.(signCAPath := v)))
       case ServerName(v) => if b.serverName != "" then Err(SubRepeated) else Ok(Mitm(b.(serverName := v)))
       case _ => Err(Misplaced))
    case Forward(b) =>
      (match s
       case User(text) =>
         if b.userSeen then Err(SubRepeated)
         else
           (match Cut(text, ':')
            case None => Err(BadUser)
            case Some((user, pass)) =>
              if user == "" then Err(BadUser) else Ok(Forward(b.(user := user, pass := pass, userSeen := true))))
       case _ => Err(Misplaced))
  }

  datatype Scan = Scan(opts: Options, scope: Option<Scope>)

  function Step(st: Scan, tok: Token): Result<Scan, OptionError>
    requires !tok.Positional?
  {
    match tok
    case IsGlobal(g) => Ok(st.(opts := st.opts.(globals := ApplyGlobal(st.opts.globals, g))))
    case Open(k) =>
      if Seen(Get(st.opts, k)) then Err(BlockRepeated(k))
      else Ok(Scan(Put(st.opts, k, MarkSeen(Get(st.opts, k))), Some(k)))
    case IsSub(s) =>
      if st.scope == None then Err(Misplaced)
      else
        match ApplySub(Get(st.opts, st.scope.value), s)
        case Err(e) => Err(e)
        case Ok(p) => Ok(st.(opts := Put(st.opts, st.scope.value, p)))
  }

  /** extractOptions from the middle of a scan: the options and the positional remainder. */
  function Extract(st: Scan, args: seq<string>): Result<(Options, seq<string>), OptionError>
    decreases |args|
  {
    if args == [] || Classify(args[0]).Positional? then Ok((st.opts, args))
    else
      match Step(st, Classify(args[0]))
      case Err(e) => Err(e)
      case Ok(next) => Extract(next, args[1..])
  }

  const START := Scan(NO_OPTIONS, None)

  /** The loop of extractOptions. */
  method ExtractOptions(args: seq<string>) returns (r: Result<(Options, seq<string>), OptionError>)
    ensures r == Extract(START, args)
  {
    var st := START;
    var i := 0;
    while i < |args|
      invariant 0 <= i <= |args|
      invariant Extract(START, args) == Extract(st, args[i..])
    {
      var tok := Classify(args[i]);
      if tok.Positional? {
        return Ok((st.opts, args[i..]));
      }
      var next := Step(st, tok);
      if next.Err? {
        return Err(next.error);
      }
      assert args[i..][1..] == args[i + 1..];
      st := next.value;
      i := i + 1;
    }
    r := Ok((st.opts, args[i..]));
  }
}
