/**
 Address tokens with their /TCP, /UDP and /SSL suffixes
 (internal/config/parse.go:13-19, 611-737).
 */
module Endpoint {
  import opened Base
  import opened HostPort

  // ---- Addresses

  datatype AddrError =
    | EmptyAddress | NoPort | TargetNeedsPort | TargetNeedsHost | BadAddress(why: SplitError) | PortNotANumber | PortOutOfRange

  function ValidatePort(p: string): Option<AddrError> {
    match Atoi(p)
    case None => Some(PortNotANumber)
    case Some(n) => if n < 1 || n > 65535 then Some(PortOutOfRange) else None
  }

  const WILDCARD := "0.0.0.0"

  function NormalizeAddr(tok: string, isTarget: bool): Result<string, AddrError> {
    if tok == "" then Err(EmptyAddress)
    else if ':' !in tok then
      if !AllDigits(tok) then Err(NoPort)
      else if isTarget then Err(TargetNeedsPort)
      else if ValidatePort(tok).Some? then Err(ValidatePort(tok).value)
      else Ok(WILDCARD + ":" + tok)
    else
      match SplitHostPort(tok)
      case Err(why) => Err(BadAddress(why))
      case Ok((host, port)) =>
        if ValidatePort(port).Some? then Err(ValidatePort(port).value)
        else if host == "" then if isTarget then Err(TargetNeedsHost) else Ok(JoinHostPort(WILDCARD, port))
        else Ok(JoinHostPort(host, port))
  }

  predicate PortInRange(port: string) {
    Atoi(port).Some? && 1 <= Atoi(port).value <= 65535
  }

  /**
   Which tokens normalise, and to what: a bare port, on the listen side only, to that port on the
   wildcard address; a written host and port to the joined form of the same, with the wildcard for an
   empty host, which a target may not have.
   */
  lemma NormalizesExactly(tok: string, isTarget: bool, addr: string)
    ensures NormalizeAddr(tok, isTarget) == Ok(addr) <==>
            || (AllDigits(tok) && PortInRange(tok) && !isTarget && addr == "0.0.0.0:" + tok)
            || (exists host, port | Written(tok, host, port) && PortInRange(port) && (isTarget ==> host != "") ::
                  addr == JoinHostPort(if host == "" then "0.0.0.0" else host, port))
  {
    if ':' in tok {
      WrittenNormalizes(tok, isTarget, addr);
    } else {
      forall host, port ensures !Written(tok, host, port) {
        WrittenHasColon(tok, host, port);
      }
      assert "0.0.0.0" + ":" + tok == "0.0.0.0:" + tok;
    }
  }

  lemma WrittenHasColon(tok: string, host: string, port: string)
    ensures Written(tok, host, port) ==> ':' in tok
  {
    if Written(tok, host, port) {
      assert tok[if tok == host + ":" + port then |host| else |host| + 2] == ':';
    }
  }

  lemma WrittenNormalizes(tok: string, isTarget: bool, addr: string)
    requires ':' in tok
    ensures NormalizeAddr(tok, isTarget) == Ok(addr) <==>
            exists host, port | Written(tok, host, port) && PortInRange(port) && (isTarget ==> host != "") ::
              addr == JoinHostPort(if host == "" then "0.0.0.0" else host, port)
  {
    forall host, port ensures SplitHostPort(tok) == Ok((host, port)) <==> Written(tok, host, port) {
      SplitExactly(tok, host, port);
    }
    if NormalizeAddr(tok, isTarget) == Ok(addr) {
      var (host, port) := SplitHostPort(tok).value;
      assert Written(tok, host, port);
    }
  }

  /** The parts of a normalised address. */
  lemma NormalParts(tok: string, isTarget: bool) returns (host: string, port: string)
    requires NormalizeAddr(tok, isTarget).Ok?
    ensures NormalizeAddr(tok, isTarget).value == JoinHostPort(host, port)
    ensures host != "" && NoBrackets(host) && NoBrackets(port) && ':' !in port && ValidatePort(port) == None
  {
    if ':' !in tok {
      host, port := WILDCARD, tok;
      assert forall c | c in tok :: IsDigit(c);
    } else {
      SplitParts(tok);
      host, port := SplitHostPort(tok).value.0, SplitHostPort(tok).value.1;
      if host == "" {
        host := WILDCARD;
      }
    }
  }

  /**
   Normalisation is a normal form: a result is left unchanged under either flag, it has a host and a
   port from 1 to 65535, and on it the relay's own splitter and the standard one agree.
   */
  lemma NormalFormIsFixed(tok: string, isTarget: bool, again: bool)
    requires NormalizeAddr(tok, isTarget).Ok?
    ensures var addr := NormalizeAddr(tok, isTarget).value;
            && NormalizeAddr(addr, again) == Ok(addr)
            && SplitHostPort(addr).Ok?
            && RelaySplit(addr) == Some(SplitHostPort(addr).value)
            && SplitHostPort(addr).value.0 != ""
            && Atoi(SplitHostPort(addr).value.1).Some? && 1 <= Atoi(SplitHostPort(addr).value.1).value <= 65535
  {
    var host, port := NormalParts(tok, isTarget);
    var addr := JoinHostPort(host, port);
    SplitOfJoin(host, port);
    RelaySplitOfJoin(host, port);
    assert ':' in addr by {
      if ':' in host { assert addr[|host| + 2] == ':'; } else { assert addr[|host|] == ':'; }
    }
  }

  // ---- Suffix lists

  /** strings.Split(s, "/"). */
  function SplitSlashes(s: string): (parts: seq<string>)
    ensures parts != []
    decreases |s|
  {
    var i := IndexOf(s, '/');
    if i == |s| then [s] else [s[..i]] + SplitSlashes(s[i + 1..])
  }

  /** "/" before each part. */
  function WithSlashes(parts: seq<string>): string {
    if parts == [] then "" else "/" + parts[0] + WithSlashes(parts[1..])
  }

  ghost predicate NoSlashes(parts: seq<string>) {
    forall i | 0 <= i < |parts| :: '/' !in parts[i]
  }

  lemma CutAt(s: string, i: nat)
    requires i < |s| && s[i] == '/'
    ensures s == s[..i] + ("/" + s[i + 1..])
  {
  }

  lemma NoSlashBefore(s: string)
    ensures '/' !in s[..IndexOf(s, '/')]
  {
  }

  lemma {:induction false} SlashesRejoin(s: string)
    ensures WithSlashes(SplitSlashes(s)) == "/" + s && NoSlashes(SplitSlashes(s))
    decreases |s|
  {
    var i := IndexOf(s, '/');
    NoSlashBefore(s);
    if i == |s| {
      assert s[..i] == s;
      WithSlashesCons(s, []);
    } else {
      var head, rest := s[..i], s[i + 1..];
      SlashesRejoin(rest);
      WithSlashesCons(head, SplitSlashes(rest));
      CutAt(s, i);
    }
  }

  lemma WithSlashesCons(head: string, parts: seq<string>)
    ensures WithSlashes([head] + parts) == "/" + (head + WithSlashes(parts))
  {
    assert ([head] + parts)[1..] == parts;
  }

  lemma SplitAtSlash(head: string, rest: string)
    requires '/' !in head
    ensures SplitSlashes(head + ("/" + rest)) == [head] + SplitSlashes(rest)
  {
    var s := head + ("/" + rest);
    assert s[..|head|] == head && s[|head|] == '/';
    IndexOfIs(s, '/', |head|);
    assert s[|head| + 1..] == rest;
  }

  lemma SplitNoSlash(s: string)
    requires '/' !in s
    ensures SplitSlashes(s) == [s]
  {
  }

  lemma {:induction false} SlashesResplit(parts: seq<string>)
    requires parts != [] && NoSlashes(parts)
    ensures exists rest :: WithSlashes(parts) == "/" + rest && SplitSlashes(rest) == parts
    decreases |parts|
  {
    var head, more := parts[0], parts[1..];
    assert parts == [head] + more;
    WithSlashesCons(head, more);
    if more == [] {
      SplitNoSlash(head);
      assert head + "" == head;
    } else {
      SlashesResplit(more);
      var rest :| WithSlashes(more) == "/" + rest && SplitSlashes(rest) == more;
      SplitAtSlash(head, rest);
    }
  }

  /** A token's address part and its suffixes. */
  function SplitToken(tok: string): (string, seq<string>) {
    var i := IndexOf(tok, '/');
    if i == |tok| then (tok, []) else (tok[..i], SplitSlashes(tok[i + 1..]))
  }

  /** Splitting and printing tokens are inverse to each other. */
  lemma TokenSplits(tok: string)
    ensures var (addr, parts) := SplitToken(tok); '/' !in addr && NoSlashes(parts) && tok == addr + WithSlashes(parts)
  {
    var i := IndexOf(tok, '/');
    NoSlashBefore(tok);
    if i < |tok| {
      SlashesRejoin(tok[i + 1..]);
      CutAt(tok, i);
    } else {
      assert tok[..i] == tok == tok + "";
    }
  }

  lemma TokenResplits(addr: string, parts: seq<string>)
    requires '/' !in addr && NoSlashes(parts)
    ensures SplitToken(addr + WithSlashes(parts)) == (addr, parts)
  {
    if parts == [] {
      assert addr + "" == addr;
    } else {
      SlashesResplit(parts);
      var rest :| WithSlashes(parts) == "/" + rest && SplitSlashes(rest) == parts;
      var tok := addr + ("/" + rest);
      assert tok[..|addr|] == addr;
      IndexOfIs(tok, '/', |addr|);
      assert tok[|addr| + 1..] == rest;
    }
  }

  // ---- Keywords

  function Upper(c: char): char {
    if 'a' <= c <= 'z' then (c as int - 32) as char else c
  }

  function Lower(c: char): char {
    if 'A' <= c <= 'Z' then (c as int + 32) as char else c
  }

  function ToUpper(s: string): string {
    seq(|s|, i requires 0 <= i < |s| => Upper(s[i]))
  }

  function ToLower(s: string): string {
    seq(|s|, i requires 0 <= i < |s| => Lower(s[i]))
  }

  /** keywordOrder. */
  function Order(keyword: string): Option<nat> {
    if keyword == "TCP" then Some(0) else if keyword == "UDP" then Some(1) else if keyword == "SSL" then Some(2) else None
  }

  datatype Flags = Flags(tcp: bool, udp: bool, ssl: bool)

  function SetFlag(f: Flags, i: nat): Flags {
    if i == 0 then f.(tcp := true) else if i == 1 then f.(udp := true) else f.(ssl := true)
  }

  datatype SuffixError = EmptySuffix | MixedCase | UnknownSuffix | NotOnTarget | SuffixRepeated | OutOfOrder

  /** The checks on one suffix that do not depend on the others; its position in the fixed order. */
  function SuffixIndex(s: string, isTarget: bool): Result<nat, SuffixError> {
    if s == "" then Err(EmptySuffix)
    else if s != ToUpper(s) && s != ToLower(s) then Err(MixedCase)
    else if Order(ToUpper(s)) == None then Err(UnknownSuffix)
    else if isTarget && (ToUpper(s) == "TCP" || ToUpper(s) == "UDP") then Err(NotOnTarget)
    else Ok(Order(ToUpper(s)).value)
  }

  /** The loop over the suffixes from some point on. */
  function ParseSuffixes(parts: seq<string>, isTarget: bool, last: int, seen: set<string>, flags: Flags): Result<Flags, SuffixError>
    decreases |parts|
  {
    if parts == [] then Ok(flags)
    else
      match SuffixIndex(parts[0], isTarget)
      case Err(e) => Err(e)
      case Ok(idx) =>
        if ToUpper(parts[0]) in seen then Err(SuffixRepeated)
        else if idx <= last then Err(OutOfOrder)
        else ParseSuffixes(parts[1..], isTarget, idx, seen + {ToUpper(parts[0])}, SetFlag(flags, idx))
  }

  const NO_FLAGS := Flags(false, false, false)

  datatype EndpointError = InAddress(addr: AddrError) | InSuffix(suffix: SuffixError)
  datatype Parsed = Parsed(addr: string, flags: Flags)

  function ParseEndpoint(tok: string, isTarget: bool): Result<Parsed, EndpointError> {
    var (addrTok, parts) := SplitToken(tok);
    match NormalizeAddr(addrTok, isTarget)
    case Err(e) => Err(InAddress(e))
    case Ok(addr) =>
      match ParseSuffixes(parts, isTarget, -1, {}, NO_FLAGS)
      case Err(e) => Err(InSuffix(e))
      case Ok(flags) => Ok(Parsed(addr, flags))
  }

  /** parseEndpoint as the program runs it. */
  method ParseEndpointLoop(tok: string, isTarget: bool) returns (r: Result<Parsed, EndpointError>)
    ensures r == ParseEndpoint(tok, isTarget)
  {
    var (addrTok, parts) := SplitToken(tok);
    var addr := NormalizeAddr(addrTok, isTarget);
    if addr.Err? {
      return Err(InAddress(addr.error));
    }
    var last: int, seen: set<string>, flags := -1, {}, NO_FLAGS;
    for i := 0 to |parts|
      invariant ParseSuffixes(parts, isTarget, -1, {}, NO_FLAGS) == ParseSuffixes(parts[i..], isTarget, last, seen, flags)
    {
      var s := parts[i];
      var idx := SuffixIndex(s, isTarget);
      if idx.Err? {
        return Err(InSuffix(idx.error));
      }
      if ToUpper(s) in seen {
        return Err(InSuffix(SuffixRepeated));
      }
      if idx.value <= last {
        return Err(InSuffix(OutOfOrder));
      }
      assert parts[i..][1..] == parts[i + 1..];
      seen := seen + {ToUpper(s)};
      last := idx.value;
      flags := SetFlag(flags, idx.value);
    }
    r := Ok(Parsed(addr.value, flags));
  }

  // ---- The grammar

  function Word(i: nat, upper: bool): string {
    if i == 0 then (if upper then "TCP" else "tcp")
    else if i == 1 then (if upper then "UDP" else "udp")
    else (if upper then "SSL" else "ssl")
  }

  /** A suffix as one may write it: a keyword all in upper or all in lower case. */
  datatype Suffix = Suffix(i: nat, upper: bool)

  function Spell(list: seq<Suffix>): seq<string> {
    seq(|list|, j requires 0 <= j < |list| => Word(list[j].i, list[j].upper))
  }

  /** Strictly increasing in TCP, UDP, SSL order, and only SSL on a target. */
  ghost predicate Allowed(list: seq<Suffix>, isTarget: bool) {
    && (forall j | 0 <= j < |list| :: list[j].i <= 2 && (isTarget ==> list[j].i == 2))
    && (forall j, k | 0 <= j < k < |list| :: list[j].i < list[k].i)
  }

  ghost predicate Has(list: seq<Suffix>, i: nat) {
    exists j | 0 <= j < |list| :: list[j].i == i
  }

  ghost function FlagsOf(list: seq<Suffix>): Flags {
    Flags(Has(list, 0), Has(list, 1), Has(list, 2))
  }

  lemma LowerAfterUpper(s: string)
    ensures ToLower(ToUpper(s)) == ToLower(s)
  {
    assert forall i | 0 <= i < |s| :: Lower(Upper(s[i])) == Lower(s[i]);
  }

  lemma WordCases(i: nat)
    requires i <= 2
    ensures ToLower(Word(i, true)) == Word(i, false) && ToUpper(Word(i, true)) == Word(i, true)
    ensures ToUpper(Word(i, false)) == Word(i, true) && ToLower(Word(i, false)) == Word(i, false)
  {
  }

  /** Each of the six spellings passes the checks on a single suffix. */
  lemma SpellingPasses(f: Suffix, isTarget: bool)
    requires f.i <= 2 && (isTarget ==> f.i == 2)
    ensures SuffixIndex(Word(f.i, f.upper), isTarget) == Ok(f.i) && ToUpper(Word(f.i, f.upper)) == Word(f.i, true)
  {
    WordCases(f.i);
  }

  /** Nothing else does. */
  lemma PassingIsSpelling(s: string, isTarget: bool) returns (f: Suffix)
    requires SuffixIndex(s, isTarget).Ok?
    ensures f.i == SuffixIndex(s, isTarget).value <= 2 && s == Word(f.i, f.upper) && (isTarget ==> f.i == 2)
  {
    f := Suffix(SuffixIndex(s, isTarget).value, s == ToUpper(s));
    LowerAfterUpper(s);
    WordCases(f.i);
  }

  /** Seen keywords come no later than the last one, so a repetition is also out of order. */
  ghost predicate SeenUpTo(seen: set<string>, last: int) {
    forall i: nat | i <= 2 && Word(i, true) in seen :: i <= last
  }

  /** The loop without its `seen` check. */
  function ParseUnseen(parts: seq<string>, isTarget: bool, last: int, flags: Flags): Option<Flags>
    decreases |parts|
  {
    if parts == [] then Some(flags)
    else
      match SuffixIndex(parts[0], isTarget)
      case Err(_) => None
      case Ok(idx) => if idx <= last then None else ParseUnseen(parts[1..], isTarget, idx, SetFlag(flags, idx))
  }

  /** The `seen` check never changes which suffix lists are accepted, nor the flags they give. */
  lemma {:induction false} SeenIsRedundant(parts: seq<string>, isTarget: bool, last: int, seen: set<string>, flags: Flags)
    requires SeenUpTo(seen, last)
    ensures ParseSuffixes(parts, isTarget, last, seen, flags).Ok? <==> ParseUnseen(parts, isTarget, last, flags).Some?
    ensures ParseSuffixes(parts, isTarget, last, seen, flags).Ok? ==>
              ParseSuffixes(parts, isTarget, last, seen, flags).value == ParseUnseen(parts, isTarget, last, flags).value
    decreases |parts|
  {
    if parts != [] && SuffixIndex(parts[0], isTarget).Ok? {
      var f := PassingIsSpelling(parts[0], isTarget);
      SpellingPasses(f, isTarget);
      if f.i > last {
        assert Word(0, true) != Word(1, true) && Word(1, true) != Word(2, true) && Word(0, true) != Word(2, true);
        SeenIsRedundant(parts[1..], isTarget, f.i, seen + {Word(f.i, true)}, SetFlag(flags, f.i));
      }
    }
  }

  function FlagsFrom(flags: Flags, list: seq<Suffix>): Flags
    decreases |list|
  {
    if list == [] then flags else FlagsFrom(SetFlag(flags, list[0].i), list[1..])
  }

  /** Allowed lists that continue after position `last`. */
  ghost predicate AllowedAfter(list: seq<Suffix>, isTarget: bool, last: int) {
    Allowed(list, isTarget) && (list != [] ==> last < list[0].i)
  }

  lemma {:induction false} AllowedIsAccepted(list: seq<Suffix>, isTarget: bool, last: int, flags: Flags)
    requires AllowedAfter(list, isTarget, last)
    ensures ParseUnseen(Spell(list), isTarget, last, flags) == Some(FlagsFrom(flags, list))
    decreases |list|
  {
    if list != [] {
      SpellingPasses(list[0], isTarget);
      assert Spell(list)[1..] == Spell(list[1..]);
      AllowedIsAccepted(list[1..], isTarget, list[0].i, SetFlag(flags, list[0].i));
    }
  }

  lemma {:induction false} AcceptedIsAllowed(parts: seq<string>, isTarget: bool, last: int, flags: Flags) returns (list: seq<Suffix>)
    requires ParseUnseen(parts, isTarget, last, flags).Some?
    ensures AllowedAfter(list, isTarget, last) && parts == Spell(list)
    decreases |parts|
  {
    if parts == [] {
      list := [];
    } else {
      var f := PassingIsSpelling(parts[0], isTarget);
      var rest := AcceptedIsAllowed(parts[1..], isTarget, f.i, SetFlag(flags, f.i));
      list := [f] + rest;
      assert parts == [parts[0]] + parts[1..];
    }
  }

  lemma {:induction false} FlagsFromIs(flags: Flags, list: seq<Suffix>)
    requires forall j | 0 <= j < |list| :: list[j].i <= 2
    ensures FlagsFrom(flags, list) == Flags(flags.tcp || Has(list, 0), flags.udp || Has(list, 1), flags.ssl || Has(list, 2))
    decreases |list|
  {
    if list != [] {
      FlagsFromIs(SetFlag(flags, list[0].i), list[1..]);
      forall i: nat | i <= 2 ensures Has(list, i) <==> list[0].i == i || Has(list[1..], i) {
        if Has(list[1..], i) {
          var j :| 0 <= j < |list| - 1 && list[1..][j].i == i;
          assert list[j + 1].i == i;
        }
        if Has(list, i) && list[0].i != i {
          var j :| 0 <= j < |list| && list[j].i == i;
          assert list[1..][j - 1].i == i;
        }
      }
    }
  }

  /**
   Printing an address with an allowed suffix list in any casing, and parsing it again, gives back
   the normalised address and exactly the flags written.
   */
  lemma PrintedEndpointParses(addr: string, list: seq<Suffix>, isTarget: bool)
    requires '/' !in addr && NormalizeAddr(addr, isTarget).Ok? && Allowed(list, isTarget)
    ensures ParseEndpoint(addr + WithSlashes(Spell(list)), isTarget)
            == Ok(Parsed(NormalizeAddr(addr, isTarget).value, FlagsOf(list)))
  {
    TokenResplits(addr, Spell(list));
    AllowedIsAccepted(list, isTarget, -1, NO_FLAGS);
    FlagsFromIs(NO_FLAGS, list);
    SeenIsRedundant(Spell(list), isTarget, -1, {}, NO_FLAGS);
  }

  /** Whatever parses was printed that way. */
  lemma ParsedEndpointPrints(tok: string, isTarget: bool) returns (addr: string, list: seq<Suffix>)
    requires ParseEndpoint(tok, isTarget).Ok?
    ensures '/' !in addr && NormalizeAddr(addr, isTarget).Ok? && Allowed(list, isTarget)
    ensures tok == addr + WithSlashes(Spell(list))
    ensures ParseEndpoint(tok, isTarget).value == Parsed(NormalizeAddr(addr, isTarget).value, FlagsOf(list))
  {
    TokenSplits(tok);
    var parts := SplitToken(tok).1;
    addr := SplitToken(tok).0;
    SeenIsRedundant(parts, isTarget, -1, {}, NO_FLAGS);
    list := AcceptedIsAllowed(parts, isTarget, -1, NO_FLAGS);
    PrintedEndpointParses(addr, list, isTarget);
  }
}
