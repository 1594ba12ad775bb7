/**
 The address syntax that the proxy and the configuration parser both use: Go's net.JoinHostPort,
 net.SplitHostPort, strconv.Itoa and strconv.Atoi, and the relay's own splitter
 (internal/relay/relay.go:64-79). Text is a sequence of characters, one per octet of the Go string.
 */
module HostPort {
  import opened Base

  /** The position of the first `c` in `s`, or |s|. */
  function IndexOf(s: string, c: char): (i: nat)
    ensures i <= |s| && (i < |s| ==> s[i] == c) && forall j | 0 <= j < i :: s[j] != c
  {
    if s == [] then 0 else if s[0] == c then 0 else 1 + IndexOf(s[1..], c)
  }

  /** The position just after the last `c` in `s`, or 0. */
  function AfterLast(s: string, c: char): (i: nat)
    ensures i <= |s| && (0 < i ==> s[i - 1] == c) && forall j | i <= j < |s| :: s[j] != c
  {
    if s == [] then 0 else if s[|s| - 1] == c then |s| else AfterLast(s[..|s| - 1], c)
  }

  /** strings.Cut: what stands before and after the first `c`. */
  function Cut(s: string, c: char): Option<(string, string)> {
    var i := IndexOf(s, c);
    if i == |s| then None else Some((s[..i], s[i + 1..]))
  }

  predicate NoBrackets(s: string) {
    '[' !in s && ']' !in s
  }

  function JoinHostPort(host: string, port: string): string {
    if ':' in host then "[" + host + "]:" + port else host + ":" + port
  }

  datatype SplitError = MissingPort | TooManyColons | MissingBracket | UnexpectedOpen | UnexpectedClose

  function SplitHostPort(addr: string): Result<(string, string), SplitError> {
    var after := AfterLast(addr, ':');
    if after == 0 then Err(MissingPort)
    else
      var i := after - 1;
      if addr[0] == '[' then
        var end := IndexOf(addr, ']');
        if end == |addr| then Err(MissingBracket)
        else if end + 1 == |addr| then Err(MissingPort)
        else if end + 1 != i then Err(if addr[end + 1] == ':' then TooManyColons else MissingPort)
        else if '[' in addr[1..] then Err(UnexpectedOpen)
        else if ']' in addr[end + 1..] then Err(UnexpectedClose)
        else Ok((addr[1..end], addr[after..]))
      else if ':' in addr[..i] then Err(TooManyColons)
      else if '[' in addr then Err(UnexpectedOpen)
      else if ']' in addr then Err(UnexpectedClose)
      else Ok((addr[..i], addr[after..]))
  }

  lemma AfterLastIs(s: string, c: char, i: nat)
    requires 0 < i <= |s| && s[i - 1] == c && c !in s[i..]
    ensures AfterLast(s, c) == i
  {
    assert forall j | i <= j < |s| :: s[j] == s[i..][j - i];
  }

  lemma IndexOfIs(s: string, c: char, i: nat)
    requires i < |s| && s[i] == c && c !in s[..i]
    ensures IndexOf(s, c) == i
  {
    assert forall j | 0 <= j < i :: s[j] == s[..i][j];
  }

  /** Splitting undoes joining exactly when the host has no square bracket. */
  lemma SplitOfJoin(host: string, port: string)
    requires ':' !in port && NoBrackets(port)
    ensures SplitHostPort(JoinHostPort(host, port)) == Ok((host, port)) <==> NoBrackets(host)
  {
    var addr := JoinHostPort(host, port);
    if ':' in host {
      JoinedInBrackets(host, port);
    } else {
      AfterLastIs(addr, ':', |host| + 1) by { assert addr[|host| + 1..] == port; }
      assert addr[..|host|] == host;
      if NoBrackets(host) {
        assert '[' !in addr && ']' !in addr;
      }
    }
  }

  lemma JoinedInBrackets(host: string, port: string)
    requires ':' in host && ':' !in port && NoBrackets(port)
    ensures SplitHostPort(JoinHostPort(host, port)) == Ok((host, port)) <==> NoBrackets(host)
  {
    if NoBrackets(host) {
      SplitBracketed(host, port);
    } else {
      var addr := "[" + host + "]:" + port;
      assert addr[|host| + 3..] == port;
      AfterLastIs(addr, ':', |host| + 3);
      BracketRefused(host, port);
    }
  }

  /** The bracketed form yields the host inside, whether or not it needed the brackets. */
  lemma SplitBracketed(host: string, port: string)
    requires NoBrackets(host) && ':' !in port && NoBrackets(port)
    ensures SplitHostPort("[" + host + "]:" + port) == Ok((host, port))
  {
    var addr := "[" + host + "]:" + port;
    assert addr[|host| + 3..] == port;
    AfterLastIs(addr, ':', |host| + 3);
    assert addr[..|host| + 1] == "[" + host;
    IndexOfIs(addr, ']', |host| + 1);
    assert addr[1..] == host + "]:" + port;
    assert addr[|host| + 2..] == ":" + port;
    assert addr[1..|host| + 1] == host;
  }

  lemma BracketRefused(host: string, port: string)
    requires !NoBrackets(host) && AfterLast("[" + host + "]:" + port, ':') == |host| + 3
    ensures SplitHostPort("[" + host + "]:" + port).Err?
  {
    var addr := "[" + host + "]:" + port;
    if '[' in host {
      assert addr[1..] == host + "]:" + port;
    } else {
      var k :| 0 <= k < |host| && host[k] == ']';
      assert addr[k + 1] == ']';
      assert IndexOf(addr, ']') <= k + 1;
    }
  }

  /** What a successful split delivers. */
  lemma SplitParts(addr: string)
    requires SplitHostPort(addr).Ok?
    ensures var (host, port) := SplitHostPort(addr).value; NoBrackets(host) && NoBrackets(port) && ':' !in port
  {
    var (host, port) := SplitHostPort(addr).value;
    assert forall c | c in port :: c in addr;
    if addr[0] == '[' {
      var end := IndexOf(addr, ']');
      assert forall c | c in host :: c in addr[1..];
      assert forall c | c in port :: c in addr[end + 1..] && c in addr[1..];
    } else {
      assert forall c | c in host :: c in addr;
    }
  }

  lemma PlainSplit(host: string, port: string)
    requires NoBrackets(host) && NoBrackets(port) && ':' !in host && ':' !in port
    ensures SplitHostPort(host + ":" + port) == Ok((host, port))
  {
    SplitOfJoin(host, port);
  }

  /** An address is "host:port" with no further colon, or "[host]:port"; no other bracket occurs. */
  predicate Written(addr: string, host: string, port: string) {
    && NoBrackets(host) && NoBrackets(port) && ':' !in port
    && ((':' !in host && addr == host + ":" + port) || addr == "[" + host + "]:" + port)
  }

  lemma SplitRejoins(addr: string)
    requires SplitHostPort(addr).Ok?
    ensures Written(addr, SplitHostPort(addr).value.0, SplitHostPort(addr).value.1)
  {
    SplitParts(addr);
    var after := AfterLast(addr, ':');
    if addr[0] == '[' {
      var end := IndexOf(addr, ']');
      assert addr == "[" + addr[1..end] + "]:" + addr[after..];
    } else {
      assert addr == addr[..after - 1] + ":" + addr[after..];
    }
  }

  /** SplitHostPort accepts exactly the written addresses, and returns the parts they were written from. */
  lemma SplitExactly(addr: string, host: string, port: string)
    ensures SplitHostPort(addr) == Ok((host, port)) <==> Written(addr, host, port)
  {
    if SplitHostPort(addr).Ok? {
      SplitRejoins(addr);
    }
    if Written(addr, host, port) {
      if addr == "[" + host + "]:" + port {
        SplitBracketed(host, port);
      } else {
        PlainSplit(host, port);
      }
    }
  }

  // ---- The relay's splitter

  /** strings.Trim: characters of `drop` go from both ends. */
  function Trim(s: string, drop: set<char>): string
    decreases |s|
  {
    if s != [] && s[0] in drop then Trim(s[1..], drop)
    else if s != [] && s[|s| - 1] in drop then Trim(s[..|s| - 1], drop)
    else s
  }

  const BRACKETS: set<char> := {'[', ']'}

  function RelaySplit(addr: string): Option<(string, string)> {
    var after := AfterLast(addr, ':');
    if after == 0 then None else Some((Trim(addr[..after - 1], BRACKETS), addr[after..]))
  }

  /** On joined addresses of a bracket-free host the relay's splitter agrees with the standard one. */
  lemma RelaySplitOfJoin(host: string, port: string)
    requires NoBrackets(host) && ':' !in port
    ensures RelaySplit(JoinHostPort(host, port)) == Some((host, port))
  {
    var addr := JoinHostPort(host, port);
    if ':' in host {
      assert addr[|host| + 3..] == port;
      AfterLastIs(addr, ':', |host| + 3);
      var quoted := addr[..|host| + 2];
      assert quoted == "[" + host + "]";
      assert quoted[1..] == host + "]" && (host + "]")[..|host|] == host;
      assert Trim(quoted, BRACKETS) == Trim(host + "]", BRACKETS) == Trim(host, BRACKETS);
    } else {
      assert addr[|host| + 1..] == port;
      AfterLastIs(addr, ':', |host| + 1);
      assert addr[..|host|] == host;
    }
  }

  // ---- Decimal numbers

  predicate IsDigit(c: char) {
    '0' <= c <= '9'
  }

  predicate AllDigits(s: string) {
    s != [] && forall c | c in s :: IsDigit(c)
  }

  function DigitValue(c: char): nat
    requires IsDigit(c)
  {
    (c - '0') as nat
  }

  function DecimalValue(s: string): nat
    requires forall c | c in s :: IsDigit(c)
  {
    if s == [] then 0 else DecimalValue(s[..|s| - 1]) * 10 + DigitValue(s[|s| - 1])
  }

  const MAX_INT: int := 0x7fff_ffff_ffff_ffff

  /** strconv.Atoi: an optional sign, at least one digit, and a value that fits a 64-bit int. */
  function Atoi(s: string): Option<int> {
    var signed := s != [] && (s[0] == '+' || s[0] == '-');
    var digits := if signed then s[1..] else s;
    if !AllDigits(digits) then None
    else
      var v: int := if signed && s[0] == '-' then 0 - DecimalValue(digits) else DecimalValue(digits);
      if -MAX_INT - 1 <= v <= MAX_INT then Some(v) else None
  }

  function Itoa(n: nat): string {
    if n < 10 then [('0' as int + n) as char] else Itoa(n / 10) + [('0' as int + n % 10) as char]
  }

  lemma ItoaDigits(n: nat)
    ensures AllDigits(Itoa(n)) && DecimalValue(Itoa(n)) == n
  {
    if n >= 10 {
      ItoaDigits(n / 10);
      var last := ('0' as int + n % 10) as char;
      assert Itoa(n)[..|Itoa(n)| - 1] == Itoa(n / 10);
    } else {
      assert Itoa(n)[..0] == [];
    }
  }

  /** Reading a printed number gives it back. */
  lemma AtoiOfItoa(n: nat)
    requires n <= MAX_INT
    ensures Atoi(Itoa(n)) == Some(n)
  {
    ItoaDigits(n);
    assert IsDigit(Itoa(n)[0]);
  }

  /** A decimal number with an optional sign. */
  ghost predicate Numeral(s: string, n: int) {
    || (AllDigits(s) && n == DecimalValue(s))
    || (s != [] && s[0] == '+' && AllDigits(s[1..]) && n == DecimalValue(s[1..]))
    || (s != [] && s[0] == '-' && AllDigits(s[1..]) && n == 0 - DecimalValue(s[1..]))
  }

  /** Atoi reads exactly the numerals that fit a signed 64-bit integer. */
  lemma AtoiExactly(s: string, n: int)
    ensures Atoi(s) == Some(n) <==> Numeral(s, n) && -0x8000_0000_0000_0000 <= n <= 0x7fff_ffff_ffff_ffff
  {
    if s != [] {
      assert s[0] in s;
    }
  }
}
