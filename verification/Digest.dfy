/**
 Digest authentication toward an upstream HTTP proxy (internal/proxy/digest.go; section 3.2 of
 RFC 2617). MD5 in hexadecimal is a parameter `hash`, the client nonce an arbitrary string.
 */
module Digest {
  import opened Base
  import opened HostPort
  import Endpoint

  datatype Challenge = Challenge(realm: string, nonce: string, opaq: string, algorithm: string, qop: string)

  const NO_CHALLENGE := Challenge("", "", "", "", "")
  const SPACES: set<char> := {' ', '\t', '\n', '\r', '\U{0B}', '\U{0C}'}
  const QUOTES: set<char> := {'"'}

  function TrimSpace(s: string): string {
    Trim(s, SPACES)
  }

  predicate EqualFold(a: string, b: string) {
    Endpoint.ToLower(a) == Endpoint.ToLower(b)
  }

  // ---- Splitting at commas outside quotes

  /** The splitter from some point on: the piece begun so far and whether a quote is open. */
  function SplitFrom(s: string, cur: string, inQuotes: bool): seq<string>
    decreases |s|
  {
    if s == "" then if cur == "" then [] else [cur]
    else if s[0] == '"' then SplitFrom(s[1..], cur + [s[0]], !inQuotes)
    else if s[0] == ',' && !inQuotes then [cur] + SplitFrom(s[1..], "", inQuotes)
    else SplitFrom(s[1..], cur + [s[0]], inQuotes)
  }

  /**
   splitAuthParams as the program runs it. For every text the pieces, and only these, rejoin to it
   with each comma that was cut standing outside quotes and no comma left outside quotes.
   */
  method SplitAuthParams(s: string) returns (params: seq<string>)
    ensures params == SplitFrom(s, "", false)
    ensures forall pieces :: pieces == params <==> Splits(s, pieces)
  {
    params := [];
    var cur := "";
    var inQuotes := false;
    for i := 0 to |s|
      invariant SplitFrom(s, "", false) == params + SplitFrom(s[i..], cur, inQuotes)
    {
      var r := s[i];
      assert s[i..][0] == r && s[i..][1..] == s[i + 1..];
      if r == '"' {
        inQuotes := !inQuotes;
        cur := cur + [r];
      } else if r == ',' && !inQuotes {
        params := params + [cur];
        cur := "";
      } else {
        cur := cur + [r];
      }
    }
    assert s[|s|..] == "";
    if |cur| > 0 {
      params := params + [cur];
    }
    forall pieces ensures pieces == params <==> Splits(s, pieces) {
      SplitIsExact(s, pieces);
    }
  }

  /** Text with no comma outside quotes, closing every quote it opens. */
  predicate Quiet(p: string, inQuotes: bool) {
    if p == "" then !inQuotes
    else if p[0] == '"' then Quiet(p[1..], !inQuotes)
    else (p[0] != ',' || inQuotes) && Quiet(p[1..], inQuotes)
  }

  lemma {:induction false} SplitPassesQuiet(p: string, rest: string, cur: string, inQuotes: bool)
    requires Quiet(p, inQuotes)
    ensures SplitFrom(p + rest, cur, inQuotes) == SplitFrom(rest, cur + p, false)
    decreases |p|
  {
    if p == "" {
      assert p + rest == rest && cur + p == cur;
    } else {
      assert (p + rest)[1..] == p[1..] + rest;
      assert cur + [p[0]] + p[1..] == cur + p;
      SplitPassesQuiet(p[1..], rest, cur + [p[0]], if p[0] == '"' then !inQuotes else inQuotes);
    }
  }

  /** Pieces with a comma behind all but the last. */
  function Commas(pieces: seq<string>): string {
    if pieces == [] then ""
    else if |pieces| == 1 then pieces[0]
    else pieces[0] + "," + Commas(pieces[1..])
  }

  /** No comma outside quotes; a quote may be left open. */
  predicate Uncut(p: string, inQuotes: bool) {
    if p == "" then true
    else if p[0] == '"' then Uncut(p[1..], !inQuotes)
    else (p[0] != ',' || inQuotes) && Uncut(p[1..], inQuotes)
  }

  /** Whether a quote is open behind p. */
  predicate OpenAfter(p: string, inQuotes: bool) {
    if p == "" then inQuotes else OpenAfter(p[1..], if p[0] == '"' then !inQuotes else inQuotes)
  }

  /**
   `pieces` are the text between the commas outside quotes: every piece but the last closes its
   quotes, so the comma behind it is outside; an empty piece at the very end is dropped.
   */
  ghost predicate Splits(s: string, pieces: seq<string>) {
    if pieces == [] then s == ""
    else
      var last := pieces[|pieces| - 1];
      && (forall i | 0 <= i < |pieces| - 1 :: Quiet(pieces[i], false))
      && (|| (s == Commas(pieces) && last != "" && Uncut(last, false))
          || (s == Commas(pieces) + "," && Quiet(last, false)))
  }

  lemma {:induction false} QuietIs(p: string, inQuotes: bool)
    ensures Quiet(p, inQuotes) <==> Uncut(p, inQuotes) && !OpenAfter(p, inQuotes)
    decreases |p|
  {
    if p != "" {
      QuietIs(p[1..], if p[0] == '"' then !inQuotes else inQuotes);
    }
  }

  lemma {:induction false} UncutSnoc(p: string, c: char, inQuotes: bool)
    ensures Uncut(p + [c], inQuotes) <==> Uncut(p, inQuotes) && (c != ',' || OpenAfter(p, inQuotes))
    ensures OpenAfter(p + [c], inQuotes) <==> (OpenAfter(p, inQuotes) != (c == '"'))
    decreases |p|
  {
    if p == "" {
      assert p + [c] == [c] && [c][1..] == "";
    } else {
      assert (p + [c])[1..] == p[1..] + [c];
      UncutSnoc(p[1..], c, if p[0] == '"' then !inQuotes else inQuotes);
    }
  }

  lemma SplitsCons(p: string, s: string, pieces: seq<string>)
    requires Quiet(p, false) && Splits(s, pieces)
    ensures Splits(p + "," + s, [p] + pieces)
  {
    var all := [p] + pieces;
    assert all[1..] == pieces;
    if pieces == [] {
      assert p + "," + s == Commas(all) + ",";
    } else {
      assert Commas(all) == p + "," + Commas(pieces);
      assert p + "," + (Commas(pieces) + ",") == Commas(all) + ",";
      assert all[|all| - 1] == pieces[|pieces| - 1];
    }
  }

  /** What the splitter returns satisfies the description, from every intermediate point on. */
  lemma {:induction false} SplitFromSplits(s: string, cur: string, inQuotes: bool)
    requires Uncut(cur, false) && (OpenAfter(cur, false) <==> inQuotes)
    ensures Splits(cur + s, SplitFrom(s, cur, inQuotes))
    decreases |s|
  {
    if s == "" {
      assert cur + s == cur;
      SplitsOne(cur);
    } else {
      var c, rest := s[0], s[1..];
      if c == ',' && !inQuotes {
        SplitFromSplits(rest, "", false);
        assert "" + rest == rest;
        QuietIs(cur, false);
        SplitsCons(cur, rest, SplitFrom(rest, "", false));
        assert cur + s == cur + "," + rest;
      } else {
        var open := if c == '"' then !inQuotes else inQuotes;
        UncutSnoc(cur, c, false);
        assert cur + s == cur + [c] + rest;
        assert SplitFrom(s, cur, inQuotes) == SplitFrom(rest, cur + [c], open);
        SplitFromSplits(rest, cur + [c], open);
      }
    }
  }

  lemma SplitsOne(p: string)
    requires Uncut(p, false)
    ensures Splits(p, if p == "" then [] else [p])
  {
  }

  lemma {:induction false} SplitPassesUncut(p: string, cur: string, inQuotes: bool)
    requires Uncut(p, inQuotes) && cur + p != ""
    ensures SplitFrom(p, cur, inQuotes) == [cur + p]
    decreases |p|
  {
    if p == "" {
      assert cur + p == cur;
    } else {
      assert cur + [p[0]] + p[1..] == cur + p;
      SplitPassesUncut(p[1..], cur + [p[0]], if p[0] == '"' then !inQuotes else inQuotes);
    }
  }

  /** Only one list of pieces satisfies the description. */
  lemma {:induction false} SplitsIsSplitFrom(s: string, pieces: seq<string>)
    requires Splits(s, pieces)
    ensures SplitFrom(s, "", false) == pieces
    decreases |pieces|
  {
    if pieces != [] {
      var p, more := pieces[0], pieces[1..];
      assert "" + p == p && pieces == [p] + more;
      if more != [] {
        var rest := if s == Commas(pieces) then Commas(more) else Commas(more) + ",";
        assert s == p + ("," + rest);
        SplitPassesQuiet(p, "," + rest, "", false);
        assert ("," + rest)[1..] == rest;
        assert more[|more| - 1] == pieces[|pieces| - 1];
        SplitsIsSplitFrom(rest, more);
      } else if s == p {
        SplitPassesUncut(p, "", false);
      } else {
        SplitPassesQuiet(p, ",", "", false);
        assert ","[1..] == "";
      }
    }
  }

  lemma SplitIsExact(s: string, pieces: seq<string>)
    ensures SplitFrom(s, "", false) == pieces <==> Splits(s, pieces)
  {
    SplitFromSplits(s, "", false);
    assert "" + s == s;
    if Splits(s, pieces) {
      SplitsIsSplitFrom(s, pieces);
    }
  }

  /** Splitting undoes joining with commas. */
  lemma SplitOfCommas(pieces: seq<string>)
    requires forall i | 0 <= i < |pieces| :: pieces[i] != "" && Quiet(pieces[i], false)
    ensures SplitFrom(Commas(pieces), "", false) == pieces
  {
    if pieces != [] {
      QuietIs(pieces[|pieces| - 1], false);
    }
    SplitsIsSplitFrom(Commas(pieces), pieces);
  }

  // ---- Parameters

  datatype Param = Param(key: string, value: string)

  /** One key=value piece; pieces without an equals sign are skipped. */
  function ParamOf(piece: string): Option<Param> {
    match Cut(piece, '=')
    case None => None
    case Some((key, value)) => Some(Param(Endpoint.ToLower(TrimSpace(key)), Trim(TrimSpace(value), QUOTES)))
  }

  /** Some element of the comma-separated list is "auth". */
  predicate OffersAuth(list: string)
    decreases |list|
  {
    var i := IndexOf(list, ',');
    TrimSpace(list[..i]) == "auth" || (i < |list| && OffersAuth(list[i + 1..]))
  }

  function SetParam(ch: Challenge, p: Param): Challenge {
    if p.key == "realm" then ch.(realm := p.value)
    else if p.key == "nonce" then ch.(nonce := p.value)
    else if p.key == "opaque" then ch.(opaq := p.value)
    else if p.key == "algorithm" then ch.(algorithm := p.value)
    else if p.key == "qop" && OffersAuth(p.value) then ch.(qop := "auth")
    else ch
  }

  function Collect(pieces: seq<string>, ch: Challenge): Challenge
    decreases |pieces|
  {
    if pieces == [] then ch
    else
      match ParamOf(pieces[0])
      case None => Collect(pieces[1..], ch)
      case Some(p) => Collect(pieces[1..], SetParam(ch, p))
  }

  /** The scheme word and the text behind the first space. */
  function SchemeAndRest(header: string): (string, string) {
    match Cut(TrimSpace(header), ' ')
    case None => (TrimSpace(header), "")
    case Some(parts) => parts
  }

  function ParseChallenge(header: string): Option<Challenge> {
    var (scheme, rest) := SchemeAndRest(header);
    if !EqualFold(scheme, "Digest") then None
    else
      var ch := Collect(SplitFrom(rest, "", false), NO_CHALLENGE);
      if ch.nonce == "" then None else Some(ch)
  }

  /** parseDigestChallenge as the program runs it. */
  method ParseDigestChallenge(header: string) returns (r: Option<Challenge>)
    ensures r == ParseChallenge(header)
  {
    var (scheme, rest) := SchemeAndRest(header);
    if !EqualFold(scheme, "Digest") {
      return None;
    }
    var pieces := SplitAuthParams(rest);
    var ch := NO_CHALLENGE;
    for i := 0 to |pieces|
      invariant Collect(pieces, NO_CHALLENGE) == Collect(pieces[i..], ch)
    {
      assert pieces[i..][1..] == pieces[i + 1..];
      var p := ParamOf(pieces[i]);
      if p.Some? {
        ch := SetParam(ch, p.value);
      }
    }
    r := if ch.nonce == "" then None else Some(ch);
  }

  function FirstChallenge(headers: seq<string>): Option<Challenge> {
    if headers == [] then None
    else if ParseChallenge(headers[0]).Some? then ParseChallenge(headers[0])
    else FirstChallenge(headers[1..])
  }

  /** findDigestChallenge: the first header that is a usable Digest challenge. */
  method FindDigestChallenge(headers: seq<string>) returns (r: Option<Challenge>)
    ensures r == FirstChallenge(headers)
    ensures r.Some? ==> exists i | 0 <= i < |headers| ::
                          ParseChallenge(headers[i]) == r && forall j | 0 <= j < i :: ParseChallenge(headers[j]) == None
    ensures r == None <==> forall i | 0 <= i < |headers| :: ParseChallenge(headers[i]) == None
  {
    for i := 0 to |headers|
      invariant forall j | 0 <= j < i :: ParseChallenge(headers[j]) == None
      invariant FirstChallenge(headers) == FirstChallenge(headers[i..])
    {
      assert headers[i..][1..] == headers[i + 1..];
      r := ParseDigestChallenge(headers[i]);
      if r.Some? {
        return;
      }
    }
    r := None;
  }

  // ---- The answer

  /** %q on printable ASCII. */
  function Quote(s: string): string {
    "\"" + Escape(s) + "\""
  }

  function Escape(s: string): string {
    if s == "" then ""
    else (if s[0] == '"' || s[0] == '\\' then ['\\', s[0]] else [s[0]]) + Escape(s[1..])
  }

  datatype Field = Field(key: string, value: string, quoted: bool)

  function Show(f: Field): string {
    f.key + "=" + (if f.quoted then Quote(f.value) else f.value)
  }

  function ShowAll(fields: seq<Field>): string {
    if fields == [] then ""
    else if |fields| == 1 then Show(fields[0])
    else Show(fields[0]) + ", " + ShowAll(fields[1..])
  }

  const NC := "00000001"

  function AlgorithmOf(ch: Challenge): string {
    if ch.algorithm == "" then "MD5" else ch.algorithm
  }

  predicate IsSess(ch: Challenge) {
    EqualFold(AlgorithmOf(ch), "MD5-sess")
  }

  predicate Supported(ch: Challenge) {
    EqualFold(AlgorithmOf(ch), "MD5") || IsSess(ch)
  }

  /** What one request is about, besides the challenge. */
  datatype Request = Request(verb: string, uri: string, user: string, pass: string)

  function Response(hash: string -> string, ch: Challenge, q: Request, cnonce: string): string {
    var base := hash(q.user + ":" + ch.realm + ":" + q.pass);
    var ha1 := if IsSess(ch) then hash(base + ":" + ch.nonce + ":" + cnonce) else base;
    var ha2 := hash(q.verb + ":" + q.uri);
    if ch.qop != "" then hash(ha1 + ":" + ch.nonce + ":" + NC + ":" + cnonce + ":" + ch.qop + ":" + ha2)
    else hash(ha1 + ":" + ch.nonce + ":" + ha2)
  }

  function AlwaysFields(ch: Challenge, q: Request, response: string): seq<Field> {
    [Field("username", q.user, true), Field("realm", ch.realm, true), Field("nonce", ch.nonce, true),
     Field("uri", q.uri, true), Field("response", response, true)]
  }

  function OptionalFields(ch: Challenge, cnonce: string): seq<Field> {
    (if ch.opaq != "" then [Field("opaque", ch.opaq, true)] else [])
    + (if ch.algorithm != "" then [Field("algorithm", AlgorithmOf(ch), false)] else [])
    + (if ch.qop != "" then [Field("qop", ch.qop, false), Field("nc", NC, false), Field("cnonce", cnonce, true)] else [])
  }

  function Fields(hash: string -> string, ch: Challenge, q: Request, cnonce: string): seq<Field> {
    AlwaysFields(ch, q, Response(hash, ch, q, cnonce)) + OptionalFields(ch, cnonce)
  }

  /** The header for a given client nonce; None stands for the unsupported-algorithm error. */
  function Build(hash: string -> string, ch: Challenge, q: Request, cnonce: string): Option<string> {
    if !Supported(ch) then None else Some("Digest " + ShowAll(Fields(hash, ch, q, cnonce)))
  }

  /** buildDigestAuthorization; `random` is what randomHex returned, if it did not fail. */
  function BuildAuthorization(hash: string -> string, ch: Challenge, q: Request, random: Option<string>): Option<string> {
    if !Supported(ch) || random == None then None else Build(hash, ch, q, random.value)
  }
}
