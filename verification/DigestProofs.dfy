/** The digest header parses back to the challenge it answers, and a server can check it. */
module DigestProofs {
  import opened Base
  import opened HostPort
  import opened Digest
  import Endpoint

  /** Printable ASCII without quote and backslash: commas, equals signs and spaces are allowed. */
  predicate Plain(s: string) {
    forall c | c in s :: ' ' <= c <= '~' && c != '"' && c != '\\'
  }

  /** An unquoted value. */
  predicate TokenText(s: string) {
    s != "" && Plain(s) && ' ' !in s && ',' !in s
  }

  predicate LowerKey(s: string) {
    s != "" && forall c | c in s :: 'a' <= c <= 'z'
  }

  predicate Clean(f: Field) {
    LowerKey(f.key) && if f.quoted then Plain(f.value) else TokenText(f.value)
  }

  // ---- Rendered fields pass the splitter as one piece each

  lemma {:induction false} EscapePlain(s: string)
    requires Plain(s)
    ensures Escape(s) == s
    decreases |s|
  {
    if s != "" {
      assert s == [s[0]] + s[1..];
      assert s[0] in s && forall c | c in s[1..] :: c in s;
      EscapePlain(s[1..]);
    }
  }

  lemma {:induction false} QuietRuns(t: string, rest: string, inQuotes: bool)
    requires '"' !in t && (inQuotes || ',' !in t)
    ensures Quiet(t + rest, inQuotes) == Quiet(rest, inQuotes)
    decreases |t|
  {
    if t == "" {
      assert t + rest == rest;
    } else {
      assert (t + rest)[1..] == t[1..] + rest;
      assert t[0] in t && forall c | c in t[1..] :: c in t;
      QuietRuns(t[1..], rest, inQuotes);
    }
  }

  lemma QuietQuoted(v: string)
    requires '"' !in v
    ensures Quiet("\"" + v + "\"", false)
  {
    var s := "\"" + v + "\"";
    assert s[1..] == v + "\"";
    QuietRuns(v, "\"", true);
    assert "\""[1..] == "";
  }

  /** What stands behind the equals sign. */
  function Shown(f: Field): string {
    if f.quoted then "\"" + f.value + "\"" else f.value
  }

  lemma ShowIs(f: Field)
    requires Clean(f)
    ensures Show(f) == f.key + "=" + Shown(f)
  {
    if f.quoted {
      EscapePlain(f.value);
    }
  }

  lemma ShowQuiet(f: Field, lead: string)
    requires Clean(f) && (lead == "" || lead == " ")
    ensures Quiet(lead + Show(f), false) && lead + Show(f) != ""
  {
    ShowIs(f);
    var head := lead + f.key + "=";
    assert lead + Show(f) == head + Shown(f);
    assert forall c | c in head :: c in f.key || c == ' ' || c == '=';
    QuietRuns(head, Shown(f), false);
    if f.quoted {
      QuietQuoted(f.value);
    } else {
      QuietRuns(f.value, "", false);
      assert f.value + "" == f.value;
    }
  }

  // ---- ... and are read back

  lemma TrimIdentity(s: string, drop: set<char>)
    requires s != "" && s[0] !in drop && s[|s| - 1] !in drop
    ensures Trim(s, drop) == s
  {
  }

  lemma TrimQuoted(v: string)
    requires '"' !in v
    ensures Trim("\"" + v + "\"", QUOTES) == v
  {
    var s := "\"" + v + "\"";
    var t := v + "\"";
    assert s[1..] == t;
    if v == "" {
      assert t[0] == '"' && t[1..] == "" && Trim("", QUOTES) == "";
      assert Trim(t, QUOTES) == "";
    } else {
      assert v[0] in v && v[|v| - 1] in v;
      assert t[0] == v[0] && t[..|v|] == v;
      TrimIdentity(v, QUOTES);
    }
  }

  lemma LowerKeyLower(key: string)
    requires LowerKey(key)
    ensures Endpoint.ToLower(key) == key
  {
    assert forall i | 0 <= i < |key| :: key[i] in key;
  }

  lemma TrimLead(key: string, lead: string)
    requires LowerKey(key) && (lead == "" || lead == " ")
    ensures TrimSpace(lead + key) == key
  {
    assert key[0] in key && key[|key| - 1] in key;
    TrimIdentity(key, SPACES);
    if lead == " " {
      assert (lead + key)[1..] == key;
    } else {
      assert lead + key == key;
    }
  }

  lemma ValueReadsBack(f: Field)
    requires Clean(f)
    ensures Trim(TrimSpace(Shown(f)), QUOTES) == f.value
  {
    var v := Shown(f);
    if f.quoted {
      TrimIdentity(v, SPACES);
      TrimQuoted(f.value);
    } else {
      assert v[0] in v && v[|v| - 1] in v;
      TrimIdentity(v, SPACES);
      TrimIdentity(v, QUOTES);
    }
  }

  lemma ParamReadsBack(f: Field, lead: string)
    requires Clean(f) && (lead == "" || lead == " ")
    ensures ParamOf(lead + Show(f)) == Some(Param(f.key, f.value))
  {
    ShowIs(f);
    var left := lead + f.key;
    var piece := left + "=" + Shown(f);
    assert lead + Show(f) == piece;
    assert piece[..|left|] == left;
    assert forall c | c in left :: c in f.key || c == ' ';
    IndexOfIs(piece, '=', |left|);
    assert piece[|left| + 1..] == Shown(f);
    TrimLead(f.key, lead);
    LowerKeyLower(f.key);
    ValueReadsBack(f);
  }

  // ---- The whole list

  ghost predicate AllClean(fields: seq<Field>) {
    forall i | 0 <= i < |fields| :: Clean(fields[i])
  }

  /** The pieces between the commas: all but the first begin with a space. */
  function Pieces(fields: seq<Field>, lead: string): seq<string>
    decreases |fields|
  {
    if fields == [] then [] else [lead + Show(fields[0])] + Pieces(fields[1..], " ")
  }

  lemma {:induction false} ShowAllIsCommas(fields: seq<Field>, lead: string)
    requires fields != []
    ensures lead + ShowAll(fields) == Commas(Pieces(fields, lead)) && |Pieces(fields, lead)| == |fields|
    decreases |fields|
  {
    var pieces := Pieces(fields, lead);
    if |fields| == 1 {
      assert pieces == [lead + Show(fields[0])];
    } else {
      ShowAllIsCommas(fields[1..], " ");
      assert pieces[1..] == Pieces(fields[1..], " ");
      assert lead + ShowAll(fields) == lead + Show(fields[0]) + "," + (" " + ShowAll(fields[1..]));
    }
  }

  lemma {:induction false} PiecesQuiet(fields: seq<Field>, lead: string)
    requires AllClean(fields) && (lead == "" || lead == " ")
    ensures forall i | 0 <= i < |Pieces(fields, lead)| :: Pieces(fields, lead)[i] != "" && Quiet(Pieces(fields, lead)[i], false)
    decreases |fields|
  {
    if fields != [] {
      ShowQuiet(fields[0], lead);
      PiecesQuiet(fields[1..], " ");
    }
  }

  /** Splitting a rendered list gives its fields back as pieces. */
  lemma SplitShown(fields: seq<Field>)
    requires fields != [] && AllClean(fields)
    ensures SplitFrom(ShowAll(fields), "", false) == Pieces(fields, "")
  {
    ShowAllIsCommas(fields, "");
    assert "" + ShowAll(fields) == ShowAll(fields);
    PiecesQuiet(fields, "");
    SplitOfCommas(Pieces(fields, ""));
  }

  lemma {:induction false} ShowAllEnds(fields: seq<Field>)
    requires fields != [] && AllClean(fields)
    ensures ShowAll(fields) != "" && ShowAll(fields)[|ShowAll(fields)| - 1] !in SPACES
    decreases |fields|
  {
    if |fields| == 1 {
      var f := fields[0];
      ShowIs(f);
      assert !f.quoted ==> f.value[|f.value| - 1] in f.value;
    } else {
      ShowAllEnds(fields[1..]);
    }
  }

  lemma HeaderSplits(fields: seq<Field>)
    requires fields != [] && AllClean(fields)
    ensures SchemeAndRest("Digest " + ShowAll(fields)) == ("Digest", ShowAll(fields))
  {
    var header := "Digest " + ShowAll(fields);
    ShowAllEnds(fields);
    TrimIdentity(header, SPACES);
    assert header[..6] == "Digest";
    IndexOfIs(header, ' ', 6);
    assert header[7..] == ShowAll(fields);
  }

  function CollectFields(fields: seq<Field>, ch: Challenge): Challenge
    decreases |fields|
  {
    if fields == [] then ch else CollectFields(fields[1..], SetParam(ch, Param(fields[0].key, fields[0].value)))
  }

  lemma {:induction false} CollectReadsBack(fields: seq<Field>, lead: string, ch: Challenge)
    requires AllClean(fields) && (lead == "" || lead == " ")
    ensures Collect(Pieces(fields, lead), ch) == CollectFields(fields, ch)
    decreases |fields|
  {
    if fields != [] {
      ParamReadsBack(fields[0], lead);
      assert Pieces(fields, lead)[1..] == Pieces(fields[1..], " ");
      CollectReadsBack(fields[1..], " ", SetParam(ch, Param(fields[0].key, fields[0].value)));
    }
  }

  lemma {:induction false} CollectAppend(a: seq<Field>, b: seq<Field>, ch: Challenge)
    ensures CollectFields(a + b, ch) == CollectFields(b, CollectFields(a, ch))
    decreases |a|
  {
    if a == [] {
      assert a + b == b;
    } else {
      assert (a + b)[1..] == a[1..] + b;
      CollectAppend(a[1..], b, SetParam(ch, Param(a[0].key, a[0].value)));
    }
  }

  // ---- The round trip

  /** The hash prints as plain text, as hexadecimal does. */
  ghost predicate PlainHash(hash: string -> string) {
    forall s: string :: Plain(hash(s))
  }

  /** Challenges and requests whose text survives quoting. */
  predicate Printable(ch: Challenge, q: Request, cnonce: string) {
    && Plain(ch.realm) && Plain(ch.nonce) && Plain(ch.opaq) && Plain(q.user) && Plain(q.uri) && Plain(cnonce)
    && ch.nonce != "" && (ch.qop == "auth" || ch.qop == "")
  }

  lemma FoldedIsToken(s: string, t: string)
    requires EqualFold(s, t) && TokenText(t)
    ensures TokenText(s)
  {
    forall i | 0 <= i < |s| ensures ' ' < s[i] <= '~' && s[i] != '"' && s[i] != '\\' && s[i] != ',' {
      assert Endpoint.ToLower(s)[i] == Endpoint.ToLower(t)[i];
      assert t[i] in t;
    }
    assert |s| == |Endpoint.ToLower(s)| == |Endpoint.ToLower(t)| == |t|;
  }

  lemma AlwaysClean(ch: Challenge, q: Request, response: string)
    requires Plain(ch.realm) && Plain(ch.nonce) && Plain(q.user) && Plain(q.uri) && Plain(response)
    ensures AllClean(AlwaysFields(ch, q, response))
  {
    assert LowerKey("username") && LowerKey("realm") && LowerKey("nonce") && LowerKey("uri") && LowerKey("response");
  }

  lemma AlgorithmIsToken(ch: Challenge)
    requires Supported(ch) && ch.algorithm != ""
    ensures TokenText(ch.algorithm)
  {
    if EqualFold(ch.algorithm, "MD5") {
      FoldedIsToken(ch.algorithm, "MD5");
    } else {
      FoldedIsToken(ch.algorithm, "MD5-sess");
    }
  }

  lemma OptionalClean(ch: Challenge, cnonce: string)
    requires Plain(ch.opaq) && Plain(cnonce) && (ch.qop == "auth" || ch.qop == "") && Supported(ch)
    ensures AllClean(OptionalFields(ch, cnonce))
  {
    if ch.algorithm != "" {
      AlgorithmIsToken(ch);
    }
    OptionalKeys();
  }

  lemma OptionalKeys()
    ensures LowerKey("opaque") && LowerKey("algorithm") && LowerKey("qop") && LowerKey("nc") && LowerKey("cnonce")
    ensures TokenText(NC) && TokenText("auth")
  {
    assert forall c | c in NC :: c == '0' || c == '1';
  }

  lemma FieldsClean(hash: string -> string, ch: Challenge, q: Request, cnonce: string)
    requires PlainHash(hash) && Printable(ch, q, cnonce) && Supported(ch)
    ensures AllClean(Fields(hash, ch, q, cnonce))
  {
    var response := Response(hash, ch, q, cnonce);
    assert Plain(response);
    AlwaysClean(ch, q, response);
    OptionalClean(ch, cnonce);
  }

  lemma CollectOne(f: Field, ch: Challenge)
    ensures CollectFields([f], ch) == SetParam(ch, Param(f.key, f.value))
  {
  }

  lemma CollectAlways(ch: Challenge, q: Request, response: string)
    ensures CollectFields(AlwaysFields(ch, q, response), NO_CHALLENGE) == Challenge(ch.realm, ch.nonce, "", "", "")
  {
    var fields := AlwaysFields(ch, q, response);
    var after3 := Challenge(ch.realm, ch.nonce, "", "", "");
    assert fields[1..][1..][1..] == fields[3..] && fields[3..][1..] == fields[4..] && fields[4..][1..] == [];
    assert CollectFields(fields[3..], after3) == after3 by {
      assert CollectFields(fields[4..], after3) == after3;
    }
    assert CollectFields(fields, NO_CHALLENGE) == CollectFields(fields[1..], NO_CHALLENGE);
    assert CollectFields(fields[1..], NO_CHALLENGE) == CollectFields(fields[1..][1..], NO_CHALLENGE.(realm := ch.realm));
  }

  lemma OffersAuthAuth()
    ensures OffersAuth("auth")
  {
    var list := "auth";
    assert ',' !in list;
    assert list[..IndexOf(list, ',')] == list;
    TrimIdentity(list, SPACES);
  }

  lemma CollectQop(cnonce: string, ch: Challenge)
    ensures CollectFields([Field("qop", "auth", false), Field("nc", NC, false), Field("cnonce", cnonce, true)], ch) == ch.(qop := "auth")
  {
    OffersAuthAuth();
    var a, b, c := Field("qop", "auth", false), Field("nc", NC, false), Field("cnonce", cnonce, true);
    assert [a, b, c][1..] == [b, c] && [b, c][1..] == [c];
    CollectOne(c, ch.(qop := "auth"));
  }

  lemma CollectOptional(ch: Challenge, cnonce: string, start: Challenge)
    requires ch.qop == "auth" || ch.qop == ""
    requires start.opaq == start.algorithm == start.qop == ""
    ensures CollectFields(OptionalFields(ch, cnonce), start) == start.(opaq := ch.opaq, algorithm := ch.algorithm, qop := ch.qop)
  {
    var a := if ch.opaq != "" then [Field("opaque", ch.opaq, true)] else [];
    var b := if ch.algorithm != "" then [Field("algorithm", AlgorithmOf(ch), false)] else [];
    var c := if ch.qop != "" then [Field("qop", ch.qop, false), Field("nc", NC, false), Field("cnonce", cnonce, true)] else [];
    CollectAppend(a + b, c, start);
    CollectAppend(a, b, start);
    var withOpaq := start.(opaq := ch.opaq);
    var withAlg := withOpaq.(algorithm := ch.algorithm);
    CollectOne(Field("opaque", ch.opaq, true), start);
    CollectOne(Field("algorithm", AlgorithmOf(ch), false), withOpaq);
    assert CollectFields(a, start) == withOpaq;
    assert CollectFields(b, withOpaq) == withAlg;
    CollectQop(cnonce, withAlg);
  }

  /**
   Print and parse: for every challenge with a nonce, a supported algorithm and qop "auth" or none,
   over plain text, the header built in answer to it parses to exactly that challenge.
   */
  lemma BuiltHeaderParsesBack(hash: string -> string, ch: Challenge, q: Request, cnonce: string)
    requires PlainHash(hash) && Printable(ch, q, cnonce) && Supported(ch)
    ensures Build(hash, ch, q, cnonce).Some? && ParseChallenge(Build(hash, ch, q, cnonce).value) == Some(ch)
  {
    var response := Response(hash, ch, q, cnonce);
    var fields := Fields(hash, ch, q, cnonce);
    FieldsClean(hash, ch, q, cnonce);
    HeaderSplits(fields);
    SplitShown(fields);
    CollectReadsBack(fields, "", NO_CHALLENGE);
    CollectAppend(AlwaysFields(ch, q, response), OptionalFields(ch, cnonce), NO_CHALLENGE);
    CollectAlways(ch, q, response);
    CollectOptional(ch, cnonce, Challenge(ch.realm, ch.nonce, "", "", ""));
  }

  // ---- The server's check

  /** The value of the first parameter with this key. */
  function Lookup(pieces: seq<string>, key: string): Option<string>
    decreases |pieces|
  {
    if pieces == [] then None
    else
      match ParamOf(pieces[0])
      case Some(Param(k, v)) => if k == key then Some(v) else Lookup(pieces[1..], key)
      case None => Lookup(pieces[1..], key)
  }

  function LookupField(fields: seq<Field>, key: string): Option<string>
    decreases |fields|
  {
    if fields == [] then None else if fields[0].key == key then Some(fields[0].value) else LookupField(fields[1..], key)
  }

  lemma {:induction false} LookupReadsBack(fields: seq<Field>, lead: string, key: string)
    requires AllClean(fields) && (lead == "" || lead == " ")
    ensures Lookup(Pieces(fields, lead), key) == LookupField(fields, key)
    decreases |fields|
  {
    if fields != [] {
      ParamReadsBack(fields[0], lead);
      assert Pieces(fields, lead)[1..] == Pieces(fields[1..], " ");
      LookupReadsBack(fields[1..], " ", key);
    }
  }

  /** The parameters of a header by key. */
  function HeaderParam(header: string, key: string): Option<string> {
    Lookup(SplitFrom(SchemeAndRest(header).1, "", false), key)
  }

  function OrEmpty(s: Option<string>): string {
    if s.Some? then s.value else ""
  }

  /**
   The response a server computes from the header, the method and the password it knows, by
   section 3.2.2.1 of RFC 2617; None if the header lacks a value the computation needs.
   */
  function Recompute(hash: string -> string, param: string -> Option<string>, verb: string, pass: string): Option<string> {
    var sess := EqualFold(OrEmpty(param("algorithm")), "MD5-sess");
    var cnonce := param("cnonce");
    if (sess || param("qop").Some?) && cnonce == None then None
    else
      var secret := hash(OrEmpty(param("username")) + ":" + OrEmpty(param("realm")) + ":" + pass);
      var ha1 := if sess then hash(secret + ":" + OrEmpty(param("nonce")) + ":" + OrEmpty(cnonce)) else secret;
      var ha2 := hash(verb + ":" + OrEmpty(param("uri")));
      if param("qop").Some? then
        Some(hash(ha1 + ":" + OrEmpty(param("nonce")) + ":" + OrEmpty(param("nc")) + ":" + OrEmpty(cnonce) + ":"
                  + OrEmpty(param("qop")) + ":" + ha2))
      else Some(hash(ha1 + ":" + OrEmpty(param("nonce")) + ":" + ha2))
  }

  lemma {:induction false} LookupAppend(a: seq<Field>, b: seq<Field>, key: string)
    ensures LookupField(a + b, key) == if LookupField(a, key).Some? then LookupField(a, key) else LookupField(b, key)
    decreases |a|
  {
    if a == [] {
      assert a + b == b;
    } else {
      assert (a + b)[1..] == a[1..] + b;
      LookupAppend(a[1..], b, key);
    }
  }

  lemma {:induction false} LookupAbsent(fields: seq<Field>, key: string)
    requires forall i | 0 <= i < |fields| :: fields[i].key != key
    ensures LookupField(fields, key) == None
    decreases |fields|
  {
    if fields != [] {
      LookupAbsent(fields[1..], key);
    }
  }

  lemma {:induction false} LookupAt(fields: seq<Field>, i: nat)
    requires i < |fields| && forall j | 0 <= j < i :: fields[j].key != fields[i].key
    ensures LookupField(fields, fields[i].key) == Some(fields[i].value)
    decreases |fields|
  {
    if i > 0 {
      LookupAt(fields[1..], i - 1);
    }
  }

  lemma AlwaysLookups(ch: Challenge, q: Request, response: string)
    ensures var fs := AlwaysFields(ch, q, response);
            && LookupField(fs, "username") == Some(q.user) && LookupField(fs, "realm") == Some(ch.realm)
            && LookupField(fs, "nonce") == Some(ch.nonce) && LookupField(fs, "uri") == Some(q.uri)
            && LookupField(fs, "response") == Some(response)
            && LookupField(fs, "algorithm") == LookupField(fs, "qop") == LookupField(fs, "nc") == LookupField(fs, "cnonce") == None
  {
    var fs := AlwaysFields(ch, q, response);
    LookupAt(fs, 0);
    LookupAt(fs, 1);
    LookupAt(fs, 2);
    LookupAt(fs, 3);
    LookupAt(fs, 4);
    LookupAbsent(fs, "algorithm");
    LookupAbsent(fs, "qop");
    LookupAbsent(fs, "nc");
    LookupAbsent(fs, "cnonce");
  }

  function IfSet(s: string, v: string): Option<string> {
    if s != "" then Some(v) else None
  }

  lemma OptionalLookups(ch: Challenge, cnonce: string)
    ensures var fs := OptionalFields(ch, cnonce);
            && LookupField(fs, "algorithm") == IfSet(ch.algorithm, ch.algorithm)
            && LookupField(fs, "qop") == IfSet(ch.qop, ch.qop)
            && LookupField(fs, "nc") == IfSet(ch.qop, NC)
            && LookupField(fs, "cnonce") == IfSet(ch.qop, cnonce)
  {
    var a := if ch.opaq != "" then [Field("opaque", ch.opaq, true)] else [];
    var b := if ch.algorithm != "" then [Field("algorithm", AlgorithmOf(ch), false)] else [];
    var c := if ch.qop != "" then [Field("qop", ch.qop, false), Field("nc", NC, false), Field("cnonce", cnonce, true)] else [];
    LookupThree(a, b, c, "algorithm");
    LookupThree(a, b, c, "qop");
    LookupThree(a, b, c, "nc");
    LookupThree(a, b, c, "cnonce");
    QopLookups(c);
  }

  lemma LookupThree(a: seq<Field>, b: seq<Field>, c: seq<Field>, key: string)
    requires |a| <= 1 && |b| <= 1
    requires (a == [] || a[0].key == "opaque") && (b == [] || b[0].key == "algorithm") && key != "opaque"
    ensures LookupField(a + b + c, key) ==
            if key == "algorithm" && b != [] then Some(b[0].value) else LookupField(c, key)
  {
    LookupAppend(a + b, c, key);
    LookupAppend(a, b, key);
  }

  lemma QopLookups(c: seq<Field>)
    requires c == [] || (|c| == 3 && c[0].key == "qop" && c[1].key == "nc" && c[2].key == "cnonce")
    ensures LookupField(c, "algorithm") == None
    ensures c == [] ==> LookupField(c, "qop") == LookupField(c, "nc") == LookupField(c, "cnonce") == None
    ensures c != [] ==> LookupField(c, "qop") == Some(c[0].value) && LookupField(c, "nc") == Some(c[1].value)
                        && LookupField(c, "cnonce") == Some(c[2].value)
  {
    if c != [] {
      QopKeysDiffer();
      assert c == [c[0], c[1], c[2]];
      LookupOfThree(c[0], c[1], c[2], "algorithm");
      LookupOfThree(c[0], c[1], c[2], "qop");
      LookupOfThree(c[0], c[1], c[2], "nc");
      LookupOfThree(c[0], c[1], c[2], "cnonce");
    }
  }

  lemma QopKeysDiffer()
    ensures "qop" != "nc" && "qop" != "cnonce" && "nc" != "cnonce" && "algorithm" !in ["qop", "nc", "cnonce"]
  {
  }

  lemma LookupOfThree(f: Field, g: Field, h: Field, key: string)
    ensures LookupField([f, g, h], key) ==
            if f.key == key then Some(f.value) else if g.key == key then Some(g.value) else if h.key == key then Some(h.value) else None
  {
    assert [f, g, h][1..] == [g, h] && [g, h][1..] == [h] && [h][1..] == [];
    assert LookupField([h], key) == if h.key == key then Some(h.value) else None;
    assert LookupField([g, h], key) == if g.key == key then Some(g.value) else LookupField([h], key);
  }

  lemma HeaderParamIs(hash: string -> string, ch: Challenge, q: Request, cnonce: string, key: string)
    requires PlainHash(hash) && Printable(ch, q, cnonce) && Supported(ch)
    ensures HeaderParam(Build(hash, ch, q, cnonce).value, key) == LookupField(Fields(hash, ch, q, cnonce), key)
  {
    var fields := Fields(hash, ch, q, cnonce);
    FieldsClean(hash, ch, q, cnonce);
    HeaderSplits(fields);
    SplitShown(fields);
    LookupReadsBack(fields, "", key);
  }

  /** What a server reads out of the header. */
  lemma HeaderParams(hash: string -> string, ch: Challenge, q: Request, cnonce: string)
    requires PlainHash(hash) && Printable(ch, q, cnonce) && Supported(ch)
    ensures var h := Build(hash, ch, q, cnonce).value;
            && HeaderParam(h, "username") == Some(q.user) && HeaderParam(h, "realm") == Some(ch.realm)
            && HeaderParam(h, "nonce") == Some(ch.nonce) && HeaderParam(h, "uri") == Some(q.uri)
            && HeaderParam(h, "response") == Some(Response(hash, ch, q, cnonce))
            && HeaderParam(h, "algorithm") == IfSet(ch.algorithm, ch.algorithm) && HeaderParam(h, "qop") == IfSet(ch.qop, ch.qop)
            && HeaderParam(h, "nc") == IfSet(ch.qop, NC) && HeaderParam(h, "cnonce") == IfSet(ch.qop, cnonce)
  {
    AlwaysLookups(ch, q, Response(hash, ch, q, cnonce));
    OptionalLookups(ch, cnonce);
    HeaderParamIn(hash, ch, q, cnonce, "username");
    HeaderParamIn(hash, ch, q, cnonce, "realm");
    HeaderParamIn(hash, ch, q, cnonce, "nonce");
    HeaderParamIn(hash, ch, q, cnonce, "uri");
    HeaderParamIn(hash, ch, q, cnonce, "response");
    HeaderParamIn(hash, ch, q, cnonce, "algorithm");
    HeaderParamIn(hash, ch, q, cnonce, "qop");
    HeaderParamIn(hash, ch, q, cnonce, "nc");
    HeaderParamIn(hash, ch, q, cnonce, "cnonce");
  }

  lemma HeaderParamIn(hash: string -> string, ch: Challenge, q: Request, cnonce: string, key: string)
    requires PlainHash(hash) && Printable(ch, q, cnonce) && Supported(ch)
    ensures var always := LookupField(AlwaysFields(ch, q, Response(hash, ch, q, cnonce)), key);
            HeaderParam(Build(hash, ch, q, cnonce).value, key) ==
            if always.Some? then always else LookupField(OptionalFields(ch, cnonce), key)
  {
    HeaderParamIs(hash, ch, q, cnonce, key);
    LookupAppend(AlwaysFields(ch, q, Response(hash, ch, q, cnonce)), OptionalFields(ch, cnonce), key);
  }

  /**
   A server that knows the password recomputes exactly the response in the header, from the header
   and the method alone, if and only if qop is "auth" or the algorithm is not MD5-sess: with MD5-sess
   and no qop the header carries no client nonce to compute with.
   */
  lemma ServerCanVerify(hash: string -> string, ch: Challenge, q: Request, cnonce: string)
    requires PlainHash(hash) && Printable(ch, q, cnonce) && Supported(ch)
    ensures var h := Build(hash, ch, q, cnonce).value;
            Recompute(hash, key => HeaderParam(h, key), q.verb, q.pass) == HeaderParam(h, "response")
            <==> ch.qop == "auth" || !IsSess(ch)
  {
    HeaderParams(hash, ch, q, cnonce);
  }

  /** KD of section 3.2.1 of RFC 2617. */
  function Keyed(hash: string -> string, secret: string, data: string): string {
    hash(secret + ":" + data)
  }

  /** The request-digest of section 3.2.2.1 of RFC 2617, with A1 of 3.2.2.2 and A2 of 3.2.2.3. */
  function RequestDigest(hash: string -> string, user: string, realm: string, pass: string, verb: string, uri: string,
                         nonce: string, cnonce: string, sess: bool, auth: bool): string {
    var a1 := if sess then Keyed(hash, user, realm + ":" + pass) + ":" + nonce + ":" + cnonce else user + ":" + realm + ":" + pass;
    var a2 := verb + ":" + uri;
    Keyed(hash, hash(a1), nonce + ":" + (if auth then "00000001" + ":" + cnonce + ":" + "auth" + ":" else "") + hash(a2))
  }

  lemma JoinThree(a: string, b: string, c: string)
    ensures a + ":" + b + ":" + c == a + ":" + (b + ":" + c)
  {
  }

  lemma JoinSix(a: string, b: string, c: string, d: string, e: string, f: string)
    ensures a + ":" + b + ":" + c + ":" + d + ":" + e + ":" + f == a + ":" + (b + ":" + (c + ":" + d + ":" + e + ":") + f)
  {
    assert b + ":" + (c + ":" + d + ":" + e + ":") + f == b + ":" + c + ":" + d + ":" + e + ":" + f;
  }

  lemma ResponseIsRequestDigest(hash: string -> string, ch: Challenge, q: Request, cnonce: string)
    requires ch.qop == "auth" || ch.qop == ""
    ensures Response(hash, ch, q, cnonce) ==
            RequestDigest(hash, q.user, ch.realm, q.pass, q.verb, q.uri, ch.nonce, cnonce, IsSess(ch), ch.qop == "auth")
  {
    JoinThree(q.user, ch.realm, q.pass);
    var base := hash(q.user + ":" + ch.realm + ":" + q.pass);
    var ha1 := if IsSess(ch) then hash(base + ":" + ch.nonce + ":" + cnonce) else base;
    var ha2 := hash(q.verb + ":" + q.uri);
    if ch.qop == "auth" {
      JoinSix(ha1, ch.nonce, NC, cnonce, "auth", ha2);
    } else {
      JoinThree(ha1, ch.nonce, ha2);
      assert ch.nonce + ":" + "" + ha2 == ch.nonce + ":" + ha2;
    }
  }

  /** Quoted text is read back by dropping the quotes and the backslash of each escaped character. */
  function Unescape(s: string): string {
    if s == "" then ""
    else if s[0] == '\\' && |s| > 1 then [s[1]] + Unescape(s[2..])
    else [s[0]] + Unescape(s[1..])
  }

  lemma {:induction false} UnescapeOfEscape(s: string)
    ensures Unescape(Escape(s)) == s
    decreases |s|
  {
    if s != "" {
      UnescapeOfEscape(s[1..]);
      assert s == [s[0]] + s[1..];
      var rest := Escape(s[1..]);
      if s[0] == '"' || s[0] == '\\' {
        assert (['\\', s[0]] + rest)[2..] == rest;
      } else {
        assert ([s[0]] + rest)[1..] == rest;
      }
    }
  }

  /** Quote marks the text off whatever it holds: it reads back, and no quote inside is bare. */
  lemma QuoteReadsBack(s: string)
    ensures var q := Quote(s);
            && |q| >= 2 && q[0] == '"' && q[|q| - 1] == '"'
            && Unescape(q[1..|q| - 1]) == s && NoBareQuote(q[1..|q| - 1])
  {
    var q := Quote(s);
    assert q[1..|q| - 1] == Escape(s);
    UnescapeOfEscape(s);
    EscapeHidesQuotes(s);
  }

  /** Every quote follows a backslash that is not itself escaped. */
  predicate NoBareQuote(s: string) {
    if s == "" then true
    else if s[0] == '\\' && |s| > 1 then NoBareQuote(s[2..])
    else s[0] != '"' && NoBareQuote(s[1..])
  }

  lemma {:induction false} EscapeHidesQuotes(s: string)
    ensures NoBareQuote(Escape(s))
    decreases |s|
  {
    if s != "" {
      EscapeHidesQuotes(s[1..]);
      var rest := Escape(s[1..]);
      if s[0] == '"' || s[0] == '\\' {
        assert (['\\', s[0]] + rest)[2..] == rest;
      } else {
        assert ([s[0]] + rest)[1..] == rest;
      }
    }
  }

  // ---- Why nothing else could verify it

  /** Text of n zeroes. */
  function Zeroes(n: nat): string {
    seq(n, _ => '0')
  }

  /** The long strings that the distinguishing hash singles out. */
  function Inner1(ch: Challenge, w: string): string {
    "0:" + ch.nonce + ":" + w
  }

  function Outer1(ch: Challenge, w: string): string {
    "1" + w + ":" + ch.nonce + ":0"
  }

  /** A hash that tells the client nonce `w` from the empty one. */
  function Telling(ch: Challenge, w: string): string -> string {
    (s: string) => if s == Inner1(ch, w) then "1" + w else if s == Outer1(ch, w) then "1" else "0"
  }

  lemma TellingPlain(ch: Challenge, n: nat)
    ensures PlainHash(Telling(ch, Zeroes(n))) && Plain(Zeroes(n))
  {
    assert forall c | c in "1" + Zeroes(n) :: c == '0' || c == '1';
  }

  lemma TellingResponses(ch: Challenge, q: Request, n: nat)
    requires IsSess(ch) && ch.qop == "" && n > 1
    requires n > |q.user| + |ch.realm| + |q.pass| + 2 && n > |q.verb| + |q.uri| + 1
    ensures var hash := Telling(ch, Zeroes(n));
            Response(hash, ch, q, Zeroes(n)) == "1" && Response(hash, ch, q, "") == "0"
  {
    var w := Zeroes(n);
    var hash := Telling(ch, w);
    assert hash(q.user + ":" + ch.realm + ":" + q.pass) == "0";
    assert hash(q.verb + ":" + q.uri) == "0";
    var inner1, outer1 := Inner1(ch, w), Outer1(ch, w);
    assert inner1[0] == '0' && outer1[0] == '1';
    assert "0" + ":" + ch.nonce + ":" + w == inner1;
    assert hash(inner1) == "1" + w && hash(outer1) == "1";
    assert "1" + w + ":" + ch.nonce + ":" + "0" == outer1;
    var inner2 := "0" + ":" + ch.nonce + ":" + "";
    assert inner2[0] == '0' && |inner2| < |inner1| && hash(inner2) == "0";
    var outer2 := "0" + ":" + ch.nonce + ":" + "0";
    assert outer2[0] == '0' && |outer2| < |inner1| && hash(outer2) == "0";
  }

  lemma OtherParamsEqual(hash: string -> string, ch: Challenge, q: Request, c1: string, c2: string, key: string)
    requires PlainHash(hash) && Printable(ch, q, c1) && Printable(ch, q, c2) && Supported(ch) && ch.qop == "" && key != "response"
    ensures HeaderParam(Build(hash, ch, q, c1).value, key) == HeaderParam(Build(hash, ch, q, c2).value, key)
  {
    var r1, r2 := Response(hash, ch, q, c1), Response(hash, ch, q, c2);
    HeaderParamIn(hash, ch, q, c1, key);
    HeaderParamIn(hash, ch, q, c2, key);
    OtherFieldsEqual(ch, q, r1, r2, key);
  }

  lemma OtherFieldsEqual(ch: Challenge, q: Request, r1: string, r2: string, key: string)
    requires key != "response"
    ensures LookupField(AlwaysFields(ch, q, r1), key) == LookupField(AlwaysFields(ch, q, r2), key)
  {
    var common := [Field("username", q.user, true), Field("realm", ch.realm, true), Field("nonce", ch.nonce, true), Field("uri", q.uri, true)];
    assert AlwaysFields(ch, q, r1) == common + [Field("response", r1, true)];
    assert AlwaysFields(ch, q, r2) == common + [Field("response", r2, true)];
    LookupAppend(common, [Field("response", r1, true)], key);
    LookupAppend(common, [Field("response", r2, true)], key);
  }

  /**
   With MD5-sess and no qop no server could do better: for every such challenge and request some
   hash and two client nonces give headers that agree in every parameter but the response, with
   different responses, so the response is no function of what else the header says.
   */
  lemma UnverifiableWithoutClientNonce(ch: Challenge, q: Request) returns (hash: string -> string, c1: string, c2: string)
    requires IsSess(ch) && ch.qop == "" && Printable(ch, q, "")
    ensures PlainHash(hash) && Plain(c1) && Plain(c2) && Supported(ch)
    ensures var h1, h2 := Build(hash, ch, q, c1).value, Build(hash, ch, q, c2).value;
            && (forall key | key != "response" :: HeaderParam(h1, key) == HeaderParam(h2, key))
            && HeaderParam(h1, "response") != HeaderParam(h2, "response")
  {
    var n := |q.user| + |ch.realm| + |q.pass| + |q.verb| + |q.uri| + 4;
    c1, c2 := Zeroes(n), "";
    hash := Telling(ch, c1);
    TellingPlain(ch, n);
    TellingResponses(ch, q, n);
    HeaderParams(hash, ch, q, c1);
    HeaderParams(hash, ch, q, c2);
    forall key | key != "response"
      ensures HeaderParam(Build(hash, ch, q, c1).value, key) == HeaderParam(Build(hash, ch, q, c2).value, key)
    {
      OtherParamsEqual(hash, ch, q, c1, c2, key);
    }
  }
}
