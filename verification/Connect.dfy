/**
 Dialing through an upstream HTTP proxy (internal/proxy/http.go:288-361): one CONNECT, and at most
 one more on a fresh connection with a Digest answer. Reading an HTTP response is abstracted to its
 status and its Proxy-Authenticate values.
 */
module Connect {
  import opened Base
  import opened Digest
  import opened DigestProofs

  /** What the network does with one attempt. */
  datatype Attempt =
    | DialFails
    | WriteFails
    | ReadFails
    | Answer(status: nat, challenges: seq<string>)

  const STATUS_OK: nat := 200
  const STATUS_PROXY_AUTH: nat := 407

  /** The sockets the dialer has opened, and the Proxy-Authorization values it has presented. */
  class Network {
    var script: seq<Attempt>
    var dialed: nat
    var open: set<nat>
    var presented: seq<string>

    ghost predicate Valid()
      reads this
    {
      forall s <- open :: s < dialed
    }

    constructor (script: seq<Attempt>)
      ensures Valid() && this.script == script && dialed == 0 && open == {} && presented == []
    {
      this.script, dialed, open, presented := script, 0, {}, [];
    }

    method Dial() returns (socket: nat)
      requires Valid()
      modifies this`dialed, this`open
      ensures Valid() && socket == old(dialed) && dialed == old(dialed) + 1 && open == old(open) + {socket}
    {
      socket := dialed;
      dialed, open := dialed + 1, open + {socket};
    }

    method Close(socket: nat)
      requires Valid()
      modifies this`open
      ensures Valid() && open == old(open) - {socket}
    {
      open := open - {socket};
    }

    /** connectAttempt: the socket is handed back open only together with a response. */
    method ConnectAttempt(header: string) returns (r: Option<(nat, nat, seq<string>)>)
      requires Valid()
      modifies this
      ensures Valid() && presented == old(presented) + [header] && script == Tail(old(script))
      ensures var a := Next(old(script));
              && dialed == old(dialed) + (if a.DialFails? then 0 else 1)
              && r == (if a.Answer? then Some((old(dialed), a.status, a.challenges)) else None)
              && open == (if a.Answer? then old(open) + {old(dialed)} else old(open))
    {
      presented := presented + [header];
      var a := Next(script);
      script := Tail(script);
      if a.DialFails? {
        return None;
      }
      var socket := Dial();
      if a.WriteFails? || a.ReadFails? {
        Close(socket);
        return None;
      }
      r := Some((socket, a.status, a.challenges));
    }
  }

  function Next(script: seq<Attempt>): Attempt {
    if script == [] then DialFails else script[0]
  }

  function Tail(script: seq<Attempt>): seq<Attempt> {
    if script == [] then [] else script[1..]
  }

  predicate Succeeds(a: Attempt) {
    a.Answer? && a.status == 200
  }

  /** The answer calls for, and the credentials allow, a second attempt. */
  predicate WantsDigest(a: Attempt, user: string) {
    && a.Answer? && a.status == 407 && user != ""
    && FirstChallenge(a.challenges).Some? && Supported(FirstChallenge(a.challenges).value)
  }

  /** The header of the second attempt. */
  function DigestAnswer(hash: string -> string, a: Attempt, target: string, user: string, pass: string, cnonce: string): string
    requires WantsDigest(a, user)
  {
    Build(hash, FirstChallenge(a.challenges).value, Request("CONNECT", target, user, pass), cnonce).value
  }

  /** Header and answer are over text that survives quoting. */
  ghost predicate PlainExchange(hash: string -> string, ch: Challenge, target: string, user: string, cnonce: string) {
    && PlainHash(hash) && Plain(target) && Plain(user) && Plain(cnonce)
    && Plain(ch.realm) && Plain(ch.nonce) && Plain(ch.opaq)
  }

  /** The header answers this challenge for a CONNECT to `target` in the name of `user`. */
  ghost predicate AnswersFor(header: string, hash: string -> string, ch: Challenge, target: string, user: string, pass: string, cnonce: string) {
    && HeaderParam(header, "username") == Some(user) && HeaderParam(header, "uri") == Some(target)
    && HeaderParam(header, "realm") == Some(ch.realm) && HeaderParam(header, "nonce") == Some(ch.nonce)
    && HeaderParam(header, "qop") == (if ch.qop == "auth" then Some("auth") else None)
    && HeaderParam(header, "nc") == (if ch.qop == "auth" then Some("00000001") else None)
    && HeaderParam(header, "cnonce") == (if ch.qop == "auth" then Some(cnonce) else None)
    && HeaderParam(header, "response") == Some(
         RequestDigest(hash, user, ch.realm, pass, "CONNECT", target, ch.nonce, cnonce, IsSess(ch), ch.qop == "auth"))
  }

  ghost predicate RightAnswer(header: string, hash: string -> string, ch: Challenge, target: string, user: string, pass: string, cnonce: string) {
    PlainExchange(hash, ch, target, user, cnonce) ==> AnswersFor(header, hash, ch, target, user, pass, cnonce)
  }

  lemma AnsweredRight(hash: string -> string, a: Attempt, target: string, user: string, pass: string, cnonce: string)
    requires WantsDigest(a, user)
    ensures RightAnswer(DigestAnswer(hash, a, target, user, pass, cnonce), hash, FirstChallenge(a.challenges).value, target, user, pass, cnonce)
  {
    if PlainExchange(hash, FirstChallenge(a.challenges).value, target, user, cnonce) {
      RetryAnswersTheChallenge(hash, a, target, user, pass, cnonce);
    }
  }

  /** Finding the challenge among the headers of a 407 and building the answer to it. */
  method AnswerDigest(a: Attempt, target: string, user: string, pass: string, hash: string -> string, random: Option<string>)
    returns (header: Option<string>)
    requires a.Answer? && a.status == STATUS_PROXY_AUTH && user != ""
    ensures header.Some? <==> WantsDigest(a, user) && random.Some?
    ensures header.Some? ==>
              && header.value == DigestAnswer(hash, a, target, user, pass, random.value)
              && RightAnswer(header.value, hash, FirstChallenge(a.challenges).value, target, user, pass, random.value)
  {
    var ch := FindDigestChallenge(a.challenges);
    if ch == None {
      return None;
    }
    header := BuildAuthorization(hash, ch.value, Request("CONNECT", target, user, pass), random);
    if header.Some? {
      AnsweredRight(hash, a, target, user, pass, random.value);
    }
  }

  /**
   dialUpstreamConnect. On every path each socket it opened is closed or is the one it returns; it
   dials again only after a 407 with a Digest challenge it can answer while credentials are set and a
   client nonce could be drawn, and then presents the digest; it returns a connection exactly when the
   last response was 200.
   */
  method DialUpstreamConnect(net: Network, target: string, user: string, pass: string, basic: string,
                             hash: string -> string, random: Option<string>) returns (r: Option<nat>)
    requires net.Valid()
    modifies net
    ensures net.Valid()
    ensures net.open == (if r.Some? then old(net.open) + {r.value} else old(net.open))
    ensures r.Some? ==> old(net.dialed) <= r.value < net.dialed
    ensures old(net.dialed) <= net.dialed <= old(net.dialed) + 2
    ensures var a, b := Next(old(net.script)), Next(Tail(old(net.script)));
            var again := WantsDigest(a, user) && random.Some?;
            && (r.Some? <==> Succeeds(a) || (again && Succeeds(b)))
            && net.presented == old(net.presented) + [if user != "" then basic else ""]
                                + (if again then [DigestAnswer(hash, a, target, user, pass, random.value)] else [])
            && (net.dialed == old(net.dialed) + 2 ==> again)
            && (again ==> RightAnswer(net.presented[|net.presented| - 1], hash, FirstChallenge(a.challenges).value, target, user, pass, random.value))
  {
    var first := net.ConnectAttempt(if user != "" then basic else "");
    if first == None {
      return None;
    }
    var (socket, status, challenges) := first.value;
    if status == STATUS_OK {
      return Some(socket);
    }
    net.Close(socket);
    assert net.open == old(net.open);
    var a := Answer(status, challenges);
    if status != STATUS_PROXY_AUTH || user == "" {
      return None;
    }
    var header := AnswerDigest(a, target, user, pass, hash, random);
    if header == None {
      return None;
    }
    var second := net.ConnectAttempt(header.value);
    if second == None {
      return None;
    }
    var (socket2, status2, _) := second.value;
    if status2 != STATUS_OK {
      net.Close(socket2);
      assert net.open == old(net.open);
      return None;
    }
    r := Some(socket2);
  }

  lemma {:induction false} CollectKeepsQop(pieces: seq<string>, ch: Challenge)
    requires ch.qop == "" || ch.qop == "auth"
    ensures Collect(pieces, ch).qop == "" || Collect(pieces, ch).qop == "auth"
    decreases |pieces|
  {
    if pieces != [] {
      var p := ParamOf(pieces[0]);
      CollectKeepsQop(pieces[1..], if p.Some? then SetParam(ch, p.value) else ch);
    }
  }

  lemma {:induction false} FoundChallengeShape(headers: seq<string>)
    requires FirstChallenge(headers).Some?
    ensures var ch := FirstChallenge(headers).value; ch.nonce != "" && (ch.qop == "" || ch.qop == "auth")
    decreases |headers|
  {
    if ParseChallenge(headers[0]).Some? {
      CollectKeepsQop(SplitFrom(SchemeAndRest(headers[0]).1, "", false), NO_CHALLENGE);
    } else {
      FoundChallengeShape(headers[1..]);
    }
  }

  /**
   The second attempt answers the very challenge that was found, for this user and target and with
   the response that RFC 2617 prescribes; the upstream can check it from the header unless it asked
   for MD5-sess without qop.
   */
  lemma RetryAnswersTheChallenge(hash: string -> string, a: Attempt, target: string, user: string, pass: string, cnonce: string)
    requires WantsDigest(a, user) && PlainExchange(hash, FirstChallenge(a.challenges).value, target, user, cnonce)
    ensures var ch := FirstChallenge(a.challenges).value;
            var header := DigestAnswer(hash, a, target, user, pass, cnonce);
            && ParseChallenge(header) == Some(ch)
            && AnswersFor(header, hash, ch, target, user, pass, cnonce)
            && (Recompute(hash, key => HeaderParam(header, key), "CONNECT", pass) == HeaderParam(header, "response")
                <==> ch.qop == "auth" || !IsSess(ch))
  {
    FoundChallengeShape(a.challenges);
    var ch, q := FirstChallenge(a.challenges).value, Request("CONNECT", target, user, pass);
    BuiltHeaderParsesBack(hash, ch, q, cnonce);
    HeaderParams(hash, ch, q, cnonce);
    ResponseIsRequestDigest(hash, ch, q, cnonce);
    ServerCanVerify(hash, ch, q, cnonce);
  }
}
