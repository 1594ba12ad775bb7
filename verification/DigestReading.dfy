/** How Digest challenges are read, whoever wrote them (internal/proxy/digest.go:34-95). */
module DigestReading {
  import opened Base
  import opened HostPort
  import opened Digest
  import opened DigestProofs
  import Endpoint

  // ---- The qop list

  /** These are the elements of a comma-separated list. */
  ghost predicate Elements(list: string, parts: seq<string>) {
    parts != [] && list == Commas(parts) && forall i | 0 <= i < |parts| :: ',' !in parts[i]
  }

  lemma {:induction false} EveryListHasElements(list: string) returns (parts: seq<string>)
    ensures Elements(list, parts)
    decreases |list|
  {
    var k := IndexOf(list, ',');
    if k == |list| {
      parts := [list];
    } else {
      var more := EveryListHasElements(list[k + 1..]);
      parts := [list[..k]] + more;
      assert parts[1..] == more;
      assert list == list[..k] + "," + list[k + 1..];
    }
  }

  /** A qop list offers "auth" exactly when one of its elements is that word, spaces aside. */
  lemma {:induction false} OffersAuthExactly(list: string, parts: seq<string>)
    requires Elements(list, parts)
    ensures OffersAuth(list) <==> exists i | 0 <= i < |parts| :: TrimSpace(parts[i]) == "auth"
    decreases |parts|
  {
    var p, more := parts[0], parts[1..];
    assert parts == [p] + more;
    if more == [] {
      assert list[..IndexOf(list, ',')] == p;
    } else {
      assert list == p + "," + Commas(more);
      assert list[..|p|] == p && list[|p| + 1..] == Commas(more);
      IndexOfIs(list, ',', |p|);
      assert forall i | 0 <= i < |more| :: more[i] == parts[i + 1];
      OffersAuthExactly(Commas(more), more);
      if i :| 0 <= i < |parts| && TrimSpace(parts[i]) == "auth" {
        if i > 0 { assert TrimSpace(more[i - 1]) == "auth"; }
      }
    }
  }

  // ---- Spelling does not matter

  predicate Blank(pad: string) {
    forall c | c in pad :: c in SPACES
  }

  lemma {:induction false} TrimFront(pad: string, s: string)
    requires Blank(pad)
    ensures TrimSpace(pad + s) == TrimSpace(s)
    decreases |pad|
  {
    if pad == "" {
      assert pad + s == s;
    } else {
      assert pad[0] in pad && (pad + s)[1..] == pad[1..] + s;
      TrimFront(pad[1..], s);
    }
  }

  lemma {:induction false} TrimBack(s: string, pad: string)
    requires Blank(pad)
    ensures TrimSpace(s + pad) == TrimSpace(s)
    decreases |s| + |pad|
  {
    if pad == "" {
      assert s + pad == s;
    } else if s == "" {
      TrimFront(pad, "");
      assert pad + "" == pad == s + pad;
    } else if s[0] in SPACES {
      assert (s + pad)[1..] == s[1..] + pad;
      TrimBack(s[1..], pad);
    } else {
      var last := |pad| - 1;
      assert pad[last] in pad && (s + pad)[..|s + pad| - 1] == s + pad[..last];
      TrimBack(s, pad[..last]);
    }
  }

  lemma TrimPadded(front: string, s: string, back: string)
    requires Blank(front) && Blank(back)
    ensures TrimSpace(front + s + back) == TrimSpace(s)
  {
    TrimBack(front + s, back);
    TrimFront(front, s);
  }

  /** A word of a header: no spaces and no equals sign. */
  predicate Word(s: string) {
    s != "" && '=' !in s && forall c | c in s :: c !in SPACES
  }

  lemma WordStays(s: string)
    requires Word(s)
    ensures TrimSpace(s) == s
  {
    assert s[0] in s && s[|s| - 1] in s;
    TrimIdentity(s, SPACES);
  }

  lemma CutAtEquals(left: string, right: string)
    requires '=' !in left
    ensures Cut(left + "=" + right, '=') == Some((left, right))
  {
    var s := left + "=" + right;
    assert s[..|left|] == left && s[|left| + 1..] == right;
    IndexOfIs(s, '=', |left|);
  }

  /** A parameter reads the same in any letter case of its key and with any spaces around key and value. */
  lemma ParamSpelling(a: string, key: string, b: string, c: string, value: string, d: string, other: string)
    requires Blank(a) && Blank(b) && Blank(c) && Blank(d) && Word(key) && Word(other) && EqualFold(key, other)
    ensures ParamOf(a + key + b + "=" + (c + value + d)) == ParamOf(other + "=" + value)
  {
    assert '=' !in a + key + b;
    CutAtEquals(a + key + b, c + value + d);
    CutAtEquals(other, value);
    TrimPadded(a, key, b);
    TrimPadded(c, value, d);
    WordStays(key);
    WordStays(other);
  }

  lemma SchemeIs(front: string, scheme: string, rest: string, back: string)
    requires Blank(front) && Blank(back) && Word(scheme) && rest != "" && rest[|rest| - 1] !in SPACES
    ensures SchemeAndRest(front + (scheme + " " + rest) + back) == (scheme, rest)
  {
    var s := scheme + " " + rest;
    TrimPadded(front, s, back);
    assert scheme[0] in scheme && ' ' in SPACES;
    TrimIdentity(s, SPACES);
    assert s[..|scheme|] == scheme && s[|scheme| + 1..] == rest;
    IndexOfIs(s, ' ', |scheme|);
  }

  lemma {:induction false} SamePieces(ps: seq<string>, qs: seq<string>, ch: Challenge)
    requires |ps| == |qs| && forall i | 0 <= i < |ps| :: ParamOf(ps[i]) == ParamOf(qs[i])
    ensures Collect(ps, ch) == Collect(qs, ch)
    decreases |ps|
  {
    if ps != [] {
      assert ParamOf(ps[0]) == ParamOf(qs[0]);
      assert forall i | 0 <= i < |ps| - 1 :: ParamOf(ps[1..][i]) == ParamOf(ps[i + 1]) == ParamOf(qs[1..][i]);
      SamePieces(ps[1..], qs[1..], if ParamOf(ps[0]).Some? then SetParam(ch, ParamOf(ps[0]).value) else ch);
    }
  }

  /**
   Neither the letter case of the scheme nor spaces around the header change what is parsed, nor does
   any respelling of the parameters that leaves each of them reading the same.
   */
  lemma ChallengeSpelling(front: string, scheme: string, rest: string, back: string, other: string)
    requires Blank(front) && Blank(back) && Word(scheme) && EqualFold(scheme, "Digest")
    requires rest != "" && rest[|rest| - 1] !in SPACES && other != "" && other[|other| - 1] !in SPACES
    requires var ps, qs := SplitFrom(rest, "", false), SplitFrom(other, "", false);
             |ps| == |qs| && forall i | 0 <= i < |ps| :: ParamOf(ps[i]) == ParamOf(qs[i])
    ensures ParseChallenge(front + (scheme + " " + rest) + back) == ParseChallenge("Digest " + other)
  {
    SchemeIs(front, scheme, rest, back);
    assert Word("Digest");
    SchemeIs("", "Digest", other, "");
    assert "" + ("Digest" + " " + other) + "" == "Digest " + other;
    SamePieces(SplitFrom(rest, "", false), SplitFrom(other, "", false), NO_CHALLENGE);
  }

  // ---- What each field is

  /** The value of the last parameter with this key, or `none`. */
  function LastValue(pieces: seq<string>, key: string, none: string): string
    decreases |pieces|
  {
    if pieces == [] then none
    else LastValue(pieces[1..], key, if ParamOf(pieces[0]).Some? && ParamOf(pieces[0]).value.key == key then ParamOf(pieces[0]).value.value else none)
  }

  /** Some qop parameter offers "auth". */
  predicate AuthOffered(pieces: seq<string>) {
    exists i | 0 <= i < |pieces| ::
      ParamOf(pieces[i]).Some? && ParamOf(pieces[i]).value.key == "qop" && OffersAuth(ParamOf(pieces[i]).value.value)
  }

  lemma AuthOfferedCons(pieces: seq<string>)
    requires pieces != []
    ensures AuthOffered(pieces) <==>
            (ParamOf(pieces[0]).Some? && ParamOf(pieces[0]).value.key == "qop" && OffersAuth(ParamOf(pieces[0]).value.value))
            || AuthOffered(pieces[1..])
  {
    assert forall i | 0 <= i < |pieces| - 1 :: pieces[1..][i] == pieces[i + 1];
    if i :| 0 <= i < |pieces| && ParamOf(pieces[i]).Some? && ParamOf(pieces[i]).value.key == "qop"
            && OffersAuth(ParamOf(pieces[i]).value.value) {
      if i > 0 {
        assert pieces[1..][i - 1] == pieces[i];
      }
    }
  }

  lemma {:induction false} CollectReads(pieces: seq<string>, ch: Challenge)
    ensures Collect(pieces, ch) == Challenge(
              LastValue(pieces, "realm", ch.realm), LastValue(pieces, "nonce", ch.nonce), LastValue(pieces, "opaque", ch.opaq),
              LastValue(pieces, "algorithm", ch.algorithm), if AuthOffered(pieces) then "auth" else ch.qop)
    decreases |pieces|
  {
    if pieces != [] {
      AuthOfferedCons(pieces);
      var p := ParamOf(pieces[0]);
      CollectReads(pieces[1..], if p.Some? then SetParam(ch, p.value) else ch);
    }
  }

  /**
   A header is a usable challenge exactly when its scheme is Digest in any case and it has a non-empty
   nonce; each field is the value of the last parameter of that name, and qop is "auth" if offered.
   */
  lemma ChallengeExactly(header: string, ch: Challenge)
    ensures ParseChallenge(header) == Some(ch) <==>
            var (scheme, rest) := SchemeAndRest(header);
            var pieces := SplitFrom(rest, "", false);
            && EqualFold(scheme, "Digest") && ch.nonce != ""
            && ch.realm == LastValue(pieces, "realm", "") && ch.nonce == LastValue(pieces, "nonce", "")
            && ch.opaq == LastValue(pieces, "opaque", "") && ch.algorithm == LastValue(pieces, "algorithm", "")
            && ch.qop == (if AuthOffered(pieces) then "auth" else "")
  {
    CollectReads(SplitFrom(SchemeAndRest(header).1, "", false), NO_CHALLENGE);
  }
}
