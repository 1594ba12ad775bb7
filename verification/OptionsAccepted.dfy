/** Which command lines the option scanner accepts (internal/config/parse.go:351-508). */
module OptionsAccepted {
  import opened Base
  import opened HostPort
  import opened Options
  import opened OptionsProofs

  // ---- Tokens by their text

  const FLAGS := ["-help", "-version", "-v", "-d", "-dd", "-ddd"]
  const OPENINGS := ["-Q", "-Z", "-M", "-F"]
  const SSL_PREFIXES := ["-key=", "-cert=", "-ca=", "-verify="]
  const MITM_PREFIXES := ["-signca=", "-servername=", "-ca=", "-verify="]
  const FORWARD_PREFIXES := ["-user="]

  predicate BeginsWith(tok: string, prefixes: seq<string>) {
    exists p | p in prefixes :: HasPrefix(tok, p)
  }

  lemma NoEqualsSign(tok: string)
    requires tok in FLAGS || tok in OPENINGS
    ensures '=' !in tok
  {
  }

  lemma PrefixHasEquals(tok: string)
    ensures BeginsWith(tok, PREFIXES) ==> '=' in tok
  {
    if BeginsWith(tok, PREFIXES) {
      var p :| p in PREFIXES && HasPrefix(tok, p);
      assert p[|p| - 1] == '=' && p[|p| - 1] in tok;
    }
  }

  /** Flags, opening tokens and sub-options are told apart by their text; everything else is positional. */
  lemma ClassifyExactly(tok: string)
    ensures Classify(tok).IsGlobal? <==> tok in FLAGS
    ensures Classify(tok).Open? <==> tok in OPENINGS
    ensures Classify(tok).IsSub? <==> BeginsWith(tok, PREFIXES)
  {
    PrefixHasEquals(tok);
    if tok in FLAGS || tok in OPENINGS {
      NoEqualsSign(tok);
    }
  }

  lemma BeginsWithFour(tok: string, a: string, b: string, c: string, d: string)
    ensures BeginsWith(tok, [a, b, c, d]) <==> HasPrefix(tok, a) || HasPrefix(tok, b) || HasPrefix(tok, c) || HasPrefix(tok, d)
  {
    assert a in [a, b, c, d] && b in [a, b, c, d] && c in [a, b, c, d] && d in [a, b, c, d];
  }

  /** A sub-option's kind is decided by its prefix. */
  lemma SubOptionIs(tok: string)
    requires Classify(tok).IsSub?
    ensures tok !in FLAGS
    ensures var s := Classify(tok).s;
            && (s.Key? <==> HasPrefix(tok, "-key=")) && (s.Cert? <==> HasPrefix(tok, "-cert="))
            && (s.Ca? <==> HasPrefix(tok, "-ca=")) && (s.Verify? <==> HasPrefix(tok, "-verify="))
            && (s.SignCa? <==> HasPrefix(tok, "-signca=")) && (s.ServerName? <==> HasPrefix(tok, "-servername="))
            && (s.User? <==> HasPrefix(tok, "-user=")) && (s.User? ==> s.text == tok[6..])
  {
    ClassifyExactly(tok);
    forall p, q | p in PREFIXES && q in PREFIXES && HasPrefix(tok, p) && HasPrefix(tok, q) ensures p == q {
      PrefixesDiffer(tok, p, q);
    }
  }

  // ---- Values given at most once

  /** Once the option has a non-empty value, it does not occur again. */
  predicate GivenOnce(subs: seq<string>, prefix: string) {
    forall i, j | 0 <= i < j < |subs| && HasPrefix(subs[i], prefix) && HasPrefix(subs[j], prefix) :: subs[i] == prefix
  }

  predicate NotGiven(subs: seq<string>, prefix: string) {
    forall i | 0 <= i < |subs| :: !HasPrefix(subs[i], prefix)
  }

  predicate OnceFrom(subs: seq<string>, prefix: string, current: string) {
    GivenOnce(subs, prefix) && (current != "" ==> NotGiven(subs, prefix))
  }

  lemma NotGivenCons(tok: string, rest: seq<string>, prefix: string)
    ensures NotGiven([tok] + rest, prefix) <==> !HasPrefix(tok, prefix) && NotGiven(rest, prefix)
  {
    var all := [tok] + rest;
    assert all[0] == tok && forall i | 0 <= i < |rest| :: all[i + 1] == rest[i];
  }

  lemma GivenOnceCons(tok: string, rest: seq<string>, prefix: string)
    ensures GivenOnce([tok] + rest, prefix) <==>
            GivenOnce(rest, prefix) && (HasPrefix(tok, prefix) && tok != prefix ==> NotGiven(rest, prefix))
  {
    var all := [tok] + rest;
    assert all[0] == tok && forall i | 0 <= i < |rest| :: all[i + 1] == rest[i];
    if GivenOnce(all, prefix) {
      forall i, j | 0 <= i < j < |rest| && HasPrefix(rest[i], prefix) && HasPrefix(rest[j], prefix) ensures rest[i] == prefix {
        assert all[i + 1] == rest[i] && all[j + 1] == rest[j];
      }
    }
  }

  lemma OnceCons(tok: string, rest: seq<string>, prefix: string, current: string)
    ensures OnceFrom([tok] + rest, prefix, current) <==>
            (HasPrefix(tok, prefix) ==> current == "") && OnceFrom(rest, prefix, ValueOf([tok], prefix, current))
  {
    NotGivenCons(tok, rest, prefix);
    GivenOnceCons(tok, rest, prefix);
    assert ValueOf([tok], prefix, current) == if HasPrefix(tok, prefix) then tok[|prefix|..] else current;
    if HasPrefix(tok, prefix) {
      assert tok == prefix + tok[|prefix|..];
    }
  }

  /** Every token is a flag or begins with one of the prefixes. */
  predicate AllFit(subs: seq<string>, prefixes: seq<string>) {
    forall i | 0 <= i < |subs| :: subs[i] in FLAGS || BeginsWith(subs[i], prefixes)
  }

  lemma AllFitCons(tok: string, rest: seq<string>, prefixes: seq<string>)
    ensures AllFit([tok] + rest, prefixes) <==> (tok in FLAGS || BeginsWith(tok, prefixes)) && AllFit(rest, prefixes)
  {
    var all := [tok] + rest;
    assert all[0] == tok && forall i | 0 <= i < |rest| :: all[i + 1] == rest[i];
  }

  lemma FlagFits(tok: string, prefix: string)
    requires Classify(tok).IsGlobal? && |prefix| > 0 && prefix[|prefix| - 1] == '='
    ensures tok in FLAGS && !HasPrefix(tok, prefix)
  {
    ClassifyExactly(tok);
    GlobalHasNoEquals(tok);
    PrefixNeedsEquals(tok, prefix);
  }

  // ---- -Q and -Z

  lemma SslTokenAccepted(b: SslScope, tok: string)
    requires Classify(tok).IsSub?
    ensures tok !in FLAGS
    ensures ApplySub(Ssl(b), Classify(tok).s).Ok? <==>
            && BeginsWith(tok, SSL_PREFIXES)
            && (HasPrefix(tok, "-key=") ==> b.keyPath == "")
            && (HasPrefix(tok, "-cert=") ==> b.certPath == "")
            && (HasPrefix(tok, "-ca=") ==> b.caPath == "")
  {
    SubOptionIs(tok);
    BeginsWithFour(tok, "-key=", "-cert=", "-ca=", "-verify=");
  }

  /** A -Q or -Z block from some point on, with what was set before. */
  lemma {:induction false} SslAccepted(b: SslScope, subs: seq<string>)
    requires Inner(subs)
    ensures WalkPart(Ssl(b), subs).Ok? <==>
            && AllFit(subs, SSL_PREFIXES)
            && OnceFrom(subs, "-key=", b.keyPath) && OnceFrom(subs, "-cert=", b.certPath) && OnceFrom(subs, "-ca=", b.caPath)
    decreases |subs|
  {
    if subs != [] {
      var tok, rest := subs[0], subs[1..];
      assert subs == [tok] + rest;
      AllFitCons(tok, rest, SSL_PREFIXES);
      OnceCons(tok, rest, "-key=", b.keyPath);
      OnceCons(tok, rest, "-cert=", b.certPath);
      OnceCons(tok, rest, "-ca=", b.caPath);
      if Classify(tok).IsSub? {
        SslTokenAccepted(b, tok);
        if ApplySub(Ssl(b), Classify(tok).s).Ok? {
          SslToken(b, tok);
          SslAccepted(ApplySub(Ssl(b), Classify(tok).s).value.ssl, rest);
        }
      } else {
        FlagFits(tok, "-key=");
        FlagFits(tok, "-cert=");
        FlagFits(tok, "-ca=");
        SslAccepted(b, rest);
      }
    }
  }

  // ---- -M

  lemma MitmTokenAccepted(b: MitmScope, tok: string)
    requires Classify(tok).IsSub?
    ensures tok !in FLAGS
    ensures ApplySub(Mitm(b), Classify(tok).s).Ok? <==>
            && BeginsWith(tok, MITM_PREFIXES)
            && (HasPrefix(tok, "-signca=") ==> b.signCAPath == "")
            && (HasPrefix(tok, "-servername=") ==> b.serverName == "")
            && (HasPrefix(tok, "-ca=") ==> b.caPath == "")
  {
    SubOptionIs(tok);
    BeginsWithFour(tok, "-signca=", "-servername=", "-ca=", "-verify=");
  }

  lemma {:induction false} MitmAccepted(b: MitmScope, subs: seq<string>)
    requires Inner(subs)
    ensures WalkPart(Mitm(b), subs).Ok? <==>
            && AllFit(subs, MITM_PREFIXES)
            && OnceFrom(subs, "-signca=", b.signCAPath) && OnceFrom(subs, "-servername=", b.serverName)
            && OnceFrom(subs, "-ca=", b.caPath)
    decreases |subs|
  {
    if subs != [] {
      var tok, rest := subs[0], subs[1..];
      assert subs == [tok] + rest;
      AllFitCons(tok, rest, MITM_PREFIXES);
      OnceCons(tok, rest, "-signca=", b.signCAPath);
      OnceCons(tok, rest, "-servername=", b.serverName);
      OnceCons(tok, rest, "-ca=", b.caPath);
      if Classify(tok).IsSub? {
        MitmTokenAccepted(b, tok);
        if ApplySub(Mitm(b), Classify(tok).s).Ok? {
          MitmToken(b, tok);
          MitmAccepted(ApplySub(Mitm(b), Classify(tok).s).value.mitm, rest);
        }
      } else {
        FlagFits(tok, "-signca=");
        FlagFits(tok, "-servername=");
        FlagFits(tok, "-ca=");
        MitmAccepted(b, rest);
      }
    }
  }

  // ---- -F

  /** -user= with a non-empty user before the first colon. */
  predicate GoodUser(tok: string) {
    HasPrefix(tok, "-user=") ==> ':' in tok[6..] && tok[6] != ':'
  }

  predicate GoodUsers(subs: seq<string>) {
    forall i | 0 <= i < |subs| :: GoodUser(subs[i])
  }

  /** The option occurs at most once, whatever its value. */
  predicate AtMostOnce(subs: seq<string>, prefix: string) {
    forall i, j | 0 <= i < j < |subs| :: !(HasPrefix(subs[i], prefix) && HasPrefix(subs[j], prefix))
  }

  lemma GoodUsersCons(tok: string, rest: seq<string>)
    ensures GoodUsers([tok] + rest) <==> GoodUser(tok) && GoodUsers(rest)
  {
    var all := [tok] + rest;
    assert all[0] == tok && forall i | 0 <= i < |rest| :: all[i + 1] == rest[i];
  }

  lemma AtMostOnceCons(tok: string, rest: seq<string>, prefix: string)
    ensures AtMostOnce([tok] + rest, prefix) <==> AtMostOnce(rest, prefix) && (HasPrefix(tok, prefix) ==> NotGiven(rest, prefix))
  {
    var all := [tok] + rest;
    assert all[0] == tok && forall i | 0 <= i < |rest| :: all[i + 1] == rest[i];
    if AtMostOnce(all, prefix) {
      forall i, j | 0 <= i < j < |rest| ensures !(HasPrefix(rest[i], prefix) && HasPrefix(rest[j], prefix)) {
        assert all[i + 1] == rest[i] && all[j + 1] == rest[j];
      }
    }
  }

  lemma ForwardTokenAccepted(b: ForwardScope, tok: string)
    requires Classify(tok).IsSub?
    ensures tok !in FLAGS
    ensures ApplySub(Forward(b), Classify(tok).s).Ok? <==> BeginsWith(tok, FORWARD_PREFIXES) && !b.userSeen && GoodUser(tok)
    ensures ApplySub(Forward(b), Classify(tok).s).Ok? ==>
              HasPrefix(tok, "-user=") && ApplySub(Forward(b), Classify(tok).s).value.Forward?
              && ApplySub(Forward(b), Classify(tok).s).value.forward.userSeen
  {
    SubOptionIs(tok);
    assert BeginsWith(tok, FORWARD_PREFIXES) <==> HasPrefix(tok, FORWARD_PREFIXES[0]);
    if HasPrefix(tok, "-user=") {
      UserSplits(b, tok[6..]);
    }
  }

  lemma {:induction false} ForwardAccepted(b: ForwardScope, subs: seq<string>)
    requires Inner(subs)
    ensures WalkPart(Forward(b), subs).Ok? <==>
            && AllFit(subs, FORWARD_PREFIXES) && GoodUsers(subs)
            && AtMostOnce(subs, "-user=") && (b.userSeen ==> NotGiven(subs, "-user="))
    decreases |subs|
  {
    if subs != [] {
      var tok, rest := subs[0], subs[1..];
      assert subs == [tok] + rest;
      AllFitCons(tok, rest, FORWARD_PREFIXES);
      GoodUsersCons(tok, rest);
      AtMostOnceCons(tok, rest, "-user=");
      NotGivenCons(tok, rest, "-user=");
      if Classify(tok).IsSub? {
        ForwardTokenAccepted(b, tok);
        if ApplySub(Forward(b), Classify(tok).s).Ok? {
          ForwardAccepted(ApplySub(Forward(b), Classify(tok).s).value.forward, rest);
        }
      } else {
        FlagFits(tok, "-user=");
        ForwardAccepted(b, rest);
      }
    }
  }

  // ---- Whole lines

  /** What the tokens of a block must be like. */
  predicate BlockFits(b: Block) {
    match b.k
    case ScopeM =>
      AllFit(b.subs, MITM_PREFIXES)
      && GivenOnce(b.subs, "-signca=") && GivenOnce(b.subs, "-servername=") && GivenOnce(b.subs, "-ca=")
    case ScopeF => AllFit(b.subs, FORWARD_PREFIXES) && GoodUsers(b.subs) && AtMostOnce(b.subs, "-user=")
    case _ =>
      AllFit(b.subs, SSL_PREFIXES)
      && GivenOnce(b.subs, "-key=") && GivenOnce(b.subs, "-cert=") && GivenOnce(b.subs, "-ca=")
  }

  lemma BlockAccepted(b: Block)
    requires Inner(b.subs)
    ensures WalkPart(MarkSeen(Blank(b.k)), b.subs).Ok? <==> BlockFits(b)
  {
    match b.k
    case ScopeM => MitmAccepted(NO_MITM.(seen := true), b.subs);
    case ScopeF => ForwardAccepted(NO_FORWARD.(seen := true), b.subs);
    case _ => SslAccepted(NO_SSL.(seen := true), b.subs);
  }

  predicate NoKindTwice(bs: seq<Block>) {
    forall i, j | 0 <= i < j < |bs| :: bs[i].k != bs[j].k
  }

  predicate AllBlocksFit(bs: seq<Block>) {
    forall i | 0 <= i < |bs| :: BlockFits(bs[i])
  }

  lemma NoKindTwiceCons(bs: seq<Block>)
    requires bs != []
    ensures NoKindTwice(bs) <==> NoKindTwice(bs[1..]) && !HasBlock(bs[1..], bs[0].k)
    ensures AllBlocksFit(bs) <==> BlockFits(bs[0]) && AllBlocksFit(bs[1..])
  {
    assert forall i | 0 <= i < |bs| - 1 :: bs[1..][i] == bs[i + 1];
    if NoKindTwice(bs[1..]) && !HasBlock(bs[1..], bs[0].k) {
      forall i, j | 0 <= i < j < |bs| ensures bs[i].k != bs[j].k {
        assert bs[1..][j - 1].k == bs[j].k;
        if i > 0 { assert bs[1..][i - 1].k == bs[i].k; }
      }
    }
    if NoKindTwice(bs) {
      forall i, j | 0 <= i < j < |bs| - 1 ensures bs[1..][i].k != bs[1..][j].k {
        assert bs[i + 1].k != bs[j + 1].k;
      }
    }
  }

  ghost predicate NoneOpened(o: Options, bs: seq<Block>) {
    forall i | 0 <= i < |bs| :: !Seen(Get(o, bs[i].k))
  }

  lemma NoneOpenedCons(o: Options, bs: seq<Block>)
    requires bs != [] && Inner(bs[0].subs) && RunBlock(o, bs[0]).Some?
    ensures NoneOpened(RunBlock(o, bs[0]).value, bs[1..]) <==> NoneOpened(o, bs[1..]) && !HasBlock(bs[1..], bs[0].k)
  {
    var next, rest := RunBlock(o, bs[0]).value, bs[1..];
    forall i | 0 <= i < |rest| ensures Seen(Get(next, rest[i].k)) <==> Seen(Get(o, rest[i].k)) || rest[i].k == bs[0].k {
      BlockKeepsOthers(o, bs[0], rest[i].k);
    }
  }

  lemma {:induction false} BlocksAccepted(o: Options, bs: seq<Block>)
    requires WellFormed(bs) && Tidy(o)
    ensures RunBlocks(o, bs).Some? <==> NoneOpened(o, bs) && NoKindTwice(bs) && AllBlocksFit(bs)
    decreases |bs|
  {
    if bs != [] {
      var b, rest := bs[0], bs[1..];
      assert forall i | 0 <= i < |rest| :: rest[i] == bs[i + 1];
      NoKindTwiceCons(bs);
      FirstBlockAccepted(o, b);
      assert NoneOpened(o, bs) <==> !Seen(Get(o, b.k)) && NoneOpened(o, rest) by {
        if !Seen(Get(o, b.k)) && NoneOpened(o, rest) {
          forall i | 0 <= i < |bs| ensures !Seen(Get(o, bs[i].k)) {
            if i > 0 { assert bs[i] == rest[i - 1]; }
          }
        }
      }
      if RunBlock(o, b).Some? {
        NoneOpenedCons(o, bs);
        BlocksAccepted(RunBlock(o, b).value, rest);
      }
    }
  }

  lemma FirstBlockAccepted(o: Options, b: Block)
    requires Inner(b.subs) && Tidy(o)
    ensures RunBlock(o, b).Some? <==> !Seen(Get(o, b.k)) && BlockFits(b)
    ensures RunBlock(o, b).Some? ==> Tidy(RunBlock(o, b).value)
  {
    if !Seen(Get(o, b.k)) {
      assert Get(o, b.k) == Blank(b.k);
      BlockAccepted(b);
      if WalkPart(MarkSeen(Blank(b.k)), b.subs).Ok? {
        WalkPartFits(MarkSeen(Blank(b.k)), b.subs, b.k);
      }
    }
    if RunBlock(o, b).Some? {
      forall k: Scope | !Seen(Get(RunBlock(o, b).value, k)) ensures Get(RunBlock(o, b).value, k) == Blank(k) {
        BlockKeepsOthers(o, b, k);
      }
    }
  }

  predicate OnlyFlags(tokens: seq<string>) {
    forall i | 0 <= i < |tokens| :: tokens[i] in FLAGS
  }

  lemma {:induction false} PreambleAccepted(o: Options, pre: seq<string>)
    requires Inner(pre)
    ensures Walk(Scan(o, None), pre).Ok? <==> OnlyFlags(pre)
    decreases |pre|
  {
    if pre != [] {
      ClassifyExactly(pre[0]);
      assert forall i | 0 <= i < |pre| - 1 :: pre[1..][i] == pre[i + 1];
      assert OnlyFlags(pre) <==> pre[0] in FLAGS && OnlyFlags(pre[1..]) by {
        if pre[0] in FLAGS && OnlyFlags(pre[1..]) {
          forall i | 0 <= i < |pre| ensures pre[i] in FLAGS {
            if i > 0 { assert pre[i] == pre[1..][i - 1]; }
          }
        }
      }
      if Classify(pre[0]).IsGlobal? {
        PreambleAccepted(Step(Scan(o, None), Classify(pre[0])).value.opts, pre[1..]);
      }
    }
  }

  /** The options of a line are acceptable, judged by its tokens alone. */
  predicate LineFits(pre: seq<string>, bs: seq<Block>) {
    OnlyFlags(pre) && NoKindTwice(bs) && AllBlocksFit(bs)
  }

  /**
   The scanner accepts a command line exactly when only flags precede the first block, no kind of
   block occurs twice, and every block holds only flags and its own sub-options, none of them given
   again after a non-empty value and -user= at most once and well formed.
   */
  lemma AcceptedExactly(args: seq<string>, pre: seq<string>, bs: seq<Block>, tail: seq<string>)
    requires Decomposed(args, pre, bs, tail)
    ensures Extract(START, args).Ok? <==> LineFits(pre, bs)
  {
    BlocksOutcome(pre, bs, tail);
    PreambleAccepted(NO_OPTIONS, pre);
    if Walk(START, pre).Ok? {
      PreambleKeeps(NO_OPTIONS, pre);
      var o := Walk(START, pre).value.opts;
      assert forall k: Scope :: Get(o, k) == Blank(k) && !Seen(Get(o, k));
      BlocksAccepted(o, bs);
    }
  }
}
