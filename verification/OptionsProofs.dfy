/** Order does not matter among blocks and global flags (internal/config/parse.go:351-364). */
module OptionsProofs {
  import opened Base
  import opened HostPort
  import opened Options

  /** Every token is an option, so the scanner walks through all of them unless it fails. */
  ghost predicate AllOptions(tokens: seq<string>) {
    forall i | 0 <= i < |tokens| :: !Classify(tokens[i]).Positional?
  }

  ghost predicate StartsPositional(tail: seq<string>) {
    tail == [] || Classify(tail[0]).Positional?
  }

  /** The scan of a run of option tokens. */
  function Walk(st: Scan, tokens: seq<string>): Result<Scan, OptionError>
    requires AllOptions(tokens)
    decreases |tokens|
  {
    if tokens == [] then Ok(st)
    else
      match Step(st, Classify(tokens[0]))
      case Err(e) => Err(e)
      case Ok(next) => Walk(next, tokens[1..])
  }

  lemma {:induction false} ExtractWalks(st: Scan, tokens: seq<string>, tail: seq<string>)
    requires AllOptions(tokens)
    ensures Extract(st, tokens + tail) ==
            match Walk(st, tokens) { case Err(e) => Err(e) case Ok(end) => Extract(end, tail) }
    decreases |tokens|
  {
    if tokens == [] {
      assert tokens + tail == tail;
    } else {
      assert (tokens + tail)[0] == tokens[0] && (tokens + tail)[1..] == tokens[1..] + tail;
      if Step(st, Classify(tokens[0])).Ok? {
        ExtractWalks(Step(st, Classify(tokens[0])).value, tokens[1..], tail);
      }
    }
  }

  lemma {:induction false} WalkAppend(st: Scan, a: seq<string>, b: seq<string>)
    requires AllOptions(a) && AllOptions(b)
    ensures AllOptions(a + b)
    ensures Walk(st, a + b) == match Walk(st, a) { case Err(e) => Err(e) case Ok(mid) => Walk(mid, b) }
    decreases |a|
  {
    if a == [] {
      assert a + b == b;
    } else {
      assert (a + b)[0] == a[0] && (a + b)[1..] == a[1..] + b;
      if Step(st, Classify(a[0])).Ok? {
        WalkAppend(Step(st, Classify(a[0])).value, a[1..], b);
      }
    }
  }

  // ---- Global flags commute with everything

  function WithGlobal(st: Scan, g: Global): Scan {
    st.(opts := st.opts.(globals := ApplyGlobal(st.opts.globals, g)))
  }

  lemma GlobalCommutes(st: Scan, g: Global, tok: Token)
    requires !tok.Positional?
    ensures Step(WithGlobal(st, g), tok) ==
            match Step(st, tok) { case Err(e) => Err(e) case Ok(next) => Ok(WithGlobal(next, g)) }
  {
  }

  lemma {:induction false} GlobalFirst(st: Scan, g: Global, args: seq<string>)
    ensures Extract(WithGlobal(st, g), args) ==
            match Extract(st, args)
            case Err(e) => Err(e)
            case Ok((opts, rest)) => Ok((opts.(globals := ApplyGlobal(opts.globals, g)), rest))
    decreases |args|
  {
    if args != [] && !Classify(args[0]).Positional? {
      GlobalCommutes(st, g, Classify(args[0]));
      if Step(st, Classify(args[0])).Ok? {
        GlobalFirst(Step(st, Classify(args[0])).value, g, args[1..]);
      }
    }
  }

  /**
   Inserting -v, -d, -dd, -ddd, -help or -version anywhere among the option tokens keeps the outcome:
   the same error, or the same blocks and the same positional remainder with just that flag added.
   */
  lemma InsertGlobal(a: seq<string>, flag: string, b: seq<string>)
    requires AllOptions(a) && Classify(flag).IsGlobal?
    ensures Extract(START, a + [flag] + b) ==
            match Extract(START, a + b)
            case Err(e) => Err(e)
            case Ok((opts, rest)) => Ok((opts.(globals := ApplyGlobal(opts.globals, Classify(flag).g)), rest))
  {
    ExtractWalks(START, a, b);
    assert a + [flag] + b == a + ([flag] + b);
    ExtractWalks(START, a, [flag] + b);
    if Walk(START, a).Ok? {
      var mid := Walk(START, a).value;
      assert ([flag] + b)[1..] == b;
      GlobalFirst(mid, Classify(flag).g, b);
    }
  }

  // ---- The remainder and the log level

  /** What follows the leading option tokens. */
  function DropOptions(args: seq<string>): seq<string> {
    if args == [] || Classify(args[0]).Positional? then args else DropOptions(args[1..])
  }

  /** The level a token asks for. */
  function LevelOf(tok: string): nat {
    if tok == "-d" then 1 else if tok == "-dd" then 2 else if tok == "-ddd" then 3 else 0
  }

  ghost predicate IsMaxLevel(level: nat, floor: nat, tokens: seq<string>) {
    && floor <= level
    && (forall i | 0 <= i < |tokens| :: LevelOf(tokens[i]) <= level)
    && (level == floor || exists i | 0 <= i < |tokens| :: LevelOf(tokens[i]) == level)
  }

  lemma MaxLevelCons(tok: string, tokens: seq<string>, floor: nat, level: nat)
    requires IsMaxLevel(level, if LevelOf(tok) > floor then LevelOf(tok) else floor, tokens)
    ensures IsMaxLevel(level, floor, [tok] + tokens)
  {
    var all := [tok] + tokens;
    assert all[0] == tok && forall i | 0 <= i < |tokens| :: all[i + 1] == tokens[i];
  }

  lemma StepLevel(st: Scan, tok: string)
    requires !Classify(tok).Positional? && Step(st, Classify(tok)).Ok?
    ensures var floor := st.opts.globals.logLevel;
            Step(st, Classify(tok)).value.opts.globals.logLevel == if LevelOf(tok) > floor then LevelOf(tok) else floor
  {
  }

  lemma {:induction false} RemainderIs(st: Scan, args: seq<string>)
    requires Extract(st, args).Ok?
    ensures Extract(st, args).value.1 == DropOptions(args) && |DropOptions(args)| <= |args|
    decreases |args|
  {
    if args != [] && !Classify(args[0]).Positional? {
      RemainderIs(Step(st, Classify(args[0])).value, args[1..]);
    }
  }

  /** The option tokens in front of the remainder. */
  function Taken(args: seq<string>): seq<string> {
    if args == [] || Classify(args[0]).Positional? then [] else [args[0]] + Taken(args[1..])
  }

  lemma {:induction false} TakenIs(args: seq<string>)
    ensures args == Taken(args) + DropOptions(args)
    decreases |args|
  {
    if args != [] && !Classify(args[0]).Positional? {
      TakenIs(args[1..]);
      assert args == [args[0]] + args[1..];
    }
  }

  lemma {:induction false} LevelIsMaximum(st: Scan, args: seq<string>)
    requires Extract(st, args).Ok?
    ensures IsMaxLevel(Extract(st, args).value.0.globals.logLevel, st.opts.globals.logLevel, Taken(args))
    decreases |args|
  {
    if args != [] && !Classify(args[0]).Positional? {
      var next, more := Step(st, Classify(args[0])).value, args[1..];
      StepLevel(st, args[0]);
      LevelIsMaximum(next, more);
      MaxLevelCons(args[0], Taken(more), st.opts.globals.logLevel, Extract(next, more).value.0.globals.logLevel);
    }
  }

  /**
   On success the remainder starts at the first token that is no option, the rest of the line is
   option tokens, and the log level is the highest given among them.
   */
  lemma RemainderAndLevel(args: seq<string>)
    requires Extract(START, args).Ok?
    ensures Extract(START, args).value.1 == DropOptions(args)
    ensures args == Taken(args) + DropOptions(args)
    ensures IsMaxLevel(Extract(START, args).value.0.globals.logLevel, 0, Taken(args))
  {
    RemainderIs(START, args);
    TakenIs(args);
    LevelIsMaximum(START, args);
  }

  // ---- Blocks

  /** A block as written: its opening token and the tokens up to the next opening token. */
  datatype Block = Block(k: Scope, subs: seq<string>)

  function Opening(k: Scope): string {
    match k
    case ScopeQ => "-Q"
    case ScopeZ => "-Z"
    case ScopeM => "-M"
    case ScopeF => "-F"
  }

  /** Neither an opening token nor a positional argument. */
  ghost predicate Inner(tokens: seq<string>) {
    forall i | 0 <= i < |tokens| :: Classify(tokens[i]).IsGlobal? || Classify(tokens[i]).IsSub?
  }

  function Tokens(b: Block): seq<string> {
    [Opening(b.k)] + b.subs
  }

  function Flatten(blocks: seq<Block>): seq<string> {
    if blocks == [] then [] else Tokens(blocks[0]) + Flatten(blocks[1..])
  }

  ghost predicate WellFormed(blocks: seq<Block>) {
    forall i | 0 <= i < |blocks| :: Inner(blocks[i].subs)
  }

  lemma FlattenOptions(blocks: seq<Block>)
    requires WellFormed(blocks)
    ensures AllOptions(Flatten(blocks))
  {
    if blocks != [] {
      FlattenOptions(blocks[1..]);
    }
  }

  /** The sub-options of a block applied to its own part, global flags left aside. */
  function WalkPart(p: Part, subs: seq<string>): Result<Part, OptionError>
    requires Inner(subs)
    decreases |subs|
  {
    if subs == [] then Ok(p)
    else if Classify(subs[0]).IsSub? then
      match ApplySub(p, Classify(subs[0]).s)
      case Err(e) => Err(e)
      case Ok(p') => WalkPart(p', subs[1..])
    else WalkPart(p, subs[1..])
  }

  function GlobalsOf(g: Globals, subs: seq<string>): Globals
    decreases |subs|
  {
    if subs == [] then g
    else GlobalsOf(if Classify(subs[0]).IsGlobal? then ApplyGlobal(g, Classify(subs[0]).g) else g, subs[1..])
  }

  function Join(a: Globals, b: Globals): Globals {
    Globals(a.help || b.help, a.version || b.version,
            if a.logLevel > b.logLevel then a.logLevel else b.logLevel, a.verbose || b.verbose)
  }

  lemma {:induction false} GlobalsJoin(g: Globals, subs: seq<string>)
    ensures GlobalsOf(g, subs) == Join(g, GlobalsOf(NO_GLOBALS, subs))
    decreases |subs|
  {
    if subs != [] {
      var tok := Classify(subs[0]);
      var (g', n') := if tok.IsGlobal? then (ApplyGlobal(g, tok.g), ApplyGlobal(NO_GLOBALS, tok.g)) else (g, NO_GLOBALS);
      GlobalsJoin(g', subs[1..]);
      GlobalsJoin(n', subs[1..]);
      assert g' == Join(g, n');
    }
  }

  lemma {:induction false} WalkPartFits(p: Part, subs: seq<string>, k: Scope)
    requires Inner(subs) && Fits(p, k) && WalkPart(p, subs).Ok?
    ensures Fits(WalkPart(p, subs).value, k) && Seen(WalkPart(p, subs).value) == Seen(p)
    decreases |subs|
  {
    if subs != [] {
      WalkPartFits(if Classify(subs[0]).IsSub? then ApplySub(p, Classify(subs[0]).s).value else p, subs[1..], k);
    }
  }

  /** Inside a block only the block's own part and the global flags change. */
  lemma {:induction false} InnerWalk(o: Options, k: Scope, subs: seq<string>)
    requires Inner(subs)
    ensures var p := WalkPart(Get(o, k), subs);
            && (p.Ok? ==> Fits(p.value, k))
            && Walk(Scan(o, Some(k)), subs) ==
               (match p
                case Err(e) => Err(e)
                case Ok(part) => Ok(Scan(Put(o, k, part).(globals := GlobalsOf(o.globals, subs)), Some(k))))
    decreases |subs|
  {
    if WalkPart(Get(o, k), subs).Ok? {
      WalkPartFits(Get(o, k), subs, k);
    }
    if subs != [] {
      var tok := Classify(subs[0]);
      if tok.IsGlobal? {
        InnerWalk(o.(globals := ApplyGlobal(o.globals, tok.g)), k, subs[1..]);
      } else if ApplySub(Get(o, k), tok.s).Ok? {
        InnerWalk(Put(o, k, ApplySub(Get(o, k), tok.s).value), k, subs[1..]);
      }
    }
  }

  /** The part a block leaves behind, or None if it is refused; it depends on that part alone. */
  function PartAfter(p: Part, b: Block): Option<Part>
    requires Inner(b.subs)
  {
    if Seen(p) then None
    else
      match WalkPart(MarkSeen(p), b.subs)
      case Err(_) => None
      case Ok(q) => if Fits(q, b.k) then Some(q) else None
  }

  /** A whole block's effect, with no mention of what was open before it. */
  function RunBlock(o: Options, b: Block): Option<Options>
    requires Inner(b.subs)
  {
    match PartAfter(Get(o, b.k), b)
    case None => None
    case Some(p) => Some(Put(o, b.k, p).(globals := Join(o.globals, GlobalsOf(NO_GLOBALS, b.subs))))
  }

  function RunBlocks(o: Options, blocks: seq<Block>): Option<Options>
    requires WellFormed(blocks)
    decreases |blocks|
  {
    if blocks == [] then Some(o)
    else
      match RunBlock(o, blocks[0])
      case None => None
      case Some(next) => RunBlocks(next, blocks[1..])
  }

  lemma BlockWalk(st: Scan, b: Block)
    requires Inner(b.subs)
    ensures AllOptions(Tokens(b))
    ensures Walk(st, Tokens(b)).Ok? <==> RunBlock(st.opts, b).Some?
    ensures Walk(st, Tokens(b)).Ok? ==> Walk(st, Tokens(b)).value.opts == RunBlock(st.opts, b).value
  {
    var tokens := Tokens(b);
    assert tokens[0] == Opening(b.k) && tokens[1..] == b.subs;
    assert Classify(Opening(b.k)) == Open(b.k);
    if !Seen(Get(st.opts, b.k)) {
      var begun := Put(st.opts, b.k, MarkSeen(Get(st.opts, b.k)));
      InnerWalk(begun, b.k, b.subs);
      GlobalsJoin(begun.globals, b.subs);
    }
  }

  lemma {:induction false} BlocksWalk(st: Scan, blocks: seq<Block>)
    requires WellFormed(blocks)
    ensures AllOptions(Flatten(blocks))
    ensures Walk(st, Flatten(blocks)).Ok? <==> RunBlocks(st.opts, blocks).Some?
    ensures Walk(st, Flatten(blocks)).Ok? ==> Walk(st, Flatten(blocks)).value.opts == RunBlocks(st.opts, blocks).value
    decreases |blocks|
  {
    if blocks != [] {
      FlattenOptions(blocks[1..]);
      BlockWalk(st, blocks[0]);
      WalkAppend(st, Tokens(blocks[0]), Flatten(blocks[1..]));
      if Walk(st, Tokens(blocks[0])).Ok? {
        BlocksWalk(Walk(st, Tokens(blocks[0])).value, blocks[1..]);
      }
    }
  }

  // ---- Blocks commute

  lemma BlockKeepsOthers(o: Options, b: Block, k: Scope)
    requires Inner(b.subs) && RunBlock(o, b).Some?
    ensures k != b.k ==> Get(RunBlock(o, b).value, k) == Get(o, k)
    ensures Seen(Get(RunBlock(o, b).value, b.k))
  {
    WalkPartFits(MarkSeen(Get(o, b.k)), b.subs, b.k);
  }

  lemma PutsCommute(o: Options, k: Scope, p: Part, l: Scope, q: Part, g: Globals, h: Globals)
    requires k != l && Fits(p, k) && Fits(q, l)
    ensures var a := Put(o, k, p).(globals := Join(o.globals, g));
            var b := Put(o, l, q).(globals := Join(o.globals, h));
            Put(a, l, q).(globals := Join(a.globals, h)) == Put(b, k, p).(globals := Join(b.globals, g))
  {
  }

  lemma SwapBlocks(o: Options, a: Block, b: Block)
    requires Inner(a.subs) && Inner(b.subs)
    ensures RunBlocks(o, [a, b]) == RunBlocks(o, [b, a])
  {
    TwoBlocks(o, a, b);
    TwoBlocks(o, b, a);
    if RunBlock(o, a).Some? {
      BlockKeepsOthers(o, a, b.k);
    }
    if RunBlock(o, b).Some? {
      BlockKeepsOthers(o, b, a.k);
    }
    if a.k != b.k && RunBlock(o, a).Some? && RunBlock(o, b).Some? {
      PutsCommute(o, a.k, PartAfter(Get(o, a.k), a).value, b.k, PartAfter(Get(o, b.k), b).value,
                  GlobalsOf(NO_GLOBALS, a.subs), GlobalsOf(NO_GLOBALS, b.subs));
    }
  }

  lemma TwoBlocks(o: Options, a: Block, b: Block)
    requires Inner(a.subs) && Inner(b.subs)
    ensures RunBlocks(o, [a, b]) ==
            match RunBlock(o, a) { case None => None case Some(mid) => RunBlock(mid, b) }
  {
    assert [a, b][1..] == [b] && [b][1..] == [];
    if RunBlock(o, a).Some? {
      var mid := RunBlock(o, a).value;
      assert RunBlocks(mid, [b]) == RunBlock(mid, b);
    }
  }

  lemma {:induction false} RunBlocksAppend(o: Options, a: seq<Block>, b: seq<Block>)
    requires WellFormed(a) && WellFormed(b)
    ensures RunBlocks(o, a + b) == match RunBlocks(o, a) { case None => None case Some(mid) => RunBlocks(mid, b) }
    decreases |a|
  {
    if a == [] {
      assert a + b == b;
    } else {
      assert (a + b)[1..] == a[1..] + b;
      if RunBlock(o, a[0]).Some? {
        RunBlocksAppend(RunBlock(o, a[0]).value, a[1..], b);
      }
    }
  }

  /** A block may be moved in front of the blocks before it. */
  lemma {:induction false} MoveToFront(o: Options, before: seq<Block>, b: Block, after: seq<Block>)
    requires WellFormed(before) && Inner(b.subs) && WellFormed(after)
    ensures RunBlocks(o, before + [b] + after) == RunBlocks(o, [b] + before + after)
    decreases |before|
  {
    if before == [] {
      assert before + [b] + after == [b] + before + after;
    } else {
      var a, rest := before[0], before[1..];
      assert before + [b] + after == [a] + (rest + [b] + after);
      assert [b] + before + after == [b, a] + (rest + after);
      assert [a] + ([b] + rest + after) == [a, b] + (rest + after);
      RunBlocksAppend(o, [a], rest + [b] + after);
      RunBlocksAppend(o, [a], [b] + rest + after);
      if RunBlocks(o, [a]).Some? {
        MoveToFront(RunBlocks(o, [a]).value, rest, b, after);
      }
      RunBlocksAppend(o, [a, b], rest + after);
      RunBlocksAppend(o, [b, a], rest + after);
      SwapBlocks(o, a, b);
    }
  }

  /** Where the first block of one order stands in the other. */
  lemma FindFirst(bs: seq<Block>, cs: seq<Block>) returns (j: nat)
    requires bs != [] && multiset(bs) == multiset(cs)
    ensures j < |cs| && cs[j] == bs[0]
    ensures cs == cs[..j] + [bs[0]] + cs[j + 1..] && multiset(bs[1..]) == multiset(cs[..j] + cs[j + 1..])
  {
    assert bs[0] in multiset(cs);
    j :| 0 <= j < |cs| && cs[j] == bs[0];
    assert bs == [bs[0]] + bs[1..];
    assert cs == cs[..j] + [bs[0]] + cs[j + 1..];
    assert multiset(bs) == multiset{bs[0]} + multiset(bs[1..]);
    assert multiset(cs) == multiset(cs[..j]) + multiset{bs[0]} + multiset(cs[j + 1..]);
    assert multiset(cs[..j] + cs[j + 1..]) == multiset(cs) - multiset{bs[0]};
  }

  lemma {:induction false} PermutedBlocks(o: Options, bs: seq<Block>, cs: seq<Block>)
    requires WellFormed(bs) && WellFormed(cs) && multiset(bs) == multiset(cs)
    ensures RunBlocks(o, bs) == RunBlocks(o, cs)
    decreases |bs|
  {
    if bs == [] {
      assert |multiset(cs)| == 0;
    } else {
      var j := FindFirst(bs, cs);
      var before, after := cs[..j], cs[j + 1..];
      MoveToFront(o, before, bs[0], after);
      assert ([bs[0]] + before + after)[1..] == before + after;
      if RunBlock(o, bs[0]).Some? {
        PermutedBlocks(RunBlock(o, bs[0]).value, bs[1..], before + after);
      }
    }
  }

  /** Outcomes that agree on success and, on success, on every field and the remainder. */
  ghost predicate SameOutcome(a: Result<(Options, seq<string>), OptionError>, b: Result<(Options, seq<string>), OptionError>) {
    (a.Err? && b.Err?) || a == b
  }

  /**
   Writing whole -Q, -Z, -M and -F blocks in another order changes nothing: the command line is
   accepted or refused alike, with the same options and the same positional remainder.
   */
  lemma BlockOrderIrrelevant(pre: seq<string>, bs: seq<Block>, cs: seq<Block>, tail: seq<string>)
    requires Inner(pre) && WellFormed(bs) && WellFormed(cs) && multiset(bs) == multiset(cs) && StartsPositional(tail)
    ensures SameOutcome(Extract(START, pre + Flatten(bs) + tail), Extract(START, pre + Flatten(cs) + tail))
  {
    BlocksOutcome(pre, bs, tail);
    BlocksOutcome(pre, cs, tail);
    if Walk(START, pre).Ok? {
      PermutedBlocks(Walk(START, pre).value.opts, bs, cs);
    }
  }

  lemma BlocksOutcome(pre: seq<string>, bs: seq<Block>, tail: seq<string>)
    requires Inner(pre) && WellFormed(bs) && StartsPositional(tail)
    ensures var r := Extract(START, pre + Flatten(bs) + tail);
            if Walk(START, pre).Err? || RunBlocks(Walk(START, pre).value.opts, bs) == None then r.Err?
            else r == Ok((RunBlocks(Walk(START, pre).value.opts, bs).value, tail))
  {
    assert pre + Flatten(bs) + tail == pre + (Flatten(bs) + tail);
    ExtractWalks(START, pre, Flatten(bs) + tail);
    if Walk(START, pre).Ok? {
      var mid := Walk(START, pre).value;
      BlocksWalk(mid, bs);
      ExtractWalks(mid, Flatten(bs), tail);
    }
  }

  /** A decomposition of a command line. */
  ghost predicate Decomposed(args: seq<string>, pre: seq<string>, bs: seq<Block>, tail: seq<string>) {
    args == pre + Flatten(bs) + tail && Inner(pre) && WellFormed(bs) && StartsPositional(tail)
  }

  lemma OpeningIs(tok: string)
    requires Classify(tok).Open?
    ensures tok == Opening(Classify(tok).k)
  {
  }

  lemma DecomposeOpening(k: Scope, args: seq<string>, pre: seq<string>, bs: seq<Block>, tail: seq<string>)
    requires Decomposed(args, pre, bs, tail)
    ensures Decomposed([Opening(k)] + args, [], [Block(k, pre)] + bs, tail)
  {
    var b := Block(k, pre);
    assert ([b] + bs)[1..] == bs;
    assert Flatten([b] + bs) == [Opening(k)] + pre + Flatten(bs);
  }

  lemma DecomposeInner(tok: string, args: seq<string>, pre: seq<string>, bs: seq<Block>, tail: seq<string>)
    requires Decomposed(args, pre, bs, tail) && Inner([tok])
    ensures Decomposed([tok] + args, [tok] + pre, bs, tail)
  {
    assert [tok] + args == [tok] + pre + Flatten(bs) + tail;
    assert Inner([tok] + pre) by {
      assert forall i | 0 <= i < |pre| :: ([tok] + pre)[i + 1] == pre[i];
      assert [tok][0] == tok;
    }
  }

  /** Every command line is such a sequence of blocks, so the theorem covers all of them. */
  lemma {:induction false} EveryLineHasBlocks(args: seq<string>) returns (pre: seq<string>, bs: seq<Block>, tail: seq<string>)
    ensures Decomposed(args, pre, bs, tail)
    decreases |args|
  {
    if args == [] || Classify(args[0]).Positional? {
      pre, bs, tail := [], [], args;
    } else {
      var pre', bs', tail' := EveryLineHasBlocks(args[1..]);
      assert args == [args[0]] + args[1..];
      if Classify(args[0]).Open? {
        var k := Classify(args[0]).k;
        OpeningIs(args[0]);
        DecomposeOpening(k, args[1..], pre', bs', tail');
        pre, bs, tail := [], [Block(k, pre')] + bs', tail';
      } else {
        DecomposeInner(args[0], args[1..], pre', bs', tail');
        pre, bs, tail := [args[0]] + pre', bs', tail';
      }
    }
  }

  // ---- What a block says

  /** The text behind `prefix` in the last token that has it, or `none`. */
  function ValueOf(tokens: seq<string>, prefix: string, none: string): string
    decreases |tokens|
  {
    if tokens == [] then none
    else ValueOf(tokens[1..], prefix, if HasPrefix(tokens[0], prefix) then tokens[0][|prefix|..] else none)
  }

  /** No -verify= token, or the last one is not -verify=0. */
  predicate Verified(tokens: seq<string>, none: bool)
    decreases |tokens|
  {
    if tokens == [] then none
    else Verified(tokens[1..], if HasPrefix(tokens[0], "-verify=") then tokens[0] != "-verify=0" else none)
  }

  lemma PrefixAt(tok: string, prefix: string, i: nat)
    requires i < |prefix| && HasPrefix(tok, prefix)
    ensures i < |tok| && tok[i] == prefix[i]
  {
  }

  const PREFIXES := ["-key=", "-cert=", "-ca=", "-verify=", "-signca=", "-servername=", "-user="]

  /** No two of the sub-option prefixes fit the same token. */
  lemma PrefixesDiffer(tok: string, p: string, q: string)
    requires p in PREFIXES && q in PREFIXES
    requires HasPrefix(tok, p) && HasPrefix(tok, q)
    ensures p == q
  {
    PrefixAt(tok, p, 1);
    PrefixAt(tok, q, 1);
    PrefixAt(tok, p, 2);
    PrefixAt(tok, q, 2);
  }

  lemma VerifyText(tok: string)
    requires HasPrefix(tok, "-verify=")
    ensures tok[8..] != "0" <==> tok != "-verify=0"
  {
    assert tok == "-verify=" + tok[8..];
    assert "-verify=" + "0" == "-verify=0";
  }

  lemma SslToken(b: SslScope, tok: string)
    requires Classify(tok).IsSub? && ApplySub(Ssl(b), Classify(tok).s).Ok?
    ensures ApplySub(Ssl(b), Classify(tok).s).value == Ssl(SslScope(
              ValueOf([tok], "-key=", b.keyPath), ValueOf([tok], "-cert=", b.certPath), ValueOf([tok], "-ca=", b.caPath),
              Verified([tok], b.verify), b.seen))
  {
    if HasPrefix(tok, "-verify=") {
      VerifyText(tok);
    }
    forall p, q | p in PREFIXES && q in PREFIXES && HasPrefix(tok, p) && HasPrefix(tok, q) ensures p == q {
      PrefixesDiffer(tok, p, q);
    }
  }

  lemma GlobalToken(tok: string, prefix: string, none: string, on: bool)
    requires Classify(tok).IsGlobal? && |prefix| > 0 && prefix[|prefix| - 1] == '='
    ensures ValueOf([tok], prefix, none) == none && Verified([tok], on) == on
  {
    GlobalHasNoEquals(tok);
    PrefixNeedsEquals(tok, prefix);
    PrefixNeedsEquals(tok, "-verify=");
  }

  lemma PrefixNeedsEquals(tok: string, prefix: string)
    requires |prefix| > 0 && prefix[|prefix| - 1] == '=' && '=' !in tok
    ensures !HasPrefix(tok, prefix)
  {
    assert prefix[|prefix| - 1] in prefix;
  }

  lemma GlobalHasNoEquals(tok: string)
    requires Classify(tok).IsGlobal?
    ensures '=' !in tok
  {
    assert tok == "-help" || tok == "-version" || tok == "-v" || tok == "-d" || tok == "-dd" || tok == "-ddd";
  }

  lemma ValueCons(tok: string, tokens: seq<string>, prefix: string, none: string, on: bool)
    ensures ValueOf([tok] + tokens, prefix, none) == ValueOf(tokens, prefix, ValueOf([tok], prefix, none))
    ensures Verified([tok] + tokens, on) == Verified(tokens, Verified([tok], on))
  {
    assert ([tok] + tokens)[1..] == tokens && [tok][1..] == [];
  }

  /** Under -Q and -Z each setting is what its own token says, read off the command line directly. */
  lemma {:induction false} SslBlockReads(b: SslScope, subs: seq<string>)
    requires Inner(subs) && WalkPart(Ssl(b), subs).Ok?
    ensures WalkPart(Ssl(b), subs).value == Ssl(SslScope(
              ValueOf(subs, "-key=", b.keyPath), ValueOf(subs, "-cert=", b.certPath), ValueOf(subs, "-ca=", b.caPath),
              Verified(subs, b.verify), b.seen))
    decreases |subs|
  {
    if subs != [] {
      var tok, rest := subs[0], subs[1..];
      assert subs == [tok] + rest;
      ValueCons(tok, rest, "-key=", b.keyPath, b.verify);
      ValueCons(tok, rest, "-cert=", b.certPath, b.verify);
      ValueCons(tok, rest, "-ca=", b.caPath, b.verify);
      if Classify(tok).IsSub? {
        SslToken(b, tok);
        SslBlockReads(ApplySub(Ssl(b), Classify(tok).s).value.ssl, rest);
      } else {
        GlobalToken(tok, "-key=", b.keyPath, b.verify);
        GlobalToken(tok, "-cert=", b.certPath, b.verify);
        GlobalToken(tok, "-ca=", b.caPath, b.verify);
        SslBlockReads(b, rest);
      }
    }
  }

  lemma MitmToken(b: MitmScope, tok: string)
    requires Classify(tok).IsSub? && ApplySub(Mitm(b), Classify(tok).s).Ok?
    ensures ApplySub(Mitm(b), Classify(tok).s).value == Mitm(MitmScope(
              ValueOf([tok], "-signca=", b.signCAPath), ValueOf([tok], "-servername=", b.serverName),
              ValueOf([tok], "-ca=", b.caPath), Verified([tok], b.verify), b.seen))
  {
    if HasPrefix(tok, "-verify=") {
      VerifyText(tok);
    }
    forall p, q | p in PREFIXES && q in PREFIXES && HasPrefix(tok, p) && HasPrefix(tok, q) ensures p == q {
      PrefixesDiffer(tok, p, q);
    }
  }

  /** The same for -M. */
  lemma {:induction false} MitmBlockReads(b: MitmScope, subs: seq<string>)
    requires Inner(subs) && WalkPart(Mitm(b), subs).Ok?
    ensures WalkPart(Mitm(b), subs).value == Mitm(MitmScope(
              ValueOf(subs, "-signca=", b.signCAPath), ValueOf(subs, "-servername=", b.serverName),
              ValueOf(subs, "-ca=", b.caPath), Verified(subs, b.verify), b.seen))
    decreases |subs|
  {
    if subs != [] {
      var tok, rest := subs[0], subs[1..];
      assert subs == [tok] + rest;
      ValueCons(tok, rest, "-signca=", b.signCAPath, b.verify);
      ValueCons(tok, rest, "-servername=", b.serverName, b.verify);
      ValueCons(tok, rest, "-ca=", b.caPath, b.verify);
      if Classify(tok).IsSub? {
        MitmToken(b, tok);
        MitmBlockReads(ApplySub(Mitm(b), Classify(tok).s).value.mitm, rest);
      } else {
        GlobalToken(tok, "-signca=", b.signCAPath, b.verify);
        GlobalToken(tok, "-servername=", b.serverName, b.verify);
        GlobalToken(tok, "-ca=", b.caPath, b.verify);
        MitmBlockReads(b, rest);
      }
    }
  }

  /** -user= is accepted once, with a non-empty user in front of the first colon; nothing is lost. */
  lemma UserSplits(b: ForwardScope, text: string)
    ensures ApplySub(Forward(b), User(text)).Ok? <==> !b.userSeen && ':' in text && text[0] != ':'
    ensures ApplySub(Forward(b), User(text)).Ok? ==>
              var f := ApplySub(Forward(b), User(text)).value.forward;
              text == f.user + ":" + f.pass && ':' !in f.user && f.user != "" && f.userSeen && f.seen == b.seen
  {
    var i := IndexOf(text, ':');
    if i < |text| {
      assert text[i] in text;
      assert text == text[..i] + ":" + text[i + 1..];
    }
  }

  // ---- What the parser relies on

  function Blank(k: Scope): Part {
    match k
    case ScopeQ => Ssl(NO_SSL)
    case ScopeZ => Ssl(NO_SSL)
    case ScopeM => Mitm(NO_MITM)
    case ScopeF => Forward(NO_FORWARD)
  }

  /** A block that was not opened has no settings. */
  ghost predicate Tidy(o: Options) {
    forall k: Scope :: !Seen(Get(o, k)) ==> Get(o, k) == Blank(k)
  }

  lemma {:induction false} ExtractTidy(st: Scan, args: seq<string>)
    requires Tidy(st.opts) && (st.scope.Some? ==> Seen(Get(st.opts, st.scope.value))) && Extract(st, args).Ok?
    ensures Tidy(Extract(st, args).value.0)
    decreases |args|
  {
    if args != [] && !Classify(args[0]).Positional? {
      var next := Step(st, Classify(args[0])).value;
      assert Tidy(next.opts);
      ExtractTidy(next, args[1..]);
    }
  }

  // ---- From the whole line to its blocks

  predicate HasBlock(bs: seq<Block>, k: Scope) {
    exists i | 0 <= i < |bs| :: bs[i].k == k
  }

  /** The tokens of the first block of this kind; none if there is no such block. */
  function SubsOf(bs: seq<Block>, k: Scope): seq<string> {
    if bs == [] then [] else if bs[0].k == k then bs[0].subs else SubsOf(bs[1..], k)
  }

  lemma HasBlockCons(bs: seq<Block>, k: Scope)
    requires bs != []
    ensures HasBlock(bs, k) <==> bs[0].k == k || HasBlock(bs[1..], k)
  {
    if HasBlock(bs[1..], k) {
      var i :| 0 <= i < |bs| - 1 && bs[1..][i].k == k;
      assert bs[i + 1].k == k;
    }
    if HasBlock(bs, k) && bs[0].k != k {
      var i :| 0 <= i < |bs| && bs[i].k == k;
      assert bs[1..][i - 1].k == k;
    }
  }

  lemma {:induction false} SubsInner(bs: seq<Block>, k: Scope)
    requires WellFormed(bs)
    ensures Inner(SubsOf(bs, k))
    decreases |bs|
  {
    if bs != [] && bs[0].k != k {
      SubsInner(bs[1..], k);
    }
  }

  /** A block that was opened already is not opened again. */
  lemma {:induction false} OpenedStays(o: Options, bs: seq<Block>, k: Scope)
    requires WellFormed(bs) && RunBlocks(o, bs).Some? && Seen(Get(o, k))
    ensures !HasBlock(bs, k) && Get(RunBlocks(o, bs).value, k) == Get(o, k)
    decreases |bs|
  {
    if bs != [] {
      HasBlockCons(bs, k);
      BlockKeepsOthers(o, bs[0], k);
      OpenedStays(RunBlock(o, bs[0]).value, bs[1..], k);
    }
  }

  /** The part of block k after all blocks depends on that block's own tokens alone. */
  lemma {:induction false} BlocksLeave(o: Options, bs: seq<Block>, k: Scope)
    requires WellFormed(bs) && RunBlocks(o, bs).Some? && !Seen(Get(o, k))
    ensures Inner(SubsOf(bs, k))
    ensures HasBlock(bs, k) ==> WalkPart(MarkSeen(Get(o, k)), SubsOf(bs, k)) == Ok(Get(RunBlocks(o, bs).value, k))
    ensures !HasBlock(bs, k) ==> SubsOf(bs, k) == [] && Get(RunBlocks(o, bs).value, k) == Get(o, k)
    decreases |bs|
  {
    if bs != [] {
      HasBlockCons(bs, k);
      var next := RunBlock(o, bs[0]).value;
      BlockKeepsOthers(o, bs[0], k);
      if bs[0].k == k {
        assert Get(next, k) == WalkPart(MarkSeen(Get(o, k)), bs[0].subs).value;
        OpenedStays(next, bs[1..], k);
      } else {
        BlocksLeave(next, bs[1..], k);
      }
    }
  }

  /** Before the first block only global flags are accepted. */
  lemma {:induction false} PreambleKeeps(o: Options, pre: seq<string>)
    requires Inner(pre) && Walk(Scan(o, None), pre).Ok?
    ensures var end := Walk(Scan(o, None), pre).value; end.scope == None && end.opts == o.(globals := end.opts.globals)
    decreases |pre|
  {
    if pre != [] {
      var next := Step(Scan(o, None), Classify(pre[0])).value;
      PreambleKeeps(next.opts, pre[1..]);
    }
  }

  /** The parts of an accepted line, block by block. */
  lemma LineLeaves(args: seq<string>, pre: seq<string>, bs: seq<Block>, tail: seq<string>, k: Scope)
    requires Decomposed(args, pre, bs, tail) && Extract(START, args).Ok?
    ensures Extract(START, args).value.1 == tail && Inner(SubsOf(bs, k))
    ensures var p := Get(Extract(START, args).value.0, k);
            if HasBlock(bs, k) then WalkPart(MarkSeen(Blank(k)), SubsOf(bs, k)) == Ok(p) else SubsOf(bs, k) == [] && p == Blank(k)
  {
    BlocksOutcome(pre, bs, tail);
    PreambleKeeps(NO_OPTIONS, pre);
    BlocksLeave(Walk(START, pre).value.opts, bs, k);
  }

  /** What the tokens of a -Q or -Z block say. */
  function SslSettings(subs: seq<string>, seen: bool): SslScope {
    SslScope(ValueOf(subs, "-key=", ""), ValueOf(subs, "-cert=", ""), ValueOf(subs, "-ca=", ""), Verified(subs, true), seen)
  }

  function MitmSettings(subs: seq<string>, seen: bool): MitmScope {
    MitmScope(ValueOf(subs, "-signca=", ""), ValueOf(subs, "-servername=", ""), ValueOf(subs, "-ca=", ""), Verified(subs, true), seen)
  }

  /**
   On an accepted command line every -Q, -Z, -M and -F setting is what that block's own tokens say,
   its default if they do not say it or the block is absent; nothing leaks from one block into another.
   */
  lemma LineReads(args: seq<string>, pre: seq<string>, bs: seq<Block>, tail: seq<string>)
    requires Decomposed(args, pre, bs, tail) && Extract(START, args).Ok?
    ensures var (o, rest) := Extract(START, args).value;
            && rest == tail
            && o.q == SslSettings(SubsOf(bs, ScopeQ), HasBlock(bs, ScopeQ))
            && o.z == SslSettings(SubsOf(bs, ScopeZ), HasBlock(bs, ScopeZ))
            && o.m == MitmSettings(SubsOf(bs, ScopeM), HasBlock(bs, ScopeM))
            && o.f.seen == HasBlock(bs, ScopeF)
            && (if o.f.userSeen then ValueOf(SubsOf(bs, ScopeF), "-user=", "") == o.f.user + ":" + o.f.pass
                                     && o.f.user != "" && ':' !in o.f.user
                else o.f.user == o.f.pass == ValueOf(SubsOf(bs, ScopeF), "-user=", "") == "")
  {
    LineLeaves(args, pre, bs, tail, ScopeQ);
    LineLeaves(args, pre, bs, tail, ScopeZ);
    LineLeaves(args, pre, bs, tail, ScopeM);
    LineLeaves(args, pre, bs, tail, ScopeF);
    if HasBlock(bs, ScopeQ) {
      SslBlockReads(NO_SSL.(seen := true), SubsOf(bs, ScopeQ));
    }
    if HasBlock(bs, ScopeZ) {
      SslBlockReads(NO_SSL.(seen := true), SubsOf(bs, ScopeZ));
    }
    if HasBlock(bs, ScopeM) {
      MitmBlockReads(NO_MITM.(seen := true), SubsOf(bs, ScopeM));
    }
    if HasBlock(bs, ScopeF) {
      WalkPartFits(Forward(NO_FORWARD.(seen := true)), SubsOf(bs, ScopeF), ScopeF);
      ForwardBlockReads(NO_FORWARD.(seen := true), SubsOf(bs, ScopeF), "");
    }
  }

  lemma ForwardToken(b: ForwardScope, tok: string, none: string)
    requires Classify(tok).IsSub? && ApplySub(Forward(b), Classify(tok).s).Ok?
    ensures !b.userSeen && ApplySub(Forward(b), Classify(tok).s).value.Forward?
    ensures var f := ApplySub(Forward(b), Classify(tok).s).value.forward;
            f.userSeen && ValueOf([tok], "-user=", none) == f.user + ":" + f.pass && f.user != "" && ':' !in f.user
  {
    UserSplits(b, Classify(tok).s.text);
  }

  /** Under -F the credentials are the one -user= token, cut at its first colon. */
  lemma {:induction false} ForwardBlockReads(b: ForwardScope, subs: seq<string>, none: string)
    requires Inner(subs) && WalkPart(Forward(b), subs).Ok?
    ensures WalkPart(Forward(b), subs).value.Forward?
    ensures var f := WalkPart(Forward(b), subs).value.forward;
            if b.userSeen || !f.userSeen then f == b && ValueOf(subs, "-user=", none) == none
            else ValueOf(subs, "-user=", none) == f.user + ":" + f.pass && f.user != "" && ':' !in f.user
    decreases |subs|
  {
    if subs != [] {
      var tok, rest := subs[0], subs[1..];
      assert subs == [tok] + rest;
      ValueCons(tok, rest, "-user=", none, true);
      if Classify(tok).IsSub? {
        ForwardToken(b, tok, none);
        ForwardBlockReads(ApplySub(Forward(b), Classify(tok).s).value.forward, rest, ValueOf([tok], "-user=", none));
      } else {
        GlobalToken(tok, "-user=", none, true);
        ForwardBlockReads(b, rest, none);
      }
    }
  }

  // ---- Global flags

  lemma {:induction false} FlagsAre(st: Scan, args: seq<string>)
    requires Extract(st, args).Ok?
    ensures var g := Extract(st, args).value.0.globals;
            && (g.help <==> st.opts.globals.help || "-help" in Taken(args))
            && (g.version <==> st.opts.globals.version || "-version" in Taken(args))
            && (g.verbose <==> st.opts.globals.verbose || "-v" in Taken(args))
    decreases |args|
  {
    if args != [] && !Classify(args[0]).Positional? {
      FlagsAre(Step(st, Classify(args[0])).value, args[1..]);
      StepFlags(st, args[0]);
    }
  }

  lemma StepFlags(st: Scan, tok: string)
    requires !Classify(tok).Positional? && Step(st, Classify(tok)).Ok?
    ensures var g, h := st.opts.globals, Step(st, Classify(tok)).value.opts.globals;
            && (h.help <==> g.help || tok == "-help") && (h.version <==> g.version || tok == "-version")
            && (h.verbose <==> g.verbose || tok == "-v")
  {
  }
}
