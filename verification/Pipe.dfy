/**
 pipeConn and pipeSOCKS (internal/relay/tcp.go:104-123, internal/proxy/socks.go:224-243): two
 goroutines, each running the copy loop of `Pump` one turn at a time, storing its total, shutting the
 write half of its destination and reporting to a WaitGroup that the caller waits on. A connection
 that offers no CloseWrite (internal/proxy/http.go:363-371) is simply not half-closed.
 */
module Pipe {
  import opened Base
  import opened Pump

  datatype Side = A | B

  function Other(x: Side): Side {
    if x.A? then B else A
  }

  /** Program points of a goroutine. */
  datatype Pc =
    | Copying    // inside Copy
    | Returned   // Copy has returned, before the assignment to sent or recv
    | Assigned   // before CloseWrite
    | Shut       // before the deferred wg.Done
    | Done

  /**
   The goroutine that copies from one side to the other. `input` lists the results that the source
   has ready for Read, of which the loop has taken the first `taken`; `writes` are the outcomes of its
   writes so far and `delivered` what the destination accepted; `total` is Copy's running total and
   `err` what Copy returned.
   */
  datatype Direction = Direction(
    input: seq<ReadEvent>, taken: nat, writes: seq<WriteEvent>, delivered: seq<byte>, total: nat, err: Option<CopyError>, pc: Pc)

  /** `shut` holds the sides whose write half is shut down; `result` is what the call returned. */
  datatype State = State(
    fromA: Direction, fromB: Direction, shut: set<Side>, sent: nat, recv: nat, wg: int, result: Option<(nat, nat)>)

  datatype Step =
    | Arrives(x: Side, e: ReadEvent)   // the peer on side x sends, ends or breaks
    | Cycle(x: Side, w: WriteEvent)    // one turn of the loop; w is how a write would go
    | Assign(x: Side)
    | CloseWrite(x: Side)
    | WgDone(x: Side)
    | Return

  const START := Direction([], 0, [], [], 0, None, Copying)

  function Start(): State {
    State(START, START, {}, 0, 0, 2, None)
  }

  function From(s: State, x: Side): Direction {
    if x.A? then s.fromA else s.fromB
  }

  function SetFrom(s: State, x: Side, d: Direction): State {
    if x.A? then s.(fromA := d) else s.(fromB := d)
  }

  /** The peer has closed or the connection broke: no further result follows. */
  predicate Ended(d: Direction) {
    d.input != [] && d.input[|d.input| - 1].err != NoError
  }

  predicate Enabled(s: State, step: Step) {
    match step
    case Arrives(x, e) => !Ended(From(s, x)) && |e.data| <= BUFFER
    case Cycle(x, _) => From(s, x).pc.Copying? && From(s, x).taken < |From(s, x).input|
    case Assign(x) => From(s, x).pc.Returned?
    case CloseWrite(x) => From(s, x).pc.Assigned?
    case WgDone(x) => From(s, x).pc.Shut?
    case Return => s.wg == 0 && s.result == None
  }

  /** An empty read writes nothing. */
  function OneMore(writes: seq<WriteEvent>, e: ReadEvent, w: WriteEvent): seq<WriteEvent> {
    if e.data == [] then writes else writes + [w]
  }

  function AfterCycle(d: Direction, w: WriteEvent): Direction
    requires d.taken < |d.input|
  {
    var e := d.input[d.taken];
    var (part, stop) := Turn([e], [w]);
    Direction(d.input, d.taken + 1, OneMore(d.writes, e, w), d.delivered + part,
              d.total + Accepted(e.data, [w]), stop, if stop.Some? then Returned else Copying)
  }

  /** `canClose` holds the sides that support CloseWrite; sent is A to B, recv is B to A. */
  function Apply(s: State, step: Step, canClose: set<Side>): State
    requires Enabled(s, step)
  {
    match step
    case Arrives(x, e) => SetFrom(s, x, From(s, x).(input := From(s, x).input + [e]))
    case Cycle(x, w) => SetFrom(s, x, AfterCycle(From(s, x), w))
    case Assign(x) =>
      var t := SetFrom(s, x, From(s, x).(pc := Assigned));
      if x.A? then t.(sent := s.fromA.total) else t.(recv := s.fromB.total)
    case CloseWrite(x) =>
      var t := SetFrom(s, x, From(s, x).(pc := Shut));
      if Other(x) in canClose then t.(shut := t.shut + {Other(x)}) else t
    case WgDone(x) => SetFrom(s, x, From(s, x).(pc := Done)).(wg := s.wg - 1)
    case Return => s.(result := Some((s.sent, s.recv)))
  }

  function Run(s: State, steps: seq<Step>, canClose: set<Side>): Option<State>
    decreases |steps|
  {
    if steps == [] then Some(s)
    else if Enabled(s, steps[0]) then Run(Apply(s, steps[0], canClose), steps[1..], canClose)
    else None
  }

  // ---- Turns of the loop add up to a copy

  /** Every one of these reads let the loop go on. */
  ghost predicate GoesOn(input: seq<ReadEvent>, writes: seq<WriteEvent>)
    decreases |input|
  {
    input == [] || (Turn(input, writes).1 == None && GoesOn(input[1..], AfterTurn(input, writes)))
  }

  /** A later turn does not change the first one. */
  lemma FirstTurnSame(input: seq<ReadEvent>, writes: seq<WriteEvent>, e: ReadEvent, w: WriteEvent)
    requires input != [] && Turn(input, writes).1 == None && |writes| == |Chunks(input)|
    ensures Turn(input + [e], OneMore(writes, e, w)) == Turn(input, writes)
    ensures AfterTurn(input + [e], OneMore(writes, e, w)) == OneMore(AfterTurn(input, writes), e, w)
    ensures |AfterTurn(input, writes)| == |Chunks(input[1..])|
  {
    assert (input + [e])[0] == input[0];
  }

  /** Taking the first turn off a copy. */
  lemma AfterFirstTurn(input: seq<ReadEvent>, writes: seq<WriteEvent>)
    requires input != [] && Turn(input, writes).1 == None
    ensures var rest := CopySpec(input[1..], AfterTurn(input, writes));
            CopySpec(input, writes) == Outcome(Turn(input, writes).0 + rest.delivered, rest.err)
    ensures GoesOn(input, writes) <==> GoesOn(input[1..], AfterTurn(input, writes))
  {
  }

  /** There is one write for each non-empty read. */
  lemma {:induction false} CountExtends(input: seq<ReadEvent>, writes: seq<WriteEvent>, e: ReadEvent)
    requires GoesOn(input, writes)
    ensures |Chunks(input + [e])| == |Chunks(input)| + (if e.data == [] then 0 else 1)
    decreases |input|
  {
    if input == [] {
      assert input + [e] == [e] && [e][1..] == [];
    } else {
      assert (input + [e])[0] == input[0] && (input + [e])[1..] == input[1..] + [e];
      CountExtends(input[1..], AfterTurn(input, writes), e);
    }
  }

  /** A copy that has not stopped, and one more turn. */
  function Extended(done: seq<byte>, e: ReadEvent, w: WriteEvent): Outcome {
    var (part, stop) := Turn([e], [w]);
    Outcome(done + part, if stop.Some? then stop.value else NilError)
  }

  lemma LastTurn(e: ReadEvent, w: WriteEvent)
    ensures CopySpec([e], OneMore([], e, w)) == Extended([], e, w)
    ensures GoesOn([e], OneMore([], e, w)) <==> Turn([e], [w]).1 == None
  {
    assert [e][1..] == [];
    assert Turn([e], OneMore([], e, w)) == Turn([e], [w]);
  }

  /** Turns taken one at a time add up to a copy over all the reads and writes so far. */
  lemma {:induction false} CopyExtends(input: seq<ReadEvent>, writes: seq<WriteEvent>, e: ReadEvent, w: WriteEvent)
    requires GoesOn(input, writes) && |writes| == |Chunks(input)|
    ensures CopySpec(input + [e], OneMore(writes, e, w)) == Extended(CopySpec(input, writes).delivered, e, w)
    decreases |input|
  {
    if input == [] {
      assert writes == [] && input + [e] == [e];
      LastTurn(e, w);
    } else {
      var rest, more := input[1..], AfterTurn(input, writes);
      FirstTurnSame(input, writes, e, w);
      AfterFirstTurn(input, writes);
      AfterFirstTurn(input + [e], OneMore(writes, e, w));
      assert (input + [e])[1..] == rest + [e];
      CopyExtends(rest, more, e, w);
      assert CopySpec(input, writes).delivered == Turn(input, writes).0 + CopySpec(rest, more).delivered;
      ExtendedCons(Turn(input, writes).0, CopySpec(rest, more).delivered, e, w);
    }
  }

  lemma ExtendedCons(part: seq<byte>, done: seq<byte>, e: ReadEvent, w: WriteEvent)
    ensures Extended(part + done, e, w) == Outcome(part + Extended(done, e, w).delivered, Extended(done, e, w).err)
  {
  }

  lemma {:induction false} GoesOnExtends(input: seq<ReadEvent>, writes: seq<WriteEvent>, e: ReadEvent, w: WriteEvent)
    requires GoesOn(input, writes) && |writes| == |Chunks(input)|
    ensures GoesOn(input + [e], OneMore(writes, e, w)) <==> Turn([e], [w]).1 == None
    decreases |input|
  {
    if input == [] {
      assert writes == [] && input + [e] == [e];
      LastTurn(e, w);
    } else {
      FirstTurnSame(input, writes, e, w);
      assert (input + [e])[1..] == input[1..] + [e];
      GoesOnExtends(input[1..], AfterTurn(input, writes), e, w);
    }
  }

  /** Cutting off later reads cuts off later octets. */
  lemma {:induction false} EarlierReads(input: seq<ReadEvent>, n: nat)
    requires n <= |input|
    ensures Concat(Chunks(input[..n])) <= Concat(Chunks(input))
    decreases n
  {
    if n > 0 {
      var first := input[..n];
      assert first[0] == input[0] && first[1..] == input[1..][..n - 1];
      EarlierReads(input[1..], n - 1);
      FirstRead(input, []);
      FirstRead(first, []);
    }
  }

  // ---- Invariants

  ghost predicate DirectionOk(d: Direction) {
    && d.taken <= |d.input|
    && (forall i | 0 <= i < |d.input| - 1 :: d.input[i].err == NoError)
    && |d.writes| == |Chunks(d.input[..d.taken])|
    && d.total == |d.delivered|
    && d.delivered == CopySpec(d.input[..d.taken], d.writes).delivered
    && (d.pc.Copying? ==> d.err == None && GoesOn(d.input[..d.taken], d.writes) && (d.taken == |d.input| ==> !Ended(d)))
    && (!d.pc.Copying? ==> d.err == Some(CopySpec(d.input[..d.taken], d.writes).err))
    && (d.err == Some(NilError) ==> d.taken == |d.input| && Ended(d))
  }

  predicate Stored(pc: Pc) {
    pc.Assigned? || pc.Shut? || pc.Done?
  }

  predicate PastClose(pc: Pc) {
    pc.Shut? || pc.Done?
  }

  function Pending(d: Direction): int {
    if d.pc.Done? then 0 else 1
  }

  /** WaitGroup, results and half-closes agree with the goroutines' program points. */
  ghost predicate Booked(s: State, canClose: set<Side>) {
    && s.wg == Pending(s.fromA) + Pending(s.fromB)
    && (Stored(s.fromA.pc) ==> s.sent == s.fromA.total)
    && (Stored(s.fromB.pc) ==> s.recv == s.fromB.total)
    && (B in s.shut <==> B in canClose && PastClose(s.fromA.pc))
    && (A in s.shut <==> A in canClose && PastClose(s.fromB.pc))
    && (s.result.Some? ==> s.wg == 0 && s.result == Some((s.sent, s.recv)))
  }

  ghost predicate Inv(s: State, canClose: set<Side>) {
    DirectionOk(s.fromA) && DirectionOk(s.fromB) && Booked(s, canClose)
  }

  lemma ArrivesOk(d: Direction, e: ReadEvent)
    requires DirectionOk(d) && !Ended(d)
    ensures DirectionOk(d.(input := d.input + [e]))
  {
    assert (d.input + [e])[..d.taken] == d.input[..d.taken];
  }

  lemma TurnLength(e: ReadEvent, w: WriteEvent)
    ensures |Turn([e], [w]).0| == Accepted(e.data, [w])
    ensures Turn([e], [w]).1 == None ==> e.err == NoError
    ensures Turn([e], [w]).1 == Some(NilError) ==> e.err == Eof
  {
  }

  lemma CycleOk(d: Direction, w: WriteEvent)
    requires DirectionOk(d) && d.pc.Copying? && d.taken < |d.input|
    ensures DirectionOk(AfterCycle(d, w))
  {
    var e, past, next := d.input[d.taken], d.input[..d.taken], AfterCycle(d, w);
    assert next.input[..next.taken] == past + [e];
    CopyExtends(past, d.writes, e, w);
    GoesOnExtends(past, d.writes, e, w);
    CountExtends(past, d.writes, e);
    TurnLength(e, w);
  }

  lemma PcOk(d: Direction, pc: Pc)
    requires DirectionOk(d) && !d.pc.Copying? && !pc.Copying?
    ensures DirectionOk(d.(pc := pc))
  {
  }

  lemma DirectionKept(s: State, step: Step, canClose: set<Side>, x: Side)
    requires Enabled(s, step) && DirectionOk(From(s, x))
    ensures DirectionOk(From(Apply(s, step, canClose), x))
  {
    var d := From(s, x);
    if step.Return? || step.x != x {
      assert From(Apply(s, step, canClose), x) == d;
    } else if step.Arrives? {
      ArrivesOk(d, step.e);
    } else if step.Cycle? {
      CycleOk(d, step.w);
    } else {
      PcOk(d, From(Apply(s, step, canClose), x).pc);
    }
  }

  /** A direction that stays at a program point of the same standing leaves the books alone. */
  lemma BookUntouched(s: State, x: Side, d: Direction, canClose: set<Side>)
    requires Booked(s, canClose) && (d.pc == From(s, x).pc || From(s, x).pc.Copying?) && !Stored(d.pc) == !Stored(From(s, x).pc)
    requires Stored(d.pc) ==> d.total == From(s, x).total
    ensures Booked(SetFrom(s, x, d), canClose)
  {
  }

  lemma BookKept(s: State, step: Step, canClose: set<Side>)
    requires Booked(s, canClose) && Enabled(s, step)
    ensures Booked(Apply(s, step, canClose), canClose)
  {
    match step
    case Arrives(x, e) => BookUntouched(s, x, From(s, x).(input := From(s, x).input + [e]), canClose);
    case Cycle(x, w) => BookUntouched(s, x, AfterCycle(From(s, x), w), canClose);
    case Assign(x) => AssignKept(s, x, canClose);
    case CloseWrite(x) => CloseKept(s, x, canClose);
    case WgDone(x) => DoneKept(s, x, canClose);
    case Return =>
  }

  lemma AssignKept(s: State, x: Side, canClose: set<Side>)
    requires Booked(s, canClose) && Enabled(s, Assign(x))
    ensures Booked(Apply(s, Assign(x), canClose), canClose)
  {
  }

  lemma CloseKept(s: State, x: Side, canClose: set<Side>)
    requires Booked(s, canClose) && Enabled(s, CloseWrite(x))
    ensures Booked(Apply(s, CloseWrite(x), canClose), canClose)
  {
  }

  lemma DoneKept(s: State, x: Side, canClose: set<Side>)
    requires Booked(s, canClose) && Enabled(s, WgDone(x))
    ensures Booked(Apply(s, WgDone(x), canClose), canClose)
  {
  }

  lemma StepInv(s: State, step: Step, canClose: set<Side>)
    requires Inv(s, canClose) && Enabled(s, step)
    ensures Inv(Apply(s, step, canClose), canClose)
  {
    DirectionKept(s, step, canClose, A);
    DirectionKept(s, step, canClose, B);
    BookKept(s, step, canClose);
  }

  lemma {:induction false} RunInv(s: State, steps: seq<Step>, canClose: set<Side>)
    requires Inv(s, canClose) && Run(s, steps, canClose).Some?
    ensures Inv(Run(s, steps, canClose).value, canClose)
    decreases |steps|
  {
    if steps != [] {
      StepInv(s, steps[0], canClose);
      RunInv(Apply(s, steps[0], canClose), steps[1..], canClose);
    }
  }

  lemma StartInv(canClose: set<Side>)
    ensures Inv(Start(), canClose)
  {
    assert START.input[..0] == [];
  }

  // ---- Main results

  /** All octets that the peer of this direction's source has sent. */
  function SentBy(d: Direction): seq<byte> {
    Concat(Chunks(d.input))
  }

  /**
   One direction: what was delivered is what Copy delivers for these reads and writes; it is a prefix
   of what the peer sent, and all of it if Copy reported no error.
   */
  ghost predicate Faithful(d: Direction) {
    && d.taken <= |d.input|
    && d.delivered == CopySpec(d.input[..d.taken], d.writes).delivered
    && d.delivered <= SentBy(d)
    && (d.err == Some(NilError) ==> d.delivered == SentBy(d))
  }

  lemma DirectionFaithful(d: Direction)
    requires DirectionOk(d)
    ensures Faithful(d)
  {
    var past := d.input[..d.taken];
    CopyIsFaithful(past, d.writes);
    EarlierReads(d.input, d.taken);
    assert d.taken == |d.input| ==> past == d.input;
  }

  /**
   In every interleaving of the two goroutines, their peers and the caller: each side has received
   exactly what Copy delivers, a prefix of what the other side sent; the WaitGroup counts the
   goroutines that have not finished; a side is half-closed exactly when it supports that and the
   goroutine writing to it is past its copy and its CloseWrite; and the call has returned only if
   both goroutines have finished, with the delivered lengths.
   */
  lemma PipeIsFaithful(steps: seq<Step>, canClose: set<Side>)
    requires Run(Start(), steps, canClose).Some?
    ensures var s := Run(Start(), steps, canClose).value;
            && Faithful(s.fromA) && Faithful(s.fromB)
            && s.wg == Pending(s.fromA) + Pending(s.fromB)
            && (A in s.shut <==> A in canClose && PastClose(s.fromB.pc))
            && (B in s.shut <==> B in canClose && PastClose(s.fromA.pc))
            && (s.result.Some? ==> && s.fromA.pc.Done? && s.fromB.pc.Done?
                                   && s.result.value == (|s.fromA.delivered|, |s.fromB.delivered|))
  {
    StartInv(canClose);
    RunInv(Start(), steps, canClose);
    var s := Run(Start(), steps, canClose).value;
    DirectionFaithful(s.fromA);
    DirectionFaithful(s.fromB);
  }

  /** What has reached side y. */
  function Received(s: State, y: Side): seq<byte> {
    From(s, Other(y)).delivered
  }

  lemma {:induction false} FinishedStays(s: State, steps: seq<Step>, canClose: set<Side>, x: Side)
    requires Run(s, steps, canClose).Some? && !From(s, x).pc.Copying?
    ensures var t := Run(s, steps, canClose).value;
            From(t, x).delivered == From(s, x).delivered && From(t, x).total == From(s, x).total && !From(t, x).pc.Copying?
    ensures s.shut <= Run(s, steps, canClose).value.shut
    decreases |steps|
  {
    if steps != [] {
      FinishedStays(Apply(s, steps[0], canClose), steps[1..], canClose, x);
    }
  }

  /** No write reaches a side once its write half has been shut, whatever happens next. */
  lemma NothingAfterHalfClose(steps: seq<Step>, later: seq<Step>, canClose: set<Side>, y: Side)
    requires Run(Start(), steps, canClose).Some? && y in Run(Start(), steps, canClose).value.shut
    requires Run(Run(Start(), steps, canClose).value, later, canClose).Some?
    ensures var s := Run(Start(), steps, canClose).value;
            var t := Run(s, later, canClose).value;
            y in t.shut && Received(t, y) == Received(s, y)
  {
    StartInv(canClose);
    RunInv(Start(), steps, canClose);
    FinishedStays(Run(Start(), steps, canClose).value, later, canClose, Other(y));
  }

  // ---- The call returns

  function Rank(pc: Pc): nat {
    match pc
    case Copying => 4
    case Returned => 3
    case Assigned => 2
    case Shut => 1
    case Done => 0
  }

  /** How many steps the goroutine has left if nothing more arrives. */
  function StepsLeft(d: Direction): int {
    |d.input| - d.taken + Rank(d.pc)
  }

  function Left(s: State): int {
    StepsLeft(s.fromA) + StepsLeft(s.fromB) + (if s.result == None then 1 else 0)
  }

  lemma StepShrinks(s: State, step: Step, canClose: set<Side>)
    requires Enabled(s, step) && !step.Arrives?
    ensures Left(Apply(s, step, canClose)) < Left(s)
  {
  }

  lemma EndedStays(s: State, step: Step, canClose: set<Side>)
    requires Enabled(s, step) && Ended(s.fromA) && Ended(s.fromB)
    ensures !step.Arrives? && Ended(Apply(s, step, canClose).fromA) && Ended(Apply(s, step, canClose).fromB)
  {
  }

  lemma {:induction false} EndedRunIsBounded(s: State, steps: seq<Step>, canClose: set<Side>)
    requires Ended(s.fromA) && Ended(s.fromB) && Run(s, steps, canClose).Some?
    ensures var t := Run(s, steps, canClose).value;
            |steps| + Left(t) <= Left(s) && Ended(t.fromA) && Ended(t.fromB)
    decreases |steps|
  {
    if steps != [] {
      EndedStays(s, steps[0], canClose);
      StepShrinks(s, steps[0], canClose);
      EndedRunIsBounded(Apply(s, steps[0], canClose), steps[1..], canClose);
    }
  }

  /** The step that a goroutine, or the caller once both have finished, takes next. */
  function NextStep(s: State): Step {
    if s.fromA.pc.Done? && s.fromB.pc.Done? then Return
    else
      var x := if s.fromA.pc.Done? then B else A;
      match From(s, x).pc
      case Copying => Cycle(x, WriteEvent(BUFFER, false))
      case Returned => Assign(x)
      case Assigned => CloseWrite(x)
      case _ => WgDone(x)
  }

  /**
   Once both peers have ended, the call returns: whatever the scheduling and the writes, at most a
   fixed number of steps is left, and as long as the call has not returned some step can be taken.
   */
  lemma ReturnsOnceBothEnded(steps: seq<Step>, later: seq<Step>, canClose: set<Side>)
    requires Run(Start(), steps, canClose).Some?
    requires var s := Run(Start(), steps, canClose).value; Ended(s.fromA) && Ended(s.fromB) && Run(s, later, canClose).Some?
    ensures var s := Run(Start(), steps, canClose).value;
            var t := Run(s, later, canClose).value;
            && |later| <= |s.fromA.input| + |s.fromB.input| + 9
            && (t.result == None ==> Enabled(t, NextStep(t)))
  {
    StartInv(canClose);
    RunInv(Start(), steps, canClose);
    var s := Run(Start(), steps, canClose).value;
    RunInv(s, later, canClose);
    EndedRunIsBounded(s, later, canClose);
  }
}
