/** What holds over every run of the UDP relay, for every interleaving and every socket outcome. */
module UdpTheorems {
  import opened Base
  import opened UdpTable
  import opened UdpRelay
  import opened UdpProofs

  /** `s` is the state after `steps` from an empty relay started at time `start`. */
  ghost predicate Reaches(start: nat, steps: seq<Step>, s: State) {
    exists zeroes: seq<byte> :: |zeroes| == BUFFER_SIZE && Run(Init(start, zeroes), steps) == Some(s)
  }

  predicate Running(pc: RelayPc) {
    pc.Reading? || pc.Got? || pc.Counted? || pc.Touched? || pc.ReadFailed?
  }

  lemma ReachableInv(start: nat, steps: seq<Step>, s: State)
    requires Reaches(start, steps, s)
    ensures Inv(s)
  {
    var zeroes: seq<byte> :| |zeroes| == BUFFER_SIZE && Run(Init(start, zeroes), steps) == Some(s);
    RunInv(Init(start, zeroes), steps);
  }

  /**
   Socket ownership: an open target socket is tabled under the key it was dialed for, or its relay
   has taken the read-error exit and is about to close it; no tabled session's socket is closed.
   Each session has exactly one relay goroutine, and a tabled session's relay is running if and only
   if the run so far has no failed client write of that relay.
   */
  lemma SocketOwnership(start: nat, steps: seq<Step>, s: State, sid: nat)
    requires Reaches(start, steps, s) && sid < |s.table.pool|
    ensures s.table.pool[sid].open ==>
              Tabled(s.table, sid) || (sid < |s.relays| && s.relays[sid].pc.Removed?)
    ensures Tabled(s.table, sid) ==> s.table.pool[sid].open
    ensures forall k <- s.table.sessions :: s.table.sessions[k] == sid ==> k == s.table.pool[sid].key
    ensures |s.relays| == |s.table.pool|
    ensures forall r: nat | r < |s.relays| :: s.relays[r].sid == sid <==> r == sid
    ensures Tabled(s.table, sid) ==> (Running(s.relays[sid].pc) <==> ByRelay(sid, SendFails) !in steps)
  {
    ReachableInv(start, steps, s);
    AbandonedExactly(start, steps, s, sid);
  }

  ghost predicate HasAbandoned(s: State, r: nat) {
    r < |s.relays| && s.relays[r].pc.Abandoned?
  }

  lemma StepAbandons(s: State, step: Step, r: nat)
    requires Shape(s.relays, s.table) && Enabled(s, step)
    ensures HasAbandoned(Apply(s, step), r) <==> HasAbandoned(s, r) || step == ByRelay(r, SendFails)
  {
  }

  lemma {:induction false} RunAbandons(s: State, steps: seq<Step>, r: nat)
    requires Inv(s) && Run(s, steps).Some?
    ensures HasAbandoned(Run(s, steps).value, r) <==> HasAbandoned(s, r) || ByRelay(r, SendFails) in steps
    decreases |steps|
  {
    if steps != [] {
      StepInv(s, steps[0]);
      StepAbandons(s, steps[0], r);
      RunAbandons(Apply(s, steps[0]), steps[1..], r);
      InFirstOrRest(steps, ByRelay(r, SendFails));
    }
  }

  lemma InFirstOrRest(steps: seq<Step>, step: Step)
    requires steps != []
    ensures step in steps <==> step == steps[0] || step in steps[1..]
  {
    assert steps == [steps[0]] + steps[1..];
  }

  /** A relay has left by the exit that removes nothing exactly when one of its client writes failed. */
  lemma AbandonedExactly(start: nat, steps: seq<Step>, s: State, r: nat)
    requires Reaches(start, steps, s)
    ensures r < |s.relays| && s.relays[r].pc.Abandoned? <==> ByRelay(r, SendFails) in steps
  {
    var zeroes: seq<byte> :| |zeroes| == BUFFER_SIZE && Run(Init(start, zeroes), steps) == Some(s);
    RunAbandons(Init(start, zeroes), steps, r);
  }

  /** Session `sid` did not come back to life between two tables. */
  ghost predicate NotRevived(t: Table, u: Table, sid: nat)
    requires sid < |t.pool|
  {
    && sid < |u.pool|
    && (Tabled(u, sid) ==> Tabled(t, sid))
    && (u.pool[sid].open ==> t.pool[sid].open)
  }

  lemma MainNeverRevives(s: State, m: MainStep, sid: nat)
    requires Shape(s.relays, s.table) && MainEnabled(s, m) && sid < |s.table.pool|
    ensures NotRevived(s.table, ApplyMain(s, m).table, sid)
  {
    if m.Route? && m.dialSucceeds && s.main.client !in s.table.sessions {
      DialTables(s.table, s.main.client, s.now);
    }
  }

  lemma RelayNeverRevives(s: State, r: nat, a: RelayStep, sid: nat)
    requires Shape(s.relays, s.table) && RelayEnabled(s, r, a) && sid < |s.table.pool|
    ensures NotRevived(s.table, ApplyRelay(s, r, a).table, sid)
  {
    RemoveTables(s.table, r);
  }

  /** A step never puts an old session back into the table and never reopens a socket. */
  lemma StepNeverRevives(s: State, step: Step, sid: nat)
    requires Shape(s.relays, s.table) && Enabled(s, step) && sid < |s.table.pool|
    ensures NotRevived(s.table, Apply(s, step).table, sid)
  {
    match step
    case Advance(_) =>
    case ByMain(m) => MainNeverRevives(s, m, sid);
    case ByRelay(r, a) => RelayNeverRevives(s, r, a, sid);
    case ByReaper(p) =>
      if p.ScanVisit? {
        ReapTables(s.table, p.key, s.reaper.at);
      }
  }

  lemma {:induction false} RunNeverRevives(s: State, steps: seq<Step>, sid: nat)
    requires Inv(s) && Run(s, steps).Some? && sid < |s.table.pool|
    ensures NotRevived(s.table, Run(s, steps).value.table, sid)
    decreases |steps|
  {
    if steps != [] {
      StepInv(s, steps[0]);
      StepNeverRevives(s, steps[0], sid);
      RunNeverRevives(Apply(s, steps[0]), steps[1..], sid);
    }
  }

  /** A session removed from the table never returns to it, and a closed socket stays closed. */
  lemma RemovedForGood(start: nat, steps: seq<Step>, s: State, later: seq<Step>, sid: nat)
    requires Reaches(start, steps, s) && Run(s, later).Some? && sid < |s.table.pool|
    ensures var u := Run(s, later).value.table;
            && sid < |u.pool|
            && (!Tabled(s.table, sid) ==> !Tabled(u, sid))
            && (!s.table.pool[sid].open ==> !u.pool[sid].open)
  {
    ReachableInv(start, steps, s);
    RunNeverRevives(s, later, sid);
  }

  /**
   Whatever a relay does, it leaves every other session's entry alone; in particular the late exit
   of a relay whose session was reaped does not remove the session dialed since for the same client.
   */
  lemma LateExitKeepsReplacement(start: nat, steps: seq<Step>, s: State, r: nat, a: RelayStep, k: Addr)
    requires Reaches(start, steps, s) && RelayEnabled(s, r, a)
    requires k in s.table.sessions && s.table.sessions[k] != s.relays[r].sid
    ensures var u := ApplyRelay(s, r, a);
            && k in u.table.sessions && u.table.sessions[k] == s.table.sessions[k]
            && s.table.sessions[k] < |s.table.pool| == |u.table.pool|
            && u.table.pool[s.table.sessions[k]] == s.table.pool[s.table.sessions[k]]
            && (k == s.relays[r].key ==> u.table.sessions == s.table.sessions)
  {
    ReachableInv(start, steps, s);
  }

  /**
   No traffic crosses clients. Every datagram sent to a client was read from a socket dialed for
   that client, and per session the datagrams sent are exactly those read, in order, save possibly
   the last. Every successful target write carries a client datagram unmodified to a socket dialed
   for its sender; no datagram is written twice and writes follow arrival order.
   */
  lemma NoCrossTraffic(start: nat, steps: seq<Step>, s: State)
    requires Reaches(start, steps, s)
    ensures forall i | 0 <= i < |s.log.sends| ::
              var e := s.log.sends[i];
              e.sid < |s.table.pool| && s.table.pool[e.sid].key == e.about && Of(s.log.sends, e.sid) <= Of(s.log.replies, e.sid)
    ensures forall sid: nat | sid < |s.table.pool| ::
              |Of(s.log.sends, sid)| <= |Of(s.log.replies, sid)| <= |Of(s.log.sends, sid)| + 1
    ensures forall i | 0 <= i < |s.log.writes| ::
              var w := s.log.writes[i];
              && w.sid < |s.table.pool| && 0 < w.about <= |s.log.arrivals|
              && s.log.arrivals[w.about - 1] == Datagram(s.table.pool[w.sid].key, w.data)
    ensures forall i, j | 0 <= i < j < |s.log.writes| :: s.log.writes[i].about < s.log.writes[j].about
  {
    ReachableInv(start, steps, s);
    forall i | 0 <= i < |s.log.writes| ensures WriteFaithful(s.log.writes[i], s.log.arrivals, s.table) {
    }
    forall sid: nat | sid < |s.table.pool|
      ensures Of(s.log.sends, sid) <= Of(s.log.replies, sid)
      ensures |Of(s.log.replies, sid)| <= |Of(s.log.sends, sid)| + 1
    {
      assert RelayFaithful(s.relays[sid], s.log.replies, s.log.sends);
    }
  }

  /** The step gives a client's datagram up: its target write failed, or a needed dial did. */
  predicate GivesUp(s: State, step: Step) {
    || step == ByMain(TargetWriteFails)
    || (step == ByMain(Route(false)) && s.main.HasPacket? && s.main.client !in s.table.sessions)
  }

  /** How many datagrams were given up in the run. */
  function GivenUp(s: State, steps: seq<Step>): nat
    requires Run(s, steps).Some?
    decreases |steps|
  {
    if steps == [] then 0
    else (if GivesUp(s, steps[0]) then 1 else 0) + GivenUp(Apply(s, steps[0]), steps[1..])
  }

  /** Datagrams the receive loop has dealt with and not written. */
  function Unwritten(s: State): int {
    Handled(s.main, s.log.arrivals) - |s.log.writes|
  }

  lemma StepUnwritten(s: State, step: Step)
    requires MainOk(s.main, s.buf, s.log.arrivals, s.table) && Enabled(s, step)
    ensures Unwritten(Apply(s, step)) == Unwritten(s) + (if GivesUp(s, step) then 1 else 0)
  {
  }

  lemma {:induction false} RunUnwritten(s: State, steps: seq<Step>)
    requires Inv(s) && Run(s, steps).Some?
    ensures Unwritten(Run(s, steps).value) == Unwritten(s) + GivenUp(s, steps)
    decreases |steps|
  {
    if steps != [] {
      StepInv(s, steps[0]);
      StepUnwritten(s, steps[0]);
      RunUnwritten(Apply(s, steps[0]), steps[1..]);
    }
  }

  /**
   No datagram is dropped in silence: over every run the datagrams that arrived are those written to
   a target, those whose target write failed, those of a client without a session whose dial failed,
   and at most the one in the receive loop's hands.
   */
  lemma EveryDatagramAccountedFor(start: nat, zeroes: seq<byte>, steps: seq<Step>)
    requires |zeroes| == BUFFER_SIZE && Run(Init(start, zeroes), steps).Some?
    ensures var s := Run(Init(start, zeroes), steps).value;
            |s.log.arrivals| == |s.log.writes| + GivenUp(Init(start, zeroes), steps)
                                + (if s.main.HasPacket? || s.main.Routed? then 1 else 0)
  {
    RunUnwritten(Init(start, zeroes), steps);
    RunInv(Init(start, zeroes), steps);
  }

  /**
   In every reachable state a client's datagram goes to the session tabled for it now, not to an
   earlier one; without an entry it goes to a new session, or nowhere if the dial fails.
   */
  lemma RoutesToTabled(start: nat, steps: seq<Step>, s: State, dialSucceeds: bool)
    requires Reaches(start, steps, s) && MainEnabled(s, Route(dialSucceeds))
    ensures var u := ApplyMain(s, Route(dialSucceeds));
            && (u.main.Routed? <==> s.main.client in s.table.sessions || dialSucceeds)
            && (u.main.Routed? ==> && u.main.client == s.main.client && u.main.n == s.main.n && u.main.sid < |u.table.pool|
                                   && Tabled(u.table, u.main.sid) && u.table.pool[u.main.sid].key == s.main.client
                                   && u.table.pool[u.main.sid].open)
            && (s.main.client in s.table.sessions ==> u.table.sessions == s.table.sessions && u.relays == s.relays)
            && (!u.main.Routed? ==> u == s.(main := Receiving))
  {
    ReachableInv(start, steps, s);
    MainTable(s, Route(dialSucceeds));
  }

  /** Bytes counted as received but not delivered: the reply in flight, or the one finally lost. */
  function Undelivered(pc: RelayPc): nat {
    match pc
    case Counted(n) => n
    case Touched(n) => n
    case Abandoned(n) => n
    case _ => 0
  }

  /** Per-session byte counters are exact at every moment of every run. */
  lemma Accounting(start: nat, steps: seq<Step>, s: State, sid: nat)
    requires Reaches(start, steps, s) && sid < |s.table.pool|
    ensures s.table.pool[sid].sent + Uncounted(s.main, sid) == Total(Of(s.log.writes, sid))
    ensures sid < |s.relays|
    ensures s.table.pool[sid].recv == Total(Of(s.log.sends, sid)) + Undelivered(s.relays[sid].pc)
    ensures !s.relays[sid].pc.Got? ==> s.table.pool[sid].recv == Total(Of(s.log.replies, sid))
  {
    ReachableInv(start, steps, s);
    ReceivedAt(s.relays, s.log, s.table, sid);
  }

  lemma ReceivedAt(relays: seq<Relay>, log: Log, t: Table, sid: nat)
    requires Shape(relays, t) && RepliesFaithful(relays, log.replies, log.sends) && RecvCounted(relays, log.replies, t)
    requires sid < |t.pool|
    ensures t.pool[sid].recv == Total(Of(log.sends, sid)) + Undelivered(relays[sid].pc)
    ensures !relays[sid].pc.Got? ==> t.pool[sid].recv == Total(Of(log.replies, sid))
  {
    assert RelayFaithful(relays[sid], log.replies, log.sends);
    ReadIsSentPlusHeld(relays[sid], log.replies, log.sends);
  }

  lemma ReadIsSentPlusHeld(relay: Relay, replies: seq<Entry<()>>, sends: seq<Entry<Addr>>)
    requires RelayFaithful(relay, replies, sends)
    ensures Total(Of(replies, relay.sid)) ==
            Total(Of(sends, relay.sid)) + (if Holding(relay.pc).Some? then Holding(relay.pc).value else 0)
  {
    var sent := Of(sends, relay.sid);
    if Holding(relay.pc).Some? {
      TotalAppend(sent, relay.buf[..Holding(relay.pc).value]);
    } else {
      assert sent + [] == sent;
    }
  }

  /**
   An entry leaves the table in two ways only: its own relay saw a read error, or the reaper found
   it untouched for more than two minutes.
   */
  lemma RemovalsAreJustified(start: nat, steps: seq<Step>, s: State, step: Step, k: Addr)
    requires Reaches(start, steps, s) && Enabled(s, step)
    requires k in s.table.sessions && k !in Apply(s, step).table.sessions
    ensures s.table.sessions[k] < |s.table.pool|
    ensures || step == ByRelay(s.table.sessions[k], RemoveEntry)
            || (step == ByReaper(ScanVisit(k)) && s.now > s.table.pool[s.table.sessions[k]].last + IDLE_TIMEOUT)
  {
    ReachableInv(start, steps, s);
    OnlyTwoWaysOut(s, step, k);
  }

  lemma OnlyTwoWaysOut(s: State, step: Step, k: Addr)
    requires Shape(s.relays, s.table) && ScanOk(s.now, s.lastScan, s.reaper, s.table) && Enabled(s, step)
    requires k in s.table.sessions && k !in Apply(s, step).table.sessions
    ensures || step == ByRelay(s.table.sessions[k], RemoveEntry)
            || (step == ByReaper(ScanVisit(k)) && s.now > s.table.pool[s.table.sessions[k]].last + IDLE_TIMEOUT)
  {
  }

  /**
   The step is traffic of session `sid`: a datagram of its client is routed to it, the first one by
   dialing it, or its relay passes on a reply.
   */
  predicate Traffic(s: State, step: Step, sid: nat)
    requires Enabled(s, step)
  {
    || (step.ByMain? && step.m.Route? && Apply(s, step).main.Routed? && Apply(s, step).main.sid == sid)
    || (step.ByRelay? && step.a.TouchSession? && s.relays[step.r].sid == sid)
  }

  /** Step number i of the run, taken in state `s`, is traffic of the session. */
  ghost predicate TrafficAt(s0: State, steps: seq<Step>, i: nat, s: State, sid: nat)
    requires i < |steps|
  {
    Run(s0, steps[..i]) == Some(s) && Enabled(s, steps[i]) && Traffic(s, steps[i], sid)
  }

  /** Traffic at `time`, and none of this session after it. */
  ghost predicate LatestTraffic(s0: State, steps: seq<Step>, sid: nat, time: nat) {
    exists i: nat, s | i < |steps| && TrafficAt(s0, steps, i, s, sid) ::
      s.now == time && forall j: nat, t | i < j < |steps| :: !TrafficAt(s0, steps, j, t, sid)
  }

  lemma {:induction false} RunSnoc(s: State, steps: seq<Step>, step: Step)
    ensures Run(s, steps + [step]) ==
            if Run(s, steps).Some? && Enabled(Run(s, steps).value, step) then Some(Apply(Run(s, steps).value, step)) else None
    decreases |steps|
  {
    if steps == [] {
      assert steps + [step] == [step] && [step][1..] == [];
    } else if Enabled(s, steps[0]) {
      assert (steps + [step])[1..] == steps[1..] + [step];
      RunSnoc(Apply(s, steps[0]), steps[1..], step);
    }
  }

  lemma TouchesExactly(s: State, step: Step, sid: nat)
    requires Shape(s.relays, s.table) && Enabled(s, step) && sid < |Apply(s, step).table.pool|
    ensures Traffic(s, step, sid) ==> Apply(s, step).table.pool[sid].last == s.now
    ensures !Traffic(s, step, sid) ==> sid < |s.table.pool| && Apply(s, step).table.pool[sid].last == s.table.pool[sid].last
  {
    if step.ByReaper? && step.p.ScanVisit? {
      ReapTables(s.table, step.p.key, s.reaper.at);
    }
  }

  lemma TrafficNow(s0: State, steps: seq<Step>, step: Step, s: State, sid: nat)
    requires Run(s0, steps) == Some(s) && Enabled(s, step) && Traffic(s, step, sid)
    ensures LatestTraffic(s0, steps + [step], sid, s.now)
  {
    var all, n := steps + [step], |steps|;
    assert all[..n] == steps && all[n] == step;
    assert TrafficAt(s0, all, n, s, sid);
  }

  lemma TrafficBefore(s0: State, steps: seq<Step>, step: Step, s: State, sid: nat, time: nat)
    requires Run(s0, steps) == Some(s) && Enabled(s, step) && !Traffic(s, step, sid) && LatestTraffic(s0, steps, sid, time)
    ensures LatestTraffic(s0, steps + [step], sid, time)
  {
    var all, n := steps + [step], |steps|;
    var i: nat, m :| i < n && TrafficAt(s0, steps, i, m, sid) && m.now == time
                     && forall j: nat, t | i < j < n :: !TrafficAt(s0, steps, j, t, sid);
    assert all[..i] == steps[..i] && all[i] == steps[i];
    assert TrafficAt(s0, all, i, m, sid);
    forall j: nat, t | i < j < |all| ensures !TrafficAt(s0, all, j, t, sid) {
      if j == n {
        assert all[..n] == steps && all[n] == step;
      } else {
        assert all[..j] == steps[..j] && all[j] == steps[j];
        assert !TrafficAt(s0, steps, j, t, sid);
      }
    }
  }

  lemma {:induction false} LastInRun(s0: State, steps: seq<Step>, sid: nat)
    requires Inv(s0) && s0.table.pool == [] && Run(s0, steps).Some? && sid < |Run(s0, steps).value.table.pool|
    ensures LatestTraffic(s0, steps, sid, Run(s0, steps).value.table.pool[sid].last)
    decreases |steps|
  {
    if steps != [] {
      var most, step := steps[..|steps| - 1], steps[|steps| - 1];
      assert steps == most + [step];
      RunSnoc(s0, most, step);
      var s := Run(s0, most).value;
      RunInv(s0, most);
      TouchesExactly(s, step, sid);
      if Traffic(s, step, sid) {
        TrafficNow(s0, most, step, s, sid);
      } else {
        LastInRun(s0, most, sid);
        TrafficBefore(s0, most, step, s, sid, s.table.pool[sid].last);
      }
    }
  }

  /**
   Over every run, `last` of a session is the time of the latest step that was traffic of that
   session in either direction, the routing that dialed it being the first.
   */
  lemma LastIsLatestTraffic(start: nat, zeroes: seq<byte>, steps: seq<Step>, sid: nat)
    requires |zeroes| == BUFFER_SIZE && Run(Init(start, zeroes), steps).Some?
    requires sid < |Run(Init(start, zeroes), steps).value.table.pool|
    ensures LatestTraffic(Init(start, zeroes), steps, sid, Run(Init(start, zeroes), steps).value.table.pool[sid].last)
  {
    LastInRun(Init(start, zeroes), steps, sid);
  }

  /**
   In every reachable state the only conditions on a step are its thread's program point, the mutex
   and the state of the socket: the index and length conditions in the guards never hold a step up.
   */
  lemma OnlySocketsAndMutexBlock(start: nat, steps: seq<Step>, s: State, r: nat, key: Addr, data: seq<byte>, dialSucceeds: bool)
    requires Reaches(start, steps, s)
    ensures MainEnabled(s, Receive(key, data)) <==> s.main.Receiving? && |data| <= 65536
    ensures MainEnabled(s, TargetWriteFails) <==> s.main.Routed?
    ensures ReaperEnabled(s, ScanBegin) <==> MutexFree(s)
    ensures ReaperEnabled(s, ScanEnd) <==> s.reaper.Scanning? && s.reaper.pending == {}
    ensures MainEnabled(s, Route(dialSucceeds)) <==> s.main.HasPacket? && MutexFree(s)
    ensures s.main.Routed? ==> s.main.sid < |s.table.pool|
    ensures MainEnabled(s, TargetWriteOk) <==> s.main.Routed? && s.table.pool[s.main.sid].open
    ensures MainEnabled(s, CountSent) <==> s.main.Wrote?
    ensures r < |s.relays| ==>
              && r < |s.table.pool|
              && (RelayEnabled(s, r, ReadReply(data)) <==> s.relays[r].pc.Reading? && s.table.pool[r].open && |data| <= 65536)
              && (RelayEnabled(s, r, ReadFails) <==> s.relays[r].pc.Reading?)
              && (RelayEnabled(s, r, SendFails) <==> s.relays[r].pc.Touched?)
              && (RelayEnabled(s, r, CountRecv) <==> s.relays[r].pc.Got?)
              && (RelayEnabled(s, r, TouchSession) <==> s.relays[r].pc.Counted? && MutexFree(s))
              && (RelayEnabled(s, r, SendOk) <==> s.relays[r].pc.Touched?)
              && (RelayEnabled(s, r, RemoveEntry) <==> s.relays[r].pc.ReadFailed? && MutexFree(s))
              && (RelayEnabled(s, r, CloseTarget) <==> s.relays[r].pc.Removed?)
    ensures ReaperEnabled(s, ScanVisit(key)) <==> s.reaper.Scanning? && key in s.reaper.pending
  {
    ReachableInv(start, steps, s);
    MainNotHeldUp(s, dialSucceeds);
    if r < |s.relays| {
      RelayNotHeldUp(s, r, data);
    }
    ReaperNotHeldUp(s, key);
  }

  lemma MainNotHeldUp(s: State, dialSucceeds: bool)
    requires Shape(s.relays, s.table) && MainOk(s.main, s.buf, s.log.arrivals, s.table)
    ensures MainEnabled(s, Route(dialSucceeds)) <==> s.main.HasPacket? && MutexFree(s)
    ensures s.main.Routed? ==> s.main.sid < |s.table.pool|
    ensures MainEnabled(s, TargetWriteOk) <==> s.main.Routed? && s.table.pool[s.main.sid].open
    ensures MainEnabled(s, CountSent) <==> s.main.Wrote?
  {
  }

  lemma RelayNotHeldUp(s: State, r: nat, data: seq<byte>)
    requires Shape(s.relays, s.table) && r < |s.relays| && RelayFaithful(s.relays[r], s.log.replies, s.log.sends)
    ensures RelayEnabled(s, r, ReadReply(data)) <==> s.relays[r].pc.Reading? && s.table.pool[r].open && |data| <= 65536
    ensures RelayEnabled(s, r, ReadFails) <==> s.relays[r].pc.Reading?
    ensures RelayEnabled(s, r, SendFails) <==> s.relays[r].pc.Touched?
    ensures RelayEnabled(s, r, CountRecv) <==> s.relays[r].pc.Got?
    ensures RelayEnabled(s, r, TouchSession) <==> s.relays[r].pc.Counted? && MutexFree(s)
    ensures RelayEnabled(s, r, SendOk) <==> s.relays[r].pc.Touched?
    ensures RelayEnabled(s, r, RemoveEntry) <==> s.relays[r].pc.ReadFailed? && MutexFree(s)
    ensures RelayEnabled(s, r, CloseTarget) <==> s.relays[r].pc.Removed?
  {
  }

  lemma ReaperNotHeldUp(s: State, key: Addr)
    requires WellKeyed(s.table) && ScanOk(s.now, s.lastScan, s.reaper, s.table)
    ensures ReaperEnabled(s, ScanVisit(key)) <==> s.reaper.Scanning? && key in s.reaper.pending
  {
  }

  /** The reaper's ticker is on time: no clock step passes the next tick or falls inside a scan. */
  ghost predicate Punctual(s: State, steps: seq<Step>)
    requires Run(s, steps).Some?
    decreases |steps|
  {
    steps == []
    || (&& (steps[0].Advance? ==> s.reaper.Sleeping? && s.now + steps[0].d <= s.lastScan + REAP_PERIOD)
        && Punctual(Apply(s, steps[0]), steps[1..]))
  }

  lemma {:induction false} PunctualBound(s: State, steps: seq<Step>)
    requires Inv(s) && s.now <= s.lastScan + REAP_PERIOD && Run(s, steps).Some? && Punctual(s, steps)
    ensures Run(s, steps).value.now <= Run(s, steps).value.lastScan + REAP_PERIOD
    decreases |steps|
  {
    if steps != [] {
      StepInv(s, steps[0]);
      PunctualBound(Apply(s, steps[0]), steps[1..]);
    }
  }

  /**
   With ticks every minute, a session still in the table has been touched within the last three
   minutes; right after a scan, within the last two before that scan.
   */
  lemma IdleSessionsGoWithinThreeMinutes(start: nat, zeroes: seq<byte>, steps: seq<Step>, k: Addr)
    requires |zeroes| == BUFFER_SIZE && Run(Init(start, zeroes), steps).Some? && Punctual(Init(start, zeroes), steps)
    requires var s := Run(Init(start, zeroes), steps).value; s.reaper.Sleeping? && k in s.table.sessions
    ensures var s := Run(Init(start, zeroes), steps).value;
            && s.table.sessions[k] < |s.table.pool|
            && s.lastScan <= s.table.pool[s.table.sessions[k]].last + 120 * SECOND
            && s.now <= s.table.pool[s.table.sessions[k]].last + 180 * SECOND
  {
    RunInv(Init(start, zeroes), steps);
    PunctualBound(Init(start, zeroes), steps);
  }

  // ---- The exit that leaves a session behind.

  lemma StepKeepsAbandoned(s: State, step: Step, r: nat)
    requires Shape(s.relays, s.table) && Enabled(s, step) && r < |s.relays| && s.relays[r].pc.Abandoned?
    ensures var u := Apply(s, step);
            r < |u.relays| && u.relays[r] == s.relays[r] && Of(u.log.sends, r) == Of(s.log.sends, r)
  {
    if step.ByRelay? && step.a.SendOk? {
      OfAppend(s.log.sends, Apply(s, step).log.sends[|s.log.sends|], r);
    }
  }

  lemma {:induction false} AbandonedForever(s: State, steps: seq<Step>, r: nat)
    requires Inv(s) && Run(s, steps).Some? && r < |s.relays| && s.relays[r].pc.Abandoned?
    ensures var u := Run(s, steps).value;
            r < |u.relays| && u.relays[r] == s.relays[r] && Of(u.log.sends, r) == Of(s.log.sends, r)
    decreases |steps|
  {
    if steps != [] {
      StepInv(s, steps[0]);
      StepKeepsAbandoned(s, steps[0], r);
      AbandonedForever(Apply(s, steps[0]), steps[1..], r);
    }
  }

  /**
   A failed client write strands the session: it stays tabled with an open socket that nobody reads
   any more, and no continuation ever sends the client another reply from it.
   */
  lemma FailedClientWriteStrandsSession(start: nat, steps: seq<Step>, s: State, r: nat, later: seq<Step>)
    requires Reaches(start, steps, s) && RelayEnabled(s, r, SendFails)
    requires s.relays[r].sid == r && Tabled(s.table, r)
    requires Run(ApplyRelay(s, r, SendFails), later).Some?
    ensures var u := ApplyRelay(s, r, SendFails);
            Tabled(u.table, r) && u.table.pool[r].open && !Running(u.relays[r].pc)
    ensures var v := Run(ApplyRelay(s, r, SendFails), later).value;
            r < |v.relays| && v.relays[r].pc.Abandoned? && Of(v.log.sends, r) == Of(s.log.sends, r)
  {
    ReachableInv(start, steps, s);
    SendFailsKeepsEntry(s, r);
    AbandonedForever(ApplyRelay(s, r, SendFails), later, r);
  }

  lemma SendFailsKeepsEntry(s: State, r: nat)
    requires Inv(s) && RelayEnabled(s, r, SendFails) && Tabled(s.table, r)
    ensures var u := ApplyRelay(s, r, SendFails);
            Inv(u) && u.table == s.table && u.table.pool[r].open && u.relays[r].pc.Abandoned? && u.log.sends == s.log.sends
  {
    RelayInv(s, r, SendFails);
  }

  /** A datagram, its reply, and a client write that fails. */
  function StrandingRun(client: Addr, data: seq<byte>, reply: seq<byte>): seq<Step> {
    [ByMain(Receive(client, data)), ByMain(Route(true)), ByRelay(0, ReadReply(reply)), ByRelay(0, CountRecv),
     ByRelay(0, TouchSession), ByRelay(0, SendFails)]
  }

  /** It happens: for every client, datagram and reply there is a run that strands the session. */
  lemma StrandingHappens(start: nat, zeroes: seq<byte>, client: Addr, data: seq<byte>, reply: seq<byte>)
    requires |zeroes| == BUFFER_SIZE && |data| <= BUFFER_SIZE && |reply| <= BUFFER_SIZE
    ensures var r := Run(Init(start, zeroes), StrandingRun(client, data, reply));
            && r.Some? && |r.value.relays| == |r.value.table.pool| == 1
            && Tabled(r.value.table, 0) && r.value.table.pool[0].key == client && r.value.table.pool[0].open
            && !Running(r.value.relays[0].pc)
  {
    var steps := StrandingRun(client, data, reply);
    var s0 := Init(start, zeroes);
    var s2 := FirstSession(start, zeroes, client, data);
    ReplyLost(s2, reply);
    assert steps[1..][1..] == steps[2..];
  }

  lemma FirstSession(start: nat, zeroes: seq<byte>, client: Addr, data: seq<byte>) returns (s: State)
    requires |zeroes| == BUFFER_SIZE && |data| <= BUFFER_SIZE
    ensures var s0 := Init(start, zeroes);
            Enabled(s0, ByMain(Receive(client, data))) && Enabled(Apply(s0, ByMain(Receive(client, data))), ByMain(Route(true)))
            && s == Apply(Apply(s0, ByMain(Receive(client, data))), ByMain(Route(true)))
    ensures s.table == Table(map[client := 0], [Session(client, true, start, 0, 0)]) && MutexFree(s)
    ensures |s.relays| == 1 && s.relays[0].sid == 0 && s.relays[0].pc.Reading? && |s.relays[0].buf| == BUFFER_SIZE
  {
    var s1 := Apply(Init(start, zeroes), ByMain(Receive(client, data)));
    s := Apply(s1, ByMain(Route(true)));
  }

  lemma ReplyLost(s: State, reply: seq<byte>)
    requires |s.relays| == |s.table.pool| == 1 && s.relays[0].sid == 0 && s.relays[0].pc.Reading?
    requires s.table.pool[0].open && |reply| <= |s.relays[0].buf| && MutexFree(s)
    ensures var r := Run(s, [ByRelay(0, ReadReply(reply)), ByRelay(0, CountRecv), ByRelay(0, TouchSession), ByRelay(0, SendFails)]);
            && r.Some? && |r.value.relays| == |r.value.table.pool| == 1 && r.value.table.sessions == s.table.sessions
            && r.value.table.pool[0].key == s.table.pool[0].key && r.value.table.pool[0].open && r.value.relays[0].pc.Abandoned?
  {
    var steps := [ByRelay(0, ReadReply(reply)), ByRelay(0, CountRecv), ByRelay(0, TouchSession), ByRelay(0, SendFails)];
    var s1 := Apply(s, steps[0]);
    var s2 := Apply(s1, steps[1]);
    var s3 := Apply(s2, steps[2]);
    var s4 := Apply(s3, steps[3]);
    assert steps[3..][1..] == [] && Run(s3, steps[3..]) == Some(s4);
    assert steps[2..][1..] == steps[3..] && Run(s2, steps[2..]) == Some(s4);
    assert steps[1..][1..] == steps[2..] && Run(s1, steps[1..]) == Some(s4);
  }

  /** Two idle minutes are all that ends a stranded session; until then its client feeds it. */
  lemma StrandedUntilIdle(start: nat, steps: seq<Step>, s: State, step: Step, sid: nat)
    requires Reaches(start, steps, s) && Enabled(s, step)
    requires sid < |s.table.pool| && sid < |s.relays| && s.relays[sid].pc.Abandoned? && Tabled(s.table, sid)
    ensures s.table.pool[sid].key !in Apply(s, step).table.sessions ==>
              step == ByReaper(ScanVisit(s.table.pool[sid].key)) && s.now > s.table.pool[sid].last + IDLE_TIMEOUT
    ensures step.ByMain? && step.m.Route? && s.main.client == s.table.pool[sid].key ==>
              Apply(s, step).main == Routed(s.main.client, sid, s.main.n) && Apply(s, step).table.pool[sid].last == s.now
  {
    if s.table.pool[sid].key !in Apply(s, step).table.sessions {
      RemovalsAreJustified(start, steps, s, step, s.table.pool[sid].key);
    }
  }
}
