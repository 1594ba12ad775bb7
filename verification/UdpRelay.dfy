/**
 The UDP relay as a transition system (internal/relay/udp.go:66-169).

 Three kinds of thread interleave freely: the receive loop, one reply relay per session, and the
 reaper. A step is one lock-held section, or one socket operation or atomic counter update made
 outside the lock. The reaper's scan holds the mutex over several steps, so it interleaves with
 the unlocked steps of the others. Every outcome of a socket operation is a parameter of its step.

 `log` records what crossed the sockets; no guard reads it.
 */
module UdpRelay {
  import opened Base
  import opened UdpTable

  datatype MainPc =
    | Receiving                            // blocked in ReadFromUDP
    | HasPacket(client: Addr, n: nat)      // datagram in the buffer, before mu.Lock
    | Routed(client: Addr, sid: nat, n: nat) // after mu.Unlock, holding sess in a local
    | Wrote(sid: nat, n: nat)              // target write succeeded, before sent.Add

  datatype RelayPc =
    | Reading                // blocked in Read on the target socket
    | Got(n: nat)            // a reply is in the buffer, before recv.Add
    | Counted(n: nat)        // before mu.Lock
    | Touched(n: nat)        // after mu.Unlock, before WriteToUDP
    | ReadFailed             // read error, before mu.Lock
    | Removed                // after mu.Unlock, before Close
    | Exited                 // returned through the read-error exit
    | Abandoned(n: nat)      // returned through a failed WriteToUDP

  datatype ReaperPc = Sleeping | Scanning(at: nat, pending: set<Addr>)

  /** A reply relay goroutine with the values it was started with and its own buffer. */
  datatype Relay = Relay(sid: nat, key: Addr, client: Addr, buf: seq<byte>, pc: RelayPc)

  datatype Datagram = Datagram(peer: Addr, data: seq<byte>)

  /** Data that crossed a socket on behalf of session `sid`, with what else is worth recording. */
  datatype Entry<T> = Entry(sid: nat, data: seq<byte>, about: T)

  /**
   arrivals: datagrams received from clients; writes: successful target writes, each about how many
   datagrams had arrived, so it carries the last of those; replies: datagrams read from target sockets; sends: datagrams sent to
   clients, each about the client it went to.
   */
  datatype Log = Log(arrivals: seq<Datagram>, writes: seq<Entry<nat>>, replies: seq<Entry<()>>, sends: seq<Entry<Addr>>)

  datatype State = State(
    now: nat, table: Table, relays: seq<Relay>, main: MainPc, buf: seq<byte>, reaper: ReaperPc, lastScan: nat, log: Log)

  datatype MainStep =
    | Receive(client: Addr, data: seq<byte>)
    | Route(dialSucceeds: bool)
    | TargetWriteOk
    | TargetWriteFails
    | CountSent

  datatype RelayStep =
    | ReadReply(data: seq<byte>)
    | ReadFails
    | CountRecv
    | TouchSession
    | SendOk
    | SendFails
    | RemoveEntry
    | CloseTarget

  datatype ReaperStep = ScanBegin | ScanVisit(key: Addr) | ScanEnd

  datatype Step =
    | Advance(d: nat)
    | ByMain(m: MainStep)
    | ByRelay(r: nat, a: RelayStep)
    | ByReaper(p: ReaperStep)

  function Init(start: nat, zeroes: seq<byte>): State {
    State(start, Table(map[], []), [], Receiving, zeroes, Sleeping, start, Log([], [], [], []))
  }

  /** A datagram lands at the front of a reused buffer; what was behind it stays. */
  function Fill(buf: seq<byte>, data: seq<byte>): seq<byte>
    requires |data| <= |buf|
  {
    data + buf[|data|..]
  }

  predicate MutexFree(s: State) {
    s.reaper.Sleeping?
  }

  predicate MainEnabled(s: State, m: MainStep) {
    match m
    case Receive(_, data) => s.main.Receiving? && |data| <= |s.buf|
    case Route(_) => s.main.HasPacket? && MutexFree(s)
                     && (s.main.client in s.table.sessions ==> s.table.sessions[s.main.client] < |s.table.pool|)
    case TargetWriteOk => s.main.Routed? && s.main.sid < |s.table.pool| && s.table.pool[s.main.sid].open
                          && s.main.n <= |s.buf|
    case TargetWriteFails => s.main.Routed?
    case CountSent => s.main.Wrote? && s.main.sid < |s.table.pool|
  }

  predicate RelayEnabled(s: State, r: nat, a: RelayStep) {
    && r < |s.relays| && s.relays[r].sid < |s.table.pool|
    && match a
       case ReadReply(data) => s.relays[r].pc.Reading? && s.table.pool[s.relays[r].sid].open && |data| <= |s.relays[r].buf|
       case ReadFails => s.relays[r].pc.Reading?
       case CountRecv => s.relays[r].pc.Got?
       case TouchSession => s.relays[r].pc.Counted? && MutexFree(s)
       case SendOk => s.relays[r].pc.Touched? && s.relays[r].pc.n <= |s.relays[r].buf|
       case SendFails => s.relays[r].pc.Touched?
       case RemoveEntry => s.relays[r].pc.ReadFailed? && MutexFree(s)
       case CloseTarget => s.relays[r].pc.Removed?
  }

  predicate ReaperEnabled(s: State, p: ReaperStep) {
    match p
    case ScanBegin => MutexFree(s)
    case ScanVisit(key) => s.reaper.Scanning? && key in s.reaper.pending
                           && key in s.table.sessions && s.table.sessions[key] < |s.table.pool|
    case ScanEnd => s.reaper.Scanning? && s.reaper.pending == {}
  }

  predicate Enabled(s: State, step: Step) {
    match step
    case Advance(_) => true
    case ByMain(m) => MainEnabled(s, m)
    case ByRelay(r, a) => RelayEnabled(s, r, a)
    case ByReaper(p) => ReaperEnabled(s, p)
  }

  function ApplyRoute(s: State, dialSucceeds: bool): State
    requires MainEnabled(s, Route(dialSucceeds))
  {
    var key := s.main.client;
    if key in s.table.sessions then
      var sid := s.table.sessions[key];
      s.(table := Touch(s.table, sid, s.now), main := Routed(key, sid, s.main.n))
    else if dialSucceeds then
      var sid := |s.table.pool|;
      s.(table := Touch(Dial(s.table, key, s.now), sid, s.now),
         relays := s.relays + [Relay(sid, key, key, seq(BUFFER_SIZE, _ => 0), Reading)],
         main := Routed(key, sid, s.main.n))
    else
      s.(main := Receiving)
  }

  function ApplyMain(s: State, m: MainStep): State
    requires MainEnabled(s, m)
  {
    match m
    case Receive(client, data) =>
      s.(buf := Fill(s.buf, data), main := HasPacket(client, |data|),
         log := s.log.(arrivals := s.log.arrivals + [Datagram(client, data)]))
    case Route(dialSucceeds) => ApplyRoute(s, dialSucceeds)
    case TargetWriteOk =>
      var w := Entry(s.main.sid, s.buf[..s.main.n], |s.log.arrivals|);
      s.(main := Wrote(s.main.sid, s.main.n), log := s.log.(writes := s.log.writes + [w]))
    case TargetWriteFails => s.(main := Receiving)
    case CountSent =>
      var sid := s.main.sid;
      s.(main := Receiving,
         table := s.table.(pool := s.table.pool[sid := s.table.pool[sid].(sent := s.table.pool[sid].sent + s.main.n)]))
  }

  function ApplyRelay(s: State, r: nat, a: RelayStep): State
    requires RelayEnabled(s, r, a)
  {
    var relay := s.relays[r];
    var session := s.table.pool[relay.sid];
    match a
    case ReadReply(data) =>
      s.(relays := s.relays[r := relay.(buf := Fill(relay.buf, data), pc := Got(|data|))],
         log := s.log.(replies := s.log.replies + [Entry(relay.sid, data, ())]))
    case ReadFails => s.(relays := s.relays[r := relay.(pc := ReadFailed)])
    case CountRecv =>
      s.(relays := s.relays[r := relay.(pc := Counted(relay.pc.n))],
         table := s.table.(pool := s.table.pool[relay.sid := session.(recv := session.recv + relay.pc.n)]))
    case TouchSession =>
      s.(relays := s.relays[r := relay.(pc := Touched(relay.pc.n))],
         table := Touch(s.table, relay.sid, s.now))
    case SendOk =>
      s.(relays := s.relays[r := relay.(pc := Reading)],
         log := s.log.(sends := s.log.sends + [Entry(relay.sid, relay.buf[..relay.pc.n], relay.client)]))
    case SendFails => s.(relays := s.relays[r := relay.(pc := Abandoned(relay.pc.n))])
    case RemoveEntry =>
      s.(relays := s.relays[r := relay.(pc := Removed)],
         table := RemoveIfCurrent(s.table, relay.key, relay.sid))
    case CloseTarget =>
      s.(relays := s.relays[r := relay.(pc := Exited)],
         table := CloseSocket(s.table, relay.sid))
  }

  function ApplyReaper(s: State, p: ReaperStep): State
    requires ReaperEnabled(s, p)
  {
    match p
    case ScanBegin => s.(reaper := Scanning(s.now, s.table.sessions.Keys), lastScan := s.now)
    case ScanVisit(key) =>
      s.(table := ReapOne(s.table, key, s.reaper.at), reaper := s.reaper.(pending := s.reaper.pending - {key}))
    case ScanEnd => s.(reaper := Sleeping)
  }

  function Apply(s: State, step: Step): State
    requires Enabled(s, step)
  {
    match step
    case Advance(d) => s.(now := s.now + d)
    case ByMain(m) => ApplyMain(s, m)
    case ByRelay(r, a) => ApplyRelay(s, r, a)
    case ByReaper(p) => ApplyReaper(s, p)
  }

  /** The state after a run, or None if some step of it could not be taken. */
  function Run(s: State, steps: seq<Step>): Option<State>
    decreases |steps|
  {
    if steps == [] then Some(s)
    else if Enabled(s, steps[0]) then Run(Apply(s, steps[0]), steps[1..])
    else None
  }

  // ---- What crossed the sockets of one session, in order.

  /** The data recorded for session `sid`, in order. */
  function Of<T>(entries: seq<Entry<T>>, sid: nat): seq<seq<byte>> {
    if entries == [] then []
    else
      var e := entries[|entries| - 1];
      Of(entries[..|entries| - 1], sid) + (if e.sid == sid then [e.data] else [])
  }

  /** The length of the reply a relay has read and not handed to the client. */
  function Holding(pc: RelayPc): Option<nat> {
    match pc
    case Got(n) => Some(n)
    case Counted(n) => Some(n)
    case Touched(n) => Some(n)
    case Abandoned(n) => Some(n)
    case _ => None
  }

  function InFlight(relay: Relay): seq<seq<byte>> {
    var held := Holding(relay.pc);
    if held.Some? && held.value <= |relay.buf| then [relay.buf[..held.value]] else []
  }

  // ---- Invariants.

  /** Relay number i belongs to session number i: one goroutine per session, ever. */
  ghost predicate Shape(relays: seq<Relay>, t: Table) {
    && |relays| == |t.pool|
    && (forall i | 0 <= i < |relays| :: relays[i].sid == i && relays[i].key == relays[i].client == t.pool[i].key)
    && WellKeyed(t)
  }

  ghost predicate SocketsOwned(relays: seq<Relay>, t: Table)
    requires |relays| == |t.pool|
  {
    forall i | 0 <= i < |t.pool| ::
      && (Tabled(t, i) ==> t.pool[i].open && !relays[i].pc.Removed? && !relays[i].pc.Exited?)
      && (t.pool[i].open ==> Tabled(t, i) || relays[i].pc.Removed?)
  }

  ghost predicate BufferHolds(arrivals: seq<Datagram>, buf: seq<byte>, client: Addr, n: nat) {
    && n <= |buf|
    && arrivals != []
    && arrivals[|arrivals| - 1] == Datagram(client, buf[..n])
  }

  /** What the receive loop's locals mean at each of its program points. */
  ghost predicate MainOk(main: MainPc, buf: seq<byte>, arrivals: seq<Datagram>, t: Table) {
    match main
    case Receiving => true
    case HasPacket(client, n) => BufferHolds(arrivals, buf, client, n)
    case Routed(client, sid, n) => BufferHolds(arrivals, buf, client, n) && sid < |t.pool| && t.pool[sid].key == client
    case Wrote(sid, n) => sid < |t.pool|
  }

  /** How many of the arrivals the receive loop is done with or has just written. */
  function Handled(main: MainPc, arrivals: seq<Datagram>): nat {
    if (main.HasPacket? || main.Routed?) && arrivals != [] then |arrivals| - 1 else |arrivals|
  }

  ghost predicate WriteFaithful(w: Entry<nat>, arrivals: seq<Datagram>, t: Table) {
    && w.sid < |t.pool|
    && 0 < w.about <= |arrivals|
    && arrivals[w.about - 1] == Datagram(t.pool[w.sid].key, w.data)
  }

  ghost predicate WritesFaithful(main: MainPc, arrivals: seq<Datagram>, writes: seq<Entry<nat>>, t: Table) {
    && (forall i | 0 <= i < |writes| :: WriteFaithful(writes[i], arrivals, t) && writes[i].about <= Handled(main, arrivals))
    && (forall i, j | 0 <= i < j < |writes| :: writes[i].about < writes[j].about)
  }

  /** The bytes written to the target but not added to `sent` yet. */
  function Uncounted(main: MainPc, sid: nat): nat {
    if main.Wrote? && main.sid == sid then main.n else 0
  }

  ghost predicate SentCounted(main: MainPc, writes: seq<Entry<nat>>, t: Table) {
    forall i | 0 <= i < |t.pool| :: Total(Of(writes, i)) == t.pool[i].sent + Uncounted(main, i)
  }

  /** Replies reach the client complete, unmodified and in order; at most the last is missing. */
  ghost predicate RelayFaithful(relay: Relay, replies: seq<Entry<()>>, sends: seq<Entry<Addr>>) {
    && |relay.buf| == BUFFER_SIZE
    && (Holding(relay.pc).Some? ==> Holding(relay.pc).value <= BUFFER_SIZE)
    && Of(replies, relay.sid) == Of(sends, relay.sid) + InFlight(relay)
  }

  ghost predicate RepliesFaithful(relays: seq<Relay>, replies: seq<Entry<()>>, sends: seq<Entry<Addr>>) {
    && (forall i | 0 <= i < |relays| :: RelayFaithful(relays[i], replies, sends))
    && (forall i | 0 <= i < |sends| :: sends[i].sid < |relays| && sends[i].about == relays[sends[i].sid].client)
    && (forall i | 0 <= i < |replies| :: replies[i].sid < |relays|)
  }

  ghost predicate RecvCounted(relays: seq<Relay>, replies: seq<Entry<()>>, t: Table)
    requires |relays| == |t.pool|
  {
    forall i | 0 <= i < |t.pool| ::
      Total(Of(replies, i)) == t.pool[i].recv + (if relays[i].pc.Got? then relays[i].pc.n else 0)
  }

  /**
   While a scan holds the mutex its snapshot of the keys still to visit stays in the table; a
   session that the latest scan has dealt with was touched within the idle timeout before it.
   */
  ghost predicate ScanOk(now: nat, lastScan: nat, reaper: ReaperPc, t: Table)
    requires WellKeyed(t)
  {
    && lastScan <= now
    && (reaper.Scanning? ==> reaper.pending <= t.sessions.Keys && reaper.at == lastScan)
    && (forall i | 0 <= i < |t.pool| :: t.pool[i].last <= now)
    && (forall k <- t.sessions |
          !(reaper.Scanning? && k in reaper.pending) :: lastScan <= t.pool[t.sessions[k]].last + IDLE_TIMEOUT)
  }

  ghost predicate Inv(s: State) {
    && Shape(s.relays, s.table)
    && |s.buf| == BUFFER_SIZE
    && SocketsOwned(s.relays, s.table)
    && MainOk(s.main, s.buf, s.log.arrivals, s.table)
    && WritesFaithful(s.main, s.log.arrivals, s.log.writes, s.table)
    && SentCounted(s.main, s.log.writes, s.table)
    && RepliesFaithful(s.relays, s.log.replies, s.log.sends)
    && RecvCounted(s.relays, s.log.replies, s.table)
    && ScanOk(s.now, s.lastScan, s.reaper, s.table)
  }
}
