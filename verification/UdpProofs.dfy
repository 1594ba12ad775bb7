/** Every step of the UDP relay keeps its invariants: one lemma per thread and invariant. */
module UdpProofs {
  import opened Base
  import opened UdpTable
  import opened UdpRelay

  // ---- Logs of one session

  lemma OfAppend<T>(entries: seq<Entry<T>>, e: Entry<T>, sid: nat)
    ensures Of(entries + [e], sid) == Of(entries, sid) + (if e.sid == sid then [e.data] else [])
  {
    assert (entries + [e])[..|entries|] == entries;
  }

  /** Nothing is recorded for a session that is not allocated yet. */
  lemma OfNone<T>(entries: seq<Entry<T>>, sid: nat)
    requires forall i | 0 <= i < |entries| :: entries[i].sid != sid
    ensures Of(entries, sid) == []
  {
  }

  lemma TotalOfAppend<T>(entries: seq<Entry<T>>, e: Entry<T>, sid: nat)
    ensures Total(Of(entries + [e], sid)) == Total(Of(entries, sid)) + (if e.sid == sid then |e.data| else 0)
  {
    OfAppend(entries, e, sid);
    if e.sid == sid {
      TotalAppend(Of(entries, sid), e.data);
    } else {
      assert Of(entries, sid) + [] == Of(entries, sid);
    }
  }

  // ---- The receive loop

  lemma MainTable(s: State, m: MainStep)
    requires Shape(s.relays, s.table) && SocketsOwned(s.relays, s.table) && MainEnabled(s, m)
    ensures var u := ApplyMain(s, m); Shape(u.relays, u.table) && SocketsOwned(u.relays, u.table)
  {
    if m.Route? {
      RouteTable(s, m.dialSucceeds);
    } else {
      var u := ApplyMain(s, m);
      assert forall i: nat | i < |s.table.pool| :: Tabled(u.table, i) <==> Tabled(s.table, i);
    }
  }

  lemma RouteTable(s: State, dialSucceeds: bool)
    requires Shape(s.relays, s.table) && SocketsOwned(s.relays, s.table) && MainEnabled(s, Route(dialSucceeds))
    ensures var u := ApplyRoute(s, dialSucceeds); Shape(u.relays, u.table) && SocketsOwned(u.relays, u.table)
  {
    if dialSucceeds && s.main.client !in s.table.sessions {
      DialTables(s.table, s.main.client, s.now);
    } else {
      var u := ApplyRoute(s, dialSucceeds);
      assert forall i: nat | i < |s.table.pool| :: Tabled(u.table, i) <==> Tabled(s.table, i);
    }
  }

  lemma MainLocals(s: State, m: MainStep)
    requires Shape(s.relays, s.table) && MainOk(s.main, s.buf, s.log.arrivals, s.table) && MainEnabled(s, m)
    ensures var u := ApplyMain(s, m); MainOk(u.main, u.buf, u.log.arrivals, u.table)
  {
  }

  lemma MainWrites(s: State, m: MainStep)
    requires Shape(s.relays, s.table) && MainOk(s.main, s.buf, s.log.arrivals, s.table) && MainEnabled(s, m)
    requires WritesFaithful(s.main, s.log.arrivals, s.log.writes, s.table)
    ensures var u := ApplyMain(s, m); WritesFaithful(u.main, u.log.arrivals, u.log.writes, u.table)
  {
    var u := ApplyMain(s, m);
    assert forall i | 0 <= i < |s.log.writes| :: WriteFaithful(s.log.writes[i], u.log.arrivals, u.table);
  }

  lemma WriteSent(main: MainPc, writes: seq<Entry<nat>>, t: Table, e: Entry<nat>)
    requires SentCounted(main, writes, t) && !main.Wrote?
    ensures SentCounted(Wrote(e.sid, |e.data|), writes + [e], t)
  {
    forall i | 0 <= i < |t.pool| ensures Total(Of(writes + [e], i)) == t.pool[i].sent + Uncounted(Wrote(e.sid, |e.data|), i) {
      TotalOfAppend(writes, e, i);
    }
  }

  lemma MainSent(s: State, m: MainStep)
    requires Shape(s.relays, s.table) && WritesFaithful(s.main, s.log.arrivals, s.log.writes, s.table)
    requires SentCounted(s.main, s.log.writes, s.table) && MainEnabled(s, m)
    ensures var u := ApplyMain(s, m); SentCounted(u.main, u.log.writes, u.table)
  {
    match m
    case TargetWriteOk =>
      WriteSent(s.main, s.log.writes, s.table, Entry(s.main.sid, s.buf[..s.main.n], |s.log.arrivals|));
    case Route(_) => OfNone(s.log.writes, |s.table.pool|);
    case _ =>
  }

  lemma MainReplies(s: State, m: MainStep)
    requires Shape(s.relays, s.table) && RepliesFaithful(s.relays, s.log.replies, s.log.sends) && MainEnabled(s, m)
    ensures var u := ApplyMain(s, m); RepliesFaithful(u.relays, u.log.replies, u.log.sends)
  {
    OfNone(s.log.replies, |s.relays|);
    OfNone(s.log.sends, |s.relays|);
  }

  lemma MainRecv(s: State, m: MainStep)
    requires Shape(s.relays, s.table) && RepliesFaithful(s.relays, s.log.replies, s.log.sends)
    requires RecvCounted(s.relays, s.log.replies, s.table) && MainEnabled(s, m)
    ensures var u := ApplyMain(s, m); |u.relays| == |u.table.pool| && RecvCounted(u.relays, u.log.replies, u.table)
  {
    OfNone(s.log.replies, |s.relays|);
  }

  lemma MainScan(s: State, m: MainStep)
    requires Shape(s.relays, s.table) && ScanOk(s.now, s.lastScan, s.reaper, s.table) && MainEnabled(s, m)
    ensures var u := ApplyMain(s, m); WellKeyed(u.table) && ScanOk(u.now, u.lastScan, u.reaper, u.table)
  {
    if m.Route? && m.dialSucceeds && s.main.client !in s.table.sessions {
      DialTables(s.table, s.main.client, s.now);
    }
  }

  lemma MainInv(s: State, m: MainStep)
    requires Inv(s) && MainEnabled(s, m)
    ensures Inv(ApplyMain(s, m))
  {
    MainTable(s, m);
    MainLocals(s, m);
    MainWrites(s, m);
    MainSent(s, m);
    MainReplies(s, m);
    MainRecv(s, m);
    MainScan(s, m);
  }

  // ---- A reply relay

  lemma RelayTable(s: State, r: nat, a: RelayStep)
    requires Shape(s.relays, s.table) && SocketsOwned(s.relays, s.table) && RelayEnabled(s, r, a)
    ensures var u := ApplyRelay(s, r, a); Shape(u.relays, u.table) && SocketsOwned(u.relays, u.table)
  {
    var u := ApplyRelay(s, r, a);
    if a.RemoveEntry? {
      RemoveTables(s.table, r);
    } else {
      assert u.table.sessions == s.table.sessions;
      assert forall i: nat | i < |s.table.pool| :: Tabled(u.table, i) <==> Tabled(s.table, i);
    }
  }

  /** Sessions keep their key and `sent` counter; only `open`, `last` and `recv` may differ. */
  ghost predicate SameKeysAndSent(t: Table, u: Table) {
    && |u.pool| == |t.pool|
    && forall i | 0 <= i < |t.pool| :: u.pool[i].key == t.pool[i].key && u.pool[i].sent == t.pool[i].sent
  }

  lemma LocalsCarry(s: State, u: Table)
    requires Inv(s) && SameKeysAndSent(s.table, u)
    ensures MainOk(s.main, s.buf, s.log.arrivals, u)
    ensures WritesFaithful(s.main, s.log.arrivals, s.log.writes, u)
    ensures SentCounted(s.main, s.log.writes, u)
  {
    var ws := s.log.writes;
    forall i | 0 <= i < |ws| ensures WriteFaithful(ws[i], s.log.arrivals, u) {
      assert WriteFaithful(ws[i], s.log.arrivals, s.table);
    }
  }

  lemma RelayFrame(s: State, r: nat, a: RelayStep)
    requires Shape(s.relays, s.table) && RelayEnabled(s, r, a)
    ensures var u := ApplyRelay(s, r, a);
            && SameKeysAndSent(s.table, u.table) && u.main == s.main && u.buf == s.buf
            && u.log.arrivals == s.log.arrivals && u.log.writes == s.log.writes
  {
  }

  lemma ReplyRead(relay: Relay, replies: seq<Entry<()>>, sends: seq<Entry<Addr>>, sid: nat, data: seq<byte>)
    requires RelayFaithful(relay, replies, sends)
    requires relay.sid == sid ==> relay.pc.Reading? && |data| <= |relay.buf|
    ensures var after := if relay.sid == sid then relay.(buf := Fill(relay.buf, data), pc := Got(|data|)) else relay;
            RelayFaithful(after, replies + [Entry(sid, data, ())], sends)
  {
    OfAppend(replies, Entry(sid, data, ()), relay.sid);
    if relay.sid == sid {
      assert Fill(relay.buf, data)[..|data|] == data;
    }
  }

  lemma ReplySent(relay: Relay, replies: seq<Entry<()>>, sends: seq<Entry<Addr>>, e: Entry<Addr>)
    requires RelayFaithful(relay, replies, sends)
    requires relay.sid == e.sid ==> relay.pc.Touched? && relay.pc.n <= |relay.buf| && e.data == relay.buf[..relay.pc.n]
    ensures RelayFaithful(if relay.sid == e.sid then relay.(pc := Reading) else relay, replies, sends + [e])
  {
    OfAppend(sends, e, relay.sid);
  }

  lemma ReadReplies(s: State, r: nat, data: seq<byte>)
    requires Shape(s.relays, s.table) && RepliesFaithful(s.relays, s.log.replies, s.log.sends)
    requires RelayEnabled(s, r, ReadReply(data))
    ensures var u := ApplyRelay(s, r, ReadReply(data)); RepliesFaithful(u.relays, u.log.replies, u.log.sends)
  {
    forall i | 0 <= i < |s.relays| {
      ReplyRead(s.relays[i], s.log.replies, s.log.sends, r, data);
    }
  }

  lemma SendReplies(relays: seq<Relay>, replies: seq<Entry<()>>, sends: seq<Entry<Addr>>, r: nat)
    requires RepliesFaithful(relays, replies, sends)
    requires r < |relays| && relays[r].pc.Touched? && relays[r].pc.n <= |relays[r].buf|
    requires forall i | 0 <= i < |relays| :: relays[i].sid == i
    ensures var e := Entry(r, relays[r].buf[..relays[r].pc.n], relays[r].client);
            RepliesFaithful(relays[r := relays[r].(pc := Reading)], replies, sends + [e])
  {
    var e := Entry(r, relays[r].buf[..relays[r].pc.n], relays[r].client);
    var after := relays[r := relays[r].(pc := Reading)];
    forall i | 0 <= i < |relays| ensures RelayFaithful(after[i], replies, sends + [e]) {
      ReplySent(relays[i], replies, sends, e);
    }
  }

  lemma RelayReplies(s: State, r: nat, a: RelayStep)
    requires Shape(s.relays, s.table) && RepliesFaithful(s.relays, s.log.replies, s.log.sends) && RelayEnabled(s, r, a)
    ensures var u := ApplyRelay(s, r, a); RepliesFaithful(u.relays, u.log.replies, u.log.sends)
  {
    match a
    case ReadReply(data) => ReadReplies(s, r, data);
    case SendOk => SendReplies(s.relays, s.log.replies, s.log.sends, r);
    case _ =>
      var before, after := s.relays[r], ApplyRelay(s, r, a).relays[r];
      assert after == before.(pc := after.pc) && Holding(after.pc) == Holding(before.pc);
      assert RelayFaithful(before, s.log.replies, s.log.sends);
  }

  lemma RelayRecv(s: State, r: nat, a: RelayStep)
    requires Shape(s.relays, s.table) && RecvCounted(s.relays, s.log.replies, s.table) && RelayEnabled(s, r, a)
    ensures var u := ApplyRelay(s, r, a); |u.relays| == |u.table.pool| && RecvCounted(u.relays, u.log.replies, u.table)
  {
    if a.ReadReply? {
      forall i | 0 <= i < |s.table.pool| {
        TotalOfAppend(s.log.replies, Entry(r, a.data, ()), i);
      }
    }
  }

  lemma RelayScan(s: State, r: nat, a: RelayStep)
    requires Shape(s.relays, s.table) && ScanOk(s.now, s.lastScan, s.reaper, s.table) && RelayEnabled(s, r, a)
    ensures var u := ApplyRelay(s, r, a); WellKeyed(u.table) && ScanOk(u.now, u.lastScan, u.reaper, u.table)
  {
    var t, u := s.table, ApplyRelay(s, r, a).table;
    assert forall k <- u.sessions :: k in t.sessions && u.sessions[k] == t.sessions[k];
    assert a.RemoveEntry? || u.sessions == t.sessions;
    assert forall i | 0 <= i < |t.pool| :: t.pool[i].last <= u.pool[i].last <= s.now && t.pool[i].key == u.pool[i].key;
  }

  lemma RelayInv(s: State, r: nat, a: RelayStep)
    requires Inv(s) && RelayEnabled(s, r, a)
    ensures Inv(ApplyRelay(s, r, a))
  {
    RelayTable(s, r, a);
    RelayFrame(s, r, a);
    LocalsCarry(s, ApplyRelay(s, r, a).table);
    RelayReplies(s, r, a);
    RelayRecv(s, r, a);
    RelayScan(s, r, a);
  }

  // ---- The reaper

  lemma VisitTable(s: State, key: Addr)
    requires Shape(s.relays, s.table) && SocketsOwned(s.relays, s.table) && ReaperEnabled(s, ScanVisit(key))
    ensures var u := ApplyReaper(s, ScanVisit(key)).table;
            Shape(s.relays, u) && SocketsOwned(s.relays, u) && SameKeysAndSent(s.table, u)
  {
    ReapTables(s.table, key, s.reaper.at);
  }

  lemma VisitScan(s: State, key: Addr)
    requires Shape(s.relays, s.table) && ScanOk(s.now, s.lastScan, s.reaper, s.table) && ReaperEnabled(s, ScanVisit(key))
    requires RecvCounted(s.relays, s.log.replies, s.table)
    ensures var u := ApplyReaper(s, ScanVisit(key));
            && WellKeyed(u.table) && ScanOk(u.now, u.lastScan, u.reaper, u.table)
            && |u.table.pool| == |s.relays| && RecvCounted(s.relays, s.log.replies, u.table)
  {
    ReapTables(s.table, key, s.reaper.at);
  }

  lemma VisitInv(s: State, key: Addr)
    requires Inv(s) && ReaperEnabled(s, ScanVisit(key))
    ensures Inv(ApplyReaper(s, ScanVisit(key)))
  {
    VisitTable(s, key);
    VisitScan(s, key);
    LocalsCarry(s, ApplyReaper(s, ScanVisit(key)).table);
  }

  lemma StepInv(s: State, step: Step)
    requires Inv(s) && Enabled(s, step)
    ensures Inv(Apply(s, step))
  {
    match step
    case Advance(_) =>
    case ByMain(m) => MainInv(s, m);
    case ByRelay(r, a) => RelayInv(s, r, a);
    case ByReaper(ScanVisit(key)) => VisitInv(s, key);
    case ByReaper(_) =>
  }

  lemma {:induction false} RunInv(s: State, steps: seq<Step>)
    requires Inv(s) && Run(s, steps).Some?
    ensures Inv(Run(s, steps).value)
    decreases |steps|
  {
    if steps != [] {
      StepInv(s, steps[0]);
      RunInv(Apply(s, steps[0]), steps[1..]);
    }
  }
}
