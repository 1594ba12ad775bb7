/**
 The mutex-protected part of the UDP relay: the map from client address to session and the
 sessions it points at (internal/relay/udp.go:20-31, 59-60).

 A Go session pointer is modelled as an index into `pool`, the list of every session ever
 allocated, so comparing two pointers is comparing two indices. `open` says whether the target
 socket of the session is still open.
 */
module UdpTable {
  import opened Base

  /** A client address as printed by UDPAddr.String; it doubles as the key of the table. */
  type Addr = string

  const SECOND: nat := 1_000_000_000
  const IDLE_TIMEOUT: nat := 120 * SECOND
  const REAP_PERIOD: nat := IDLE_TIMEOUT / 2
  const BUFFER_SIZE: nat := 64 * 1024

  datatype Session = Session(key: Addr, open: bool, last: nat, sent: nat, recv: nat)

  datatype Table = Table(sessions: map<Addr, nat>, pool: seq<Session>)

  /** Session `sid` is the one its own client is currently mapped to. */
  predicate Tabled(t: Table, sid: nat)
    requires sid < |t.pool|
  {
    var k := t.pool[sid].key;
    k in t.sessions && t.sessions[k] == sid
  }

  /** Every entry points at an allocated session that was dialed for that very key. */
  ghost predicate WellKeyed(t: Table) {
    forall k <- t.sessions :: t.sessions[k] < |t.pool| && t.pool[t.sessions[k]].key == k
  }

  predicate Idle(t: Table, sid: nat, now: nat)
    requires sid < |t.pool|
  {
    now - t.pool[sid].last > IDLE_TIMEOUT
  }

  // Pure counterparts of the lock-held sections.

  function Touch(t: Table, sid: nat, now: nat): Table
    requires sid < |t.pool|
  {
    t.(pool := t.pool[sid := t.pool[sid].(last := now)])
  }

  function CloseSocket(t: Table, sid: nat): Table
    requires sid < |t.pool|
  {
    t.(pool := t.pool[sid := t.pool[sid].(open := false)])
  }

  function Dial(t: Table, key: Addr, now: nat): Table {
    Table(t.sessions[key := |t.pool|], t.pool + [Session(key, true, now, 0, 0)])
  }

  function RemoveIfCurrent(t: Table, key: Addr, sid: nat): Table {
    if key in t.sessions && t.sessions[key] == sid then t.(sessions := t.sessions - {key}) else t
  }

  /** One iteration of the reaper's loop over the table. */
  function ReapOne(t: Table, key: Addr, now: nat): Table
    requires key in t.sessions && t.sessions[key] < |t.pool|
  {
    if Idle(t, t.sessions[key], now) then
      CloseSocket(t, t.sessions[key]).(sessions := t.sessions - {key})
    else t
  }

  /** What a scan of the keys `ks` amounts to, with no order of visits in it. */
  function ReapKeys(t: Table, ks: set<Addr>, now: nat): Table
    requires forall k <- t.sessions :: t.sessions[k] < |t.pool|
  {
    Table(
      map k | k in t.sessions && !(k in ks && Idle(t, t.sessions[k], now)) :: t.sessions[k],
      seq(|t.pool|, i requires 0 <= i < |t.pool| =>
        if Tabled(t, i) && t.pool[i].key in ks && Idle(t, i, now) then t.pool[i].(open := false) else t.pool[i]))
  }

  // Which sessions stay in the table.

  lemma DialTables(t: Table, key: Addr, now: nat)
    requires WellKeyed(t) && key !in t.sessions
    ensures var u := Touch(Dial(t, key, now), |t.pool|, now);
            && WellKeyed(u) && |u.pool| == |t.pool| + 1 && Tabled(u, |t.pool|)
            && forall i: nat | i < |t.pool| :: u.pool[i] == t.pool[i] && (Tabled(u, i) <==> Tabled(t, i))
  {
  }

  lemma RemoveTables(t: Table, sid: nat)
    requires WellKeyed(t) && sid < |t.pool|
    ensures var u := RemoveIfCurrent(t, t.pool[sid].key, sid);
            && WellKeyed(u) && u.pool == t.pool
            && forall i: nat | i < |t.pool| :: Tabled(u, i) <==> Tabled(t, i) && i != sid
  {
  }

  lemma ReapTables(t: Table, key: Addr, now: nat)
    requires WellKeyed(t) && key in t.sessions
    ensures var u := ReapOne(t, key, now);
            var sid := t.sessions[key];
            && WellKeyed(u) && |u.pool| == |t.pool|
            && forall i: nat | i < |t.pool| ::
                 && (Tabled(u, i) <==> Tabled(t, i) && !(i == sid && Idle(t, sid, now)))
                 && u.pool[i] == (if i == sid && Idle(t, sid, now) then t.pool[i].(open := false) else t.pool[i])
  {
  }

  /** Visiting one more key extends the scan by exactly that key, whatever was visited before. */
  lemma ReapExtends(t: Table, ks: set<Addr>, key: Addr, now: nat)
    requires WellKeyed(t) && key in t.sessions && key !in ks
    ensures var u := ReapKeys(t, ks, now);
            key in u.sessions && u.sessions[key] < |u.pool| && ReapOne(u, key, now) == ReapKeys(t, ks + {key}, now)
  {
    var u := ReapKeys(t, ks, now);
    var sid := t.sessions[key];
    assert u.sessions[key] == sid && u.pool[sid] == t.pool[sid];
    var v, w := ReapOne(u, key, now), ReapKeys(t, ks + {key}, now);
    assert v.sessions == w.sessions;
    forall i | 0 <= i < |t.pool| ensures v.pool[i] == w.pool[i] {
      if i != sid { assert Tabled(t, i) ==> t.pool[i].key != key; }
    }
    assert v.pool == w.pool;
  }

  /** The table as the program holds it: fields updated in place while the mutex is held. */
  class SessionTable {
    var sessions: map<Addr, nat>
    var pool: seq<Session>

    ghost function View(): Table
      reads this
    {
      Table(sessions, pool)
    }

    constructor ()
      ensures View() == Table(map[], []) && WellKeyed(View())
    {
      sessions, pool := map[], [];
    }

    /** The receive loop's section: find the client's session or dial one, and touch it. */
    method Route(key: Addr, now: nat, dialSucceeds: bool) returns (sid: Option<nat>)
      requires WellKeyed(View())
      modifies this
      ensures WellKeyed(View())
      ensures sid == None <==> key !in old(sessions) && !dialSucceeds
      ensures sid == None ==> View() == old(View())
      ensures sid.Some? ==> sid.value < |pool| && Tabled(View(), sid.value)
                            && pool[sid.value].key == key && pool[sid.value].last == now
      ensures key in old(sessions) ==> View() == Touch(old(View()), old(sessions)[key], now)
      ensures key !in old(sessions) && dialSucceeds ==> View() == Touch(Dial(old(View()), key, now), |old(pool)|, now)
    {
      if key !in sessions {
        if !dialSucceeds {
          return None;
        }
        pool := pool + [Session(key, true, now, 0, 0)];
        sessions := sessions[key := |pool| - 1];
      }
      var id := sessions[key];
      pool := pool[id := pool[id].(last := now)];
      sid := Some(id);
    }

    /**
     A reply relay's exit section. Its own session leaves the table if it still is there; the entry of
     every other session stays, a replacement dialed since for the same client included.
     */
    method Remove(key: Addr, sid: nat)
      requires WellKeyed(View())
      modifies this`sessions
      ensures WellKeyed(View())
      ensures forall i: nat | i < |pool| :: Tabled(View(), i) <==> Tabled(old(View()), i) && !(i == sid && pool[i].key == key)
      ensures forall k <- old(sessions) :: (k in sessions <==> !(k == key && old(sessions)[k] == sid))
      ensures forall k <- sessions :: k in old(sessions) && sessions[k] == old(sessions)[k]
    {
      if key in sessions && sessions[key] == sid {
        sessions := sessions - {key};
      }
    }

    /**
     The reaper's scan. Go visits the map in an unspecified order and deletes as it goes; the
     result is the same for every order: exactly the idle sessions are closed and deleted.
     */
    method Reap(now: nat)
      requires WellKeyed(View())
      modifies this
      ensures WellKeyed(View())
      ensures View() == ReapKeys(old(View()), old(sessions).Keys, now)
      ensures forall k <- old(sessions) :: k in sessions <==> now - old(pool)[old(sessions)[k]].last <= IDLE_TIMEOUT
    {
      var pending := sessions.Keys;
      ghost var done: set<Addr> := {};
      ghost var start := View();
      assert ReapKeys(start, {}, now) == start;
      while pending != {}
        invariant done + pending == start.sessions.Keys && done !! pending
        invariant View() == ReapKeys(start, done, now)
        decreases pending
      {
        var key :| key in pending;
        ReapExtends(start, done, key, now);
        var sid := sessions[key];
        if now - pool[sid].last > IDLE_TIMEOUT {
          pool := pool[sid := pool[sid].(open := false)];
          sessions := sessions - {key};
        }
        pending := pending - {key};
        done := done + {key};
      }
      assert done == start.sessions.Keys;
    }
  }
}
