/** `SessionManager`: the server's registry of workflow sessions. It keeps
    two insertion-ordered maps, session id to record and socket to the id of
    the latest session opened on it.

    Identifiers from `randomUUID()` and readings of `new Date()` are inputs:
    `CreateSession` is given the id and the creation time, the sweep is
    given the current time in milliseconds. */
module Sessions {
  import opened Wrappers
  import opened OrderedMap

  /** A client connection, compared by identity. */
  type Socket = nat

  datatype Session = Session(id: string, ws: Socket, createdAt: int, userDraft: string, isActive: bool)

  datatype Registry = Registry(sessions: Assoc<string, Session>, bySocket: Assoc<Socket, string>)

  /** The registry of a freshly started server. */
  function Init(): Registry {
    Registry([], [])
  }

  /** The invariant every reachable registry keeps: one entry per key in
      both maps, every record stored under its own id, and every socket
      entry naming a present session opened on that socket. */
  ghost predicate Valid(reg: Registry) {
    && UniqueKeys(reg.sessions)
    && UniqueKeys(reg.bySocket)
    && (forall id :: Get(reg.sessions, id).Some? ==> Get(reg.sessions, id).value.id == id)
    && (forall ws :: Get(reg.bySocket, ws).Some? ==>
          Get(reg.sessions, Get(reg.bySocket, ws).value).Some?
          && Get(reg.sessions, Get(reg.bySocket, ws).value).value.ws == ws)
  }

  lemma InitValid()
    ensures Valid(Init())
    ensures GetSessionCount(Init()) == 0
  {
    assert Keys(Init().sessions) == [];
  }

  /** `createSession(ws, userDraft)` under id `id` at time `now`: an active
      record is stored under `id` and the socket now points at it. */
  function CreateSession(reg: Registry, id: string, ws: Socket, now: int, userDraft: string): (r: Registry)
    ensures Get(r.sessions, id) == Some(Session(id, ws, now, userDraft, true))
    ensures forall id' :: id' != id ==> Get(r.sessions, id') == Get(reg.sessions, id')
    ensures Get(r.bySocket, ws) == Some(id)
    ensures forall ws' :: ws' != ws ==> Get(r.bySocket, ws') == Get(reg.bySocket, ws')
    ensures id !in Keys(reg.sessions) ==> |r.sessions| == |reg.sessions| + 1
  {
    var s := Session(id, ws, now, userDraft, true);
    var r := Registry(Put(reg.sessions, id, s), Put(reg.bySocket, ws, id));
    assert forall id' :: Get(r.sessions, id') == if id' == id then Some(s) else Get(reg.sessions, id') by {
      forall id' ensures Get(r.sessions, id') == if id' == id then Some(s) else Get(reg.sessions, id') {
        PutGet(reg.sessions, id, s, id');
      }
    }
    assert forall ws' :: Get(r.bySocket, ws') == if ws' == ws then Some(id) else Get(reg.bySocket, ws') by {
      forall ws' ensures Get(r.bySocket, ws') == if ws' == ws then Some(id) else Get(reg.bySocket, ws') {
        PutGet(reg.bySocket, ws, id, ws');
      }
    }
    r
  }

  /** `getSession(id)`. */
  function GetSession(reg: Registry, id: string): (r: Option<Session>)
    ensures r.Some? <==> id in Keys(reg.sessions)
  {
    Get(reg.sessions, id)
  }

  /** `getSessionIdByWebSocket(ws)`. */
  function GetSessionIdByWebSocket(reg: Registry, ws: Socket): (r: Option<string>)
    ensures r.Some? <==> ws in Keys(reg.bySocket)
  {
    Get(reg.bySocket, ws)
  }

  /** `removeSession(id)`: the record goes, and so does the socket entry of
      the record's socket, whichever session that entry names now. */
  function RemoveSession(reg: Registry, id: string): (r: Registry)
    ensures Get(reg.sessions, id).None? ==> r == reg
    ensures Get(r.sessions, id).None?
    ensures forall id' :: id' != id ==> Get(r.sessions, id') == Get(reg.sessions, id')
    ensures Get(reg.sessions, id).Some? ==>
      Get(r.bySocket, Get(reg.sessions, id).value.ws).None?
      && forall ws' :: ws' != Get(reg.sessions, id).value.ws ==> Get(r.bySocket, ws') == Get(reg.bySocket, ws')
    ensures r.sessions == Remove(reg.sessions, id)
  {
    match Get(reg.sessions, id)
    case None => reg
    case Some(s) =>
      var r := Registry(Remove(reg.sessions, id), Remove(reg.bySocket, s.ws));
      assert forall id' :: Get(r.sessions, id') == if id' == id then None else Get(reg.sessions, id') by {
        forall id' ensures Get(r.sessions, id') == if id' == id then None else Get(reg.sessions, id') {
          RemoveGet(reg.sessions, id, id');
        }
      }
      assert forall ws' :: Get(r.bySocket, ws') == if ws' == s.ws then None else Get(reg.bySocket, ws') by {
        forall ws' ensures Get(r.bySocket, ws') == if ws' == s.ws then None else Get(reg.bySocket, ws') {
          RemoveGet(reg.bySocket, s.ws, ws');
        }
      }
      r
  }

  /** `removeSessionByWebSocket(ws)`: removes the session the socket points
      at; an unmapped socket (or an empty id, which is falsy) changes
      nothing. */
  function RemoveSessionByWebSocket(reg: Registry, ws: Socket): (r: Registry)
    ensures Get(reg.bySocket, ws).None? ==> r == reg
    ensures Get(reg.bySocket, ws).Some? && Get(reg.bySocket, ws).value != "" ==>
      var id := Get(reg.bySocket, ws).value;
      && Get(r.sessions, id).None?
      && forall id' :: id' != id ==> Get(r.sessions, id') == Get(reg.sessions, id')
    ensures Get(reg.bySocket, ws) == Some("") ==> r == reg
    ensures Valid(reg) && Get(reg.bySocket, ws).Some? && Get(reg.bySocket, ws).value != "" ==>
      && Get(r.bySocket, ws).None?
      && forall w :: w != ws ==> Get(r.bySocket, w) == Get(reg.bySocket, w)
  {
    match Get(reg.bySocket, ws)
    case None => reg
    case Some(id) => if id != "" then RemoveSession(reg, id) else reg
  }

  /** `deactivateSession(id)`: only the record's `isActive` flag changes. */
  function DeactivateSession(reg: Registry, id: string): (r: Registry)
    ensures Get(reg.sessions, id).None? ==> r == reg
    ensures Get(reg.sessions, id).Some? ==>
      Get(r.sessions, id) == Some(Get(reg.sessions, id).value.(isActive := false))
    ensures forall id' :: id' != id ==> Get(r.sessions, id') == Get(reg.sessions, id')
    ensures Keys(r.sessions) == Keys(reg.sessions) && r.bySocket == reg.bySocket
  {
    match Get(reg.sessions, id)
    case None => reg
    case Some(s) =>
      var s' := s.(isActive := false);
      var r := reg.(sessions := Put(reg.sessions, id, s'));
      assert forall id' :: Get(r.sessions, id') == if id' == id then Some(s') else Get(reg.sessions, id') by {
        forall id' ensures Get(r.sessions, id') == if id' == id then Some(s') else Get(reg.sessions, id') {
          PutGet(reg.sessions, id, s', id');
        }
      }
      r
  }

  /** The records in insertion order. */
  function Records(m: Assoc<string, Session>): (rs: seq<Session>)
    ensures |rs| == |m|
    ensures forall i :: 0 <= i < |m| ==> rs[i] == m[i].1
  {
    seq(|m|, i requires 0 <= i < |m| => m[i].1)
  }

  /** `getActiveSessions()`: the active records, in insertion order. */
  function GetActiveSessions(reg: Registry): (r: seq<Session>)
    ensures forall s :: s in r <==> s in Records(reg.sessions) && s.isActive
    decreases |reg.sessions|
  {
    var m := reg.sessions;
    if |m| == 0 then []
    else
      var init := GetActiveSessions(Registry(m[..|m| - 1], reg.bySocket));
      assert Records(m) == Records(m[..|m| - 1]) + [m[|m| - 1].1];
      init + if m[|m| - 1].1.isActive then [m[|m| - 1].1] else []
  }

  /** `getSessionCount()`: `sessions.size`. */
  function GetSessionCount(reg: Registry): (n: nat)
    ensures UniqueKeys(reg.sessions) ==> n == |KeySet(reg.sessions)|
  {
    assert UniqueKeys(reg.sessions) ==> |KeySet(reg.sessions)| == |reg.sessions| by {
      if UniqueKeys(reg.sessions) {
        UniqueKeysSize(reg.sessions);
      }
    }
    |reg.sessions|
  }

  // ---- the invariant ----

  /** A fresh id keeps the registry valid and adds one to the count; the
      fresh id is what `randomUUID()` provides. */
  lemma CreatePreservesValid(reg: Registry, id: string, ws: Socket, now: int, userDraft: string)
    requires Valid(reg) && id !in Keys(reg.sessions)
    ensures Valid(CreateSession(reg, id, ws, now, userDraft))
    ensures GetSessionCount(CreateSession(reg, id, ws, now, userDraft)) == GetSessionCount(reg) + 1
  {
    var r := CreateSession(reg, id, ws, now, userDraft);
    forall ws' | Get(r.bySocket, ws').Some?
      ensures Get(r.sessions, Get(r.bySocket, ws').value).Some?
      ensures Get(r.sessions, Get(r.bySocket, ws').value).value.ws == ws'
    {
      if ws' != ws {
        assert Get(reg.bySocket, ws').Some?;
        assert Get(reg.bySocket, ws').value != id;
      }
    }
  }

  lemma RemovePreservesValid(reg: Registry, id: string)
    requires Valid(reg)
    ensures Valid(RemoveSession(reg, id))
    ensures GetSessionCount(RemoveSession(reg, id)) == GetSessionCount(reg) - (if id in Keys(reg.sessions) then 1 else 0)
  {
    var r := RemoveSession(reg, id);
    if Get(reg.sessions, id).Some? {
      var s := Get(reg.sessions, id).value;
      RemoveUnique(reg.sessions, id);
      RemoveUnique(reg.bySocket, s.ws);
      forall ws' | Get(r.bySocket, ws').Some?
        ensures Get(r.sessions, Get(r.bySocket, ws').value).Some?
        ensures Get(r.sessions, Get(r.bySocket, ws').value).value.ws == ws'
      {
        assert ws' != s.ws;
        assert Get(reg.bySocket, ws').value != id;
      }
    }
  }

  lemma RemoveByWebSocketPreservesValid(reg: Registry, ws: Socket)
    requires Valid(reg)
    ensures Valid(RemoveSessionByWebSocket(reg, ws))
  {
    if Get(reg.bySocket, ws).Some? {
      RemovePreservesValid(reg, Get(reg.bySocket, ws).value);
    }
  }

  lemma DeactivatePreservesValid(reg: Registry, id: string)
    requires Valid(reg)
    ensures Valid(DeactivateSession(reg, id))
    ensures GetSessionCount(DeactivateSession(reg, id)) == GetSessionCount(reg)
  {
    var r := DeactivateSession(reg, id);
    if Get(reg.sessions, id).Some? {
      forall ws' | Get(r.bySocket, ws').Some?
        ensures Get(r.sessions, Get(r.bySocket, ws').value).Some?
        ensures Get(r.sessions, Get(r.bySocket, ws').value).value.ws == ws'
      {
      }
    }
  }

  // ---- the sweep ----

  /** A session `cleanupOldSessions` drops: inactive and strictly older than
      `maxAgeMinutes` at time `now` (both times in milliseconds). */
  predicate Stale(s: Session, now: int, maxAgeMinutes: real) {
    !s.isActive && (now - s.createdAt) as real / 60000.0 > maxAgeMinutes
  }

  /** The limit `cleanupOldSessions` uses when called without one. */
  const DefaultMaxAgeMinutes: real := 60.0

  /** The entries a sweep keeps, in their order. */
  function Kept(m: Assoc<string, Session>, now: int, maxAgeMinutes: real): (r: Assoc<string, Session>)
    ensures |r| <= |m|
    decreases |m|
  {
    if |m| == 0 then []
    else
      Kept(m[..|m| - 1], now, maxAgeMinutes)
      + if Stale(m[|m| - 1].1, now, maxAgeMinutes) then [] else [m[|m| - 1]]
  }

  /** The sockets of the stale records in `m`. */
  function StaleSockets(m: Assoc<string, Session>, now: int, maxAgeMinutes: real): set<Socket> {
    set i | 0 <= i < |m| && Stale(m[i].1, now, maxAgeMinutes) :: m[i].1.ws
  }

  /** The keys of a sweep's survivors are among the original keys. */
  lemma {:induction false} KeptKeys(m: Assoc<string, Session>, now: int, maxAgeMinutes: real, k: string)
    requires k !in Keys(m)
    ensures k !in Keys(Kept(m, now, maxAgeMinutes))
    decreases |m|
  {
    if |m| > 0 {
      assert Keys(m) == Keys(m[..|m| - 1]) + [m[|m| - 1].0];
      KeptKeys(m[..|m| - 1], now, maxAgeMinutes, k);
      var init := Kept(m[..|m| - 1], now, maxAgeMinutes);
      if !Stale(m[|m| - 1].1, now, maxAgeMinutes) {
        assert Keys(init + [m[|m| - 1]]) == Keys(init) + [m[|m| - 1].0];
      } else {
        assert Kept(m, now, maxAgeMinutes) == init + [];
      }
    }
  }

  /** Adding one record to the swept prefix adds its socket to the stale
      sockets exactly when it is stale. */
  lemma StaleSocketsStep(m: Assoc<string, Session>, i: nat, now: int, maxAgeMinutes: real)
    requires i < |m|
    ensures StaleSockets(m[..i + 1], now, maxAgeMinutes)
            == StaleSockets(m[..i], now, maxAgeMinutes)
               + (if Stale(m[i].1, now, maxAgeMinutes) then {m[i].1.ws} else {})
  {
    var a := m[..i];
    var b := m[..i + 1];
    assert b == a + [m[i]];
    forall w | w in StaleSockets(b, now, maxAgeMinutes)
      ensures w in StaleSockets(a, now, maxAgeMinutes) + (if Stale(m[i].1, now, maxAgeMinutes) then {m[i].1.ws} else {})
    {
      var j :| 0 <= j < i + 1 && Stale(b[j].1, now, maxAgeMinutes) && b[j].1.ws == w;
      if j < i { assert b[j] == a[j]; }
    }
    forall w | w in StaleSockets(a, now, maxAgeMinutes) ensures w in StaleSockets(b, now, maxAgeMinutes) {
      var j :| 0 <= j < i && Stale(a[j].1, now, maxAgeMinutes) && a[j].1.ws == w;
      assert b[j] == a[j];
    }
    if Stale(m[i].1, now, maxAgeMinutes) {
      assert b[i] == m[i];
    }
  }

  /** The records left after sweeping the first `i` records of `m`. */
  ghost predicate SessionsSwept(m: Assoc<string, Session>, i: nat, r: Registry, now: int, maxAgeMinutes: real) {
    i <= |m| && r.sessions == Kept(m[..i], now, maxAgeMinutes) + m[i..]
  }

  /** The socket entries left after sweeping the first `i` records of `reg`. */
  ghost predicate SocketsSwept(reg: Registry, i: nat, r: Registry, now: int, maxAgeMinutes: real)
    requires i <= |reg.sessions|
  {
    forall ws :: Get(r.bySocket, ws)
                 == (if ws in StaleSockets(reg.sessions[..i], now, maxAgeMinutes) then None else Get(reg.bySocket, ws))
  }

  /** The state of a sweep that has visited the first `i` records of `reg`. */
  ghost predicate SweptUpTo(reg: Registry, i: nat, r: Registry, now: int, maxAgeMinutes: real) {
    && SessionsSwept(reg.sessions, i, r, now, maxAgeMinutes)
    && Valid(r)
    && SocketsSwept(reg, i, r, now, maxAgeMinutes)
  }

  /** The record the sweep visits next is still stored under its id, after
      the records kept so far. */
  lemma SweepNext(reg: Registry, i: nat, r: Registry, now: int, maxAgeMinutes: real)
    requires UniqueKeys(reg.sessions) && i < |reg.sessions|
    requires SessionsSwept(reg.sessions, i, r, now, maxAgeMinutes)
    ensures r.sessions == Kept(reg.sessions[..i], now, maxAgeMinutes) + [reg.sessions[i]] + reg.sessions[i + 1..]
    ensures reg.sessions[i].0 !in Keys(Kept(reg.sessions[..i], now, maxAgeMinutes))
    ensures reg.sessions[i].0 !in Keys(reg.sessions[i + 1..])
    ensures Get(r.sessions, reg.sessions[i].0) == Some(reg.sessions[i].1)
  {
    var m := reg.sessions;
    var kept := Kept(m[..i], now, maxAgeMinutes);
    assert r.sessions == kept + [m[i]] + m[i + 1..] by {
      SplitAt(kept, m, i);
    }
    assert m[i].0 !in Keys(m[..i]) && m[i].0 !in Keys(m[i + 1..]) by {
      UniqueAt(m, i);
    }
    assert m[i].0 !in Keys(kept) by {
      KeptKeys(m[..i], now, maxAgeMinutes, m[i].0);
    }
    GetFirst(kept, m[i].0, m[i].1, m[i + 1..]);
  }

  /** Sweeping one more record appends it to the survivors unless it is
      stale. */
  lemma KeptStep(m: Assoc<string, Session>, i: nat, now: int, maxAgeMinutes: real)
    requires i < |m|
    ensures Kept(m[..i + 1], now, maxAgeMinutes)
            == Kept(m[..i], now, maxAgeMinutes) + (if Stale(m[i].1, now, maxAgeMinutes) then [] else [m[i]])
  {
    assert m[..i + 1][..i] == m[..i];
    assert m[..i + 1][i] == m[i];
  }

  lemma SweepStaleSessions(reg: Registry, i: nat, r: Registry, now: int, maxAgeMinutes: real)
    requires UniqueKeys(reg.sessions) && i < |reg.sessions| && Stale(reg.sessions[i].1, now, maxAgeMinutes)
    requires SessionsSwept(reg.sessions, i, r, now, maxAgeMinutes)
    ensures SessionsSwept(reg.sessions, i + 1, RemoveSession(r, reg.sessions[i].0), now, maxAgeMinutes)
    ensures |Kept(reg.sessions[..i + 1], now, maxAgeMinutes)| == |Kept(reg.sessions[..i], now, maxAgeMinutes)|
  {
    var m := reg.sessions;
    var kept := Kept(m[..i], now, maxAgeMinutes);
    SweepNext(reg, i, r, now, maxAgeMinutes);
    var r2 := RemoveSession(r, m[i].0);
    assert r2.sessions == kept + m[i + 1..] by {
      RemoveMiddle(kept, m[i], m[i + 1..]);
    }
    assert Kept(m[..i + 1], now, maxAgeMinutes) == kept by {
      KeptStep(m, i, now, maxAgeMinutes);
      assert kept + [] == kept;
    }
  }

  lemma SweepStaleSockets(reg: Registry, i: nat, r: Registry, now: int, maxAgeMinutes: real)
    requires i < |reg.sessions| && Stale(reg.sessions[i].1, now, maxAgeMinutes)
    requires Get(r.sessions, reg.sessions[i].0) == Some(reg.sessions[i].1)
    requires SocketsSwept(reg, i, r, now, maxAgeMinutes)
    ensures SocketsSwept(reg, i + 1, RemoveSession(r, reg.sessions[i].0), now, maxAgeMinutes)
  {
    StaleSocketsStep(reg.sessions, i, now, maxAgeMinutes);
  }

  /** Sweeping past a stale record removes it. */
  lemma SweepStale(reg: Registry, i: nat, r: Registry, now: int, maxAgeMinutes: real)
    requires Valid(reg) && i < |reg.sessions| && Stale(reg.sessions[i].1, now, maxAgeMinutes)
    requires SweptUpTo(reg, i, r, now, maxAgeMinutes)
    ensures SweptUpTo(reg, i + 1, RemoveSession(r, reg.sessions[i].0), now, maxAgeMinutes)
    ensures |Kept(reg.sessions[..i + 1], now, maxAgeMinutes)| == |Kept(reg.sessions[..i], now, maxAgeMinutes)|
  {
    SweepNext(reg, i, r, now, maxAgeMinutes);
    SweepStaleSessions(reg, i, r, now, maxAgeMinutes);
    SweepStaleSockets(reg, i, r, now, maxAgeMinutes);
    RemovePreservesValid(r, reg.sessions[i].0);
  }

  /** Sweeping past a record that is not stale keeps it. */
  lemma SweepFresh(reg: Registry, i: nat, r: Registry, now: int, maxAgeMinutes: real)
    requires UniqueKeys(reg.sessions) && i < |reg.sessions| && !Stale(reg.sessions[i].1, now, maxAgeMinutes)
    requires SweptUpTo(reg, i, r, now, maxAgeMinutes)
    ensures SweptUpTo(reg, i + 1, r, now, maxAgeMinutes)
    ensures |Kept(reg.sessions[..i + 1], now, maxAgeMinutes)| == |Kept(reg.sessions[..i], now, maxAgeMinutes)| + 1
  {
    var m := reg.sessions;
    var kept := Kept(m[..i], now, maxAgeMinutes);
    assert m[..i + 1][..i] == m[..i];
    assert m[..i + 1][i] == m[i];
    StaleSocketsStep(m, i, now, maxAgeMinutes);
    assert Kept(m[..i + 1], now, maxAgeMinutes) == kept + [m[i]];
    assert m[i..] == [m[i]] + m[i + 1..];
    assert kept + [m[i]] + m[i + 1..] == kept + m[i..];
  }

  lemma SweepStart(reg: Registry, now: int, maxAgeMinutes: real)
    requires Valid(reg)
    ensures SweptUpTo(reg, 0, reg, now, maxAgeMinutes)
    ensures |Kept(reg.sessions[..0], now, maxAgeMinutes)| == 0
  {
    assert reg.sessions[..0] == [] && reg.sessions[0..] == reg.sessions;
    assert StaleSockets(reg.sessions[..0], now, maxAgeMinutes) == {};
  }

  lemma SweepDone(reg: Registry, r: Registry, now: int, maxAgeMinutes: real)
    requires SweptUpTo(reg, |reg.sessions|, r, now, maxAgeMinutes)
    ensures r.sessions == Kept(reg.sessions, now, maxAgeMinutes)
    ensures forall ws :: Get(r.bySocket, ws) == (if ws in StaleSockets(reg.sessions, now, maxAgeMinutes) then None else Get(reg.bySocket, ws))
  {
    assert reg.sessions[..|reg.sessions|] == reg.sessions;
    assert reg.sessions[|reg.sessions|..] == [];
    assert r.sessions == Kept(reg.sessions, now, maxAgeMinutes) + [];
  }

  /** The loop body of the sweep: visits record `i`, removing it when it is
      stale. */
  method SweepOne(reg: Registry, i: nat, r: Registry, now: int, maxAgeMinutes: real) returns (r': Registry, removed: bool)
    requires Valid(reg) && i < |reg.sessions|
    requires SweptUpTo(reg, i, r, now, maxAgeMinutes)
    ensures removed <==> Stale(reg.sessions[i].1, now, maxAgeMinutes)
    ensures SweptUpTo(reg, i + 1, r', now, maxAgeMinutes)
    ensures |Kept(reg.sessions[..i + 1], now, maxAgeMinutes)|
            == |Kept(reg.sessions[..i], now, maxAgeMinutes)| + (if removed then 0 else 1)
  {
    removed := Stale(reg.sessions[i].1, now, maxAgeMinutes);
    if removed {
      SweepStale(reg, i, r, now, maxAgeMinutes);
      r' := RemoveSession(r, reg.sessions[i].0);
    } else {
      SweepFresh(reg, i, r, now, maxAgeMinutes);
      r' := r;
    }
  }

  /** `cleanupOldSessions(maxAgeMinutes)` at time `now`: walks the records in
      insertion order and removes each stale one with `removeSession`;
      returns how many it removed. */
  method CleanupOldSessions(reg: Registry, now: int, maxAgeMinutes: real) returns (r: Registry, cleaned: nat)
    requires Valid(reg)
    ensures Valid(r)
    ensures r.sessions == Kept(reg.sessions, now, maxAgeMinutes)
    ensures cleaned == |reg.sessions| - |r.sessions|
    ensures forall ws :: Get(r.bySocket, ws) == (if ws in StaleSockets(reg.sessions, now, maxAgeMinutes) then None else Get(reg.bySocket, ws))
  {
    var m := reg.sessions;
    r := reg;
    cleaned := 0;
    var i := 0;
    SweepStart(reg, now, maxAgeMinutes);
    while i < |m|
      invariant i <= |m|
      invariant SweptUpTo(reg, i, r, now, maxAgeMinutes)
      invariant cleaned + |Kept(reg.sessions[..i], now, maxAgeMinutes)| == i
    {
      var removed;
      r, removed := SweepOne(reg, i, r, now, maxAgeMinutes);
      if removed {
        cleaned := cleaned + 1;
      }
      i := i + 1;
    }
    SweepDone(reg, r, now, maxAgeMinutes);
  }

  /** `cleanupOldSessions()` called without an argument: the limit defaults
      to 60 minutes. */
  method CleanupOldSessionsDefault(reg: Registry, now: int) returns (r: Registry, cleaned: nat)
    requires Valid(reg)
    ensures Valid(r)
    ensures r.sessions == Kept(reg.sessions, now, DefaultMaxAgeMinutes)
    ensures cleaned == |reg.sessions| - |r.sessions|
  {
    r, cleaned := CleanupOldSessions(reg, now, DefaultMaxAgeMinutes);
  }

  /** A sweep keeps exactly the records that are not stale: in particular it
      never drops an active session. */
  lemma {:induction false} KeptMembers(m: Assoc<string, Session>, now: int, maxAgeMinutes: real)
    ensures forall e :: e in Kept(m, now, maxAgeMinutes) <==> e in m && !Stale(e.1, now, maxAgeMinutes)
    decreases |m|
  {
    if |m| > 0 {
      var init := m[..|m| - 1];
      KeptMembers(init, now, maxAgeMinutes);
      assert m == init + [m[|m| - 1]];
    }
  }

  lemma ActiveSurvivesSweep(reg: Registry, now: int, maxAgeMinutes: real, id: string)
    requires Valid(reg)
    requires Get(reg.sessions, id).Some? && Get(reg.sessions, id).value.isActive
    ensures Get(Kept(reg.sessions, now, maxAgeMinutes), id) == Get(reg.sessions, id)
  {
    KeptGet(reg.sessions, now, maxAgeMinutes, id);
  }

  /** A record that is not stale is found under its id after the sweep. */
  lemma KeptGet(m: Assoc<string, Session>, now: int, maxAgeMinutes: real, id: string)
    requires UniqueKeys(m)
    requires Get(m, id).Some? && !Stale(Get(m, id).value, now, maxAgeMinutes)
    ensures Get(Kept(m, now, maxAgeMinutes), id) == Get(m, id)
  {
    var k := Kept(m, now, maxAgeMinutes);
    var i := Find(m, id).value;
    KeptMembers(m, now, maxAgeMinutes);
    assert m[i] in k;
    var j :| 0 <= j < |k| && k[j] == m[i];
    assert k[j].0 == id;
    var f := Find(k, id);
    assert f.Some? && f.value <= j;
    assert k[f.value] in m;
    UniqueEntry(m, k[f.value], i);
  }

  /** In a map with one entry per key, the entry carrying the key of entry
      `i` is entry `i`. */
  lemma UniqueEntry(m: Assoc<string, Session>, e: (string, Session), i: nat)
    requires UniqueKeys(m) && i < |m| && e in m && e.0 == m[i].0
    ensures e == m[i]
  {
    var p :| 0 <= p < |m| && m[p] == e;
    assert p == i;
  }

  // ---- the server's use of the registry ----

  /** One `start_workflow` message followed by the socket closing: the
      server creates a session, runs the workflow, deactivates the session,
      and on close removes it again. With a fresh id the count goes up by
      one and back, and the session is inactive before it is removed. */
  lemma ServeOneRun(reg: Registry, id: string, ws: Socket, now: int, userDraft: string)
    requires Valid(reg) && id !in Keys(reg.sessions) && id != ""
    ensures var r1 := DeactivateSession(CreateSession(reg, id, ws, now, userDraft), id);
      && Valid(r1)
      && GetSession(r1, id) == Some(Session(id, ws, now, userDraft, false))
      && GetSessionIdByWebSocket(r1, ws) == Some(id)
      && GetSessionCount(r1) == GetSessionCount(reg) + 1
      && var r2 := RemoveSessionByWebSocket(r1, ws);
         && Valid(r2)
         && GetSession(r2, id).None?
         && GetSessionIdByWebSocket(r2, ws).None?
         && GetSessionCount(r2) == GetSessionCount(reg)
  {
    var r0 := CreateSession(reg, id, ws, now, userDraft);
    CreatePreservesValid(reg, id, ws, now, userDraft);
    DeactivatePreservesValid(r0, id);
    var r1 := DeactivateSession(r0, id);
    RemovePreservesValid(r1, id);
    assert id in Keys(r1.sessions);
  }

  /** `removeSession` on an older session of a socket that has since opened
      a newer one also drops the newer session's socket entry: the newer
      session stays, but can no longer be found from its socket. */
  lemma RemoveOlderDropsNewerLink(reg: Registry, older: string, newer: string, ws: Socket, t1: int, t2: int,
                                  d1: string, d2: string)
    requires Valid(reg) && older !in Keys(reg.sessions) && newer != older
    requires newer !in Keys(CreateSession(reg, older, ws, t1, d1).sessions)
    ensures var r := RemoveSession(CreateSession(CreateSession(reg, older, ws, t1, d1), newer, ws, t2, d2), older);
      && GetSession(r, newer) == Some(Session(newer, ws, t2, d2, true))
      && GetSessionIdByWebSocket(r, ws).None?
  {
  }

  /** Closing a socket removes only the session it points at; an older
      session opened on the same socket stays. */
  lemma CloseKeepsOlderSession(reg: Registry, older: string, ws: Socket)
    requires Valid(reg) && Get(reg.sessions, older).Some? && Get(reg.sessions, older).value.ws == ws
    requires Get(reg.bySocket, ws).Some? && Get(reg.bySocket, ws).value != older
    ensures GetSession(RemoveSessionByWebSocket(reg, ws), older) == GetSession(reg, older)
  {
  }
}
