/** One owner per connection: how sockets pass from a transport path to the sessions of
a step's result, and what happens to the ones that do not. */
module Ownership {
  import opened Orders
  import opened Results
  import opened Selection

  /** A socket. The counter is what a double close would show. */
  class Conn {
    var closes: nat

    constructor ()
      ensures closes == 0
    {
      closes := 0;
    }

    method Close()
      modifies this
      ensures closes == old(closes) + 1
    {
      closes := closes + 1;
    }
  }

  datatype PathInfo = PathInfo(endpoint: string, address: string, evidence: string)

  /** A transport path or a session of any step: what it describes, and the connection
  it owns until that is taken or closed. */
  class OwnedConn {
    const conn: Conn?
    const path: PathInfo
    var taken: bool
    var closed: bool

    constructor (conn: Conn?, path: PathInfo)
      ensures this.conn == conn && this.path == path && !taken && !closed
    {
      this.conn, this.path := conn, path;
      taken, closed := false, false;
    }

    predicate Available()
      reads this
    {
      conn != null && !taken && !closed
    }

    /** The one transfer: it succeeds exactly when the connection is still here. */
    method TakeConn() returns (c: Conn?)
      modifies if Available() then {this} else {}
      ensures c == if old(Available()) then conn else null
      ensures taken == (old(taken) || old(Available())) && closed == old(closed)
      ensures !Available()
    {
      if !Available() {
        return null;
      }
      taken := true;
      return conn;
    }

    /** Idempotent, and does nothing after a transfer. */
    method Close()
      modifies if Available() then {this, conn} else {}
      ensures closed == (old(closed) || old(Available())) && taken == old(taken)
      ensures old(Available()) ==> conn.closes == old(conn.closes) + 1
      ensures !Available()
    {
      if conn == null || taken || closed {
        return;
      }
      closed := true;
      conn.Close();
    }
  }

  // ---- who owns what ----

  ghost function Owners(paths: seq<OwnedConn?>): set<OwnedConn?>
    reads set p | p in paths
  {
    set p | p in paths && p != null && p.Available()
  }

  ghost function Owned(paths: seq<OwnedConn?>): set<Conn?>
    reads set p | p in paths
  {
    set p | p in Owners(paths) :: p.conn
  }

  /** Every connection has at most one owner here, and an owned one is open. */
  ghost predicate Linear(paths: seq<OwnedConn?>)
    reads set p | p in paths, set p | p in paths && p != null :: p.conn
  {
    && (forall p, q :: p in Owners(paths) && q in Owners(paths) && p != q ==> p.conn != q.conn)
    && (forall p :: p in Owners(paths) ==> p.conn.closes == 0)
  }

  /** Result.Close: every connection still owned is closed once; asked again, nothing
  is owned, so nothing may change. */
  method CloseSessions(sessions: seq<OwnedConn>)
    requires Linear(sessions)
    modifies Owners(sessions), Owned(sessions)
    ensures Owners(sessions) == {}
    ensures forall s :: s in old(Owners(sessions)) ==> s.closed && s.taken == old(s.taken) && s.conn.closes == 1
  {
    var i := 0;
    while i < |sessions|
      invariant 0 <= i <= |sessions|
      invariant forall k :: 0 <= k < i ==> !sessions[k].Available()
      invariant forall s :: s in sessions && s !in old(Owners(sessions)) ==> !s.Available()
      invariant forall s :: s in old(Owners(sessions)) ==> s.taken == old(s.taken)
      invariant forall s :: s in old(Owners(sessions)) ==> if s.closed then s.conn.closes == 1 else s.conn.closes == 0
      modifies old(Owners(sessions)), old(Owned(sessions))
    {
      assert sessions[i] in sessions;
      sessions[i].Close();
      i := i + 1;
    }
  }

  // ---- a step over several paths ----

  /** What one exchange left behind: refused when its evidence could not be built or
  recorded, broken when the exchange did not complete. evidence is the node it became. */
  datatype Observation = Observation(refused: bool, broken: bool, errorCode: int, evidence: string)

  /** ApiVersions: any completed answer leaves a usable socket, an error code included. */
  predicate Completed(o: Observation) {
    !o.broken
  }

  /** SaslHandshake: only an accepted mechanism leaves a defined next message. */
  predicate Accepted(o: Observation) {
    !o.broken && o.errorCode == 0
  }

  ghost predicate FirstAt(paths: seq<OwnedConn?>, k: nat) {
    k < |paths| && paths[k] != null && forall j :: 0 <= j < k ==> paths[j] != paths[k]
  }

  /** The places of the paths a step takes over: available when it began, and seen for
  the first time. */
  ghost predicate Attempted(paths: seq<OwnedConn?>, owners: set<OwnedConn?>, k: nat) {
    FirstAt(paths, k) && paths[k] in owners
  }

  /** After n paths: which sessions carry on, in the order of the paths. */
  ghost predicate Carries(
    paths: seq<OwnedConn?>, owners: set<OwnedConn?>, observed: seq<Observation>, keeps: Observation -> bool, n: nat,
    sessions: seq<OwnedConn>, at: seq<nat>)
  {
    && n <= |paths| == |observed|
    && (forall i, j :: 0 <= i < j < |at| ==> at[i] < at[j])
    && (forall k: nat :: k in at <==> k < n && Attempted(paths, owners, k) && keeps(observed[k]))
    && |sessions| == |at|
    && (forall i :: 0 <= i < |at| ==> at[i] < n && paths[at[i]] != null)
    && (forall i :: 0 <= i < |at| ==> sessions[i].conn == paths[at[i]].conn)
    && (forall i :: 0 <= i < |at| ==> sessions[i].path == paths[at[i]].path.(evidence := observed[at[i]].evidence))
  }

  /** After n paths: everything attempted so far was taken and is either carried on,
  still open, or closed once; everything later is as it was. */
  ghost predicate Accounted(paths: seq<OwnedConn?>, owners: set<OwnedConn?>, n: nat, at: seq<nat>)
    reads owners, set p | p in owners && p != null :: p.conn
  {
    && (forall k: nat :: k < n && Attempted(paths, owners, k) ==>
      paths[k].taken && paths[k].conn != null && paths[k].conn.closes == if k in at then 0 else 1)
    && (forall k: nat :: n <= k && Attempted(paths, owners, k) ==> paths[k].Available() && paths[k].conn.closes == 0)
  }

  /** One path: its connection is handed to a new session when the rule keeps it, and
  closed on every other outcome. A path with nothing to take is passed over. */
  method Advance(path: OwnedConn, o: Observation, keeps: Observation -> bool)
    returns (r: Outcome, session: OwnedConn?)
    modifies if path.Available() then {path, path.conn} else {}
    ensures !path.Available() && path.closed == old(path.closed)
    ensures old(path.Available()) ==> path.taken
    ensures r.Refused? <==> old(path.Available()) && o.refused
    ensures session != null <==> old(path.Available()) && !o.refused && keeps(o)
    ensures session != null ==> fresh(session) && session.Available() && session.conn == path.conn
    ensures session != null ==> session.path == path.path.(evidence := o.evidence)
    ensures old(path.Available()) ==> path.conn.closes == old(path.conn.closes) + if session != null then 0 else 1
  {
    session := null;
    var conn := path.TakeConn();
    if conn == null {
      return Done, null;
    }
    if o.refused {
      conn.Close();
      return Refused(ErrInvalidGraph), null;
    }
    if !keeps(o) {
      conn.Close();
      return Done, null;
    }
    session := new OwnedConn(conn, path.path.(evidence := o.evidence));
    return Done, session;
  }

  /** The sessions of a result are open and own different connections. */
  ghost predicate Live(sessions: seq<OwnedConn>)
    reads set s | s in sessions, set s | s in sessions :: s.conn
  {
    && (forall i :: 0 <= i < |sessions| ==> sessions[i].Available() && sessions[i].conn.closes == 0)
    && (forall i, j :: 0 <= i < j < |sessions| ==> sessions[i] != sessions[j] && sessions[i].conn != sessions[j].conn)
  }

  ghost predicate DistinctConns(owners: set<OwnedConn?>) {
    && null !in owners
    && forall p, q :: p in owners && q in owners && p != q && p != null && q != null ==> p.conn != q.conn
  }

  ghost predicate OthersGone(paths: seq<OwnedConn?>, owners: set<OwnedConn?>)
    reads set p | p in paths
  {
    forall p :: p in paths && p != null && p !in owners ==> !p.Available()
  }

  /** While the walk is at i, what is still here to take is what it has not met. */
  lemma AvailableIsAttempted(paths: seq<OwnedConn?>, owners: set<OwnedConn?>, i: nat, at: seq<nat>)
    requires Accounted(paths, owners, i, at) && OthersGone(paths, owners)
    requires i < |paths| && paths[i] != null
    ensures paths[i].Available() <==> Attempted(paths, owners, i)
    ensures Attempted(paths, owners, i) ==> paths[i].conn != null && paths[i].conn.closes == 0
  {
    if paths[i].Available() && !Attempted(paths, owners, i) {
      var j := FirstPlace(paths, i);
      assert Attempted(paths, owners, j);
    }
  }

  lemma {:induction false} FirstPlace(paths: seq<OwnedConn?>, i: nat) returns (j: nat)
    requires i < |paths| && paths[i] != null
    ensures j <= i && paths[j] == paths[i] && FirstAt(paths, j)
  {
    j := i;
    if k :| 0 <= k < i && paths[k] == paths[i] {
      j := FirstPlace(paths, k);
    }
  }

  lemma CarriesPast(
    paths: seq<OwnedConn?>, owners: set<OwnedConn?>, observed: seq<Observation>, keeps: Observation -> bool, i: nat,
    sessions: seq<OwnedConn>, at: seq<nat>)
    requires Carries(paths, owners, observed, keeps, i, sessions, at) && i < |paths|
    requires !(Attempted(paths, owners, i) && keeps(observed[i]))
    ensures Carries(paths, owners, observed, keeps, i + 1, sessions, at)
  {
    hide Attempted;
  }

  lemma CarriesOn(
    paths: seq<OwnedConn?>, owners: set<OwnedConn?>, observed: seq<Observation>, keeps: Observation -> bool, i: nat,
    sessions: seq<OwnedConn>, at: seq<nat>, session: OwnedConn)
    requires Carries(paths, owners, observed, keeps, i, sessions, at) && i < |paths|
    requires Attempted(paths, owners, i) && keeps(observed[i])
    requires session.conn == paths[i].conn && session.path == paths[i].path.(evidence := observed[i].evidence)
    ensures Carries(paths, owners, observed, keeps, i + 1, sessions + [session], at + [i])
  {
    assert forall k: nat :: k in at + [i] <==> k in at || k == i;
    assert forall m :: 0 <= m < |at| ==> at[m] < i;
    forall k: nat ensures k in at + [i] <==> k < i + 1 && Attempted(paths, owners, k) && keeps(observed[k]) {
    }
  }

  /** Passing over a path that is not attempted changes nothing. */
  lemma AccountedPast(paths: seq<OwnedConn?>, owners: set<OwnedConn?>, i: nat, at: seq<nat>)
    requires Accounted(paths, owners, i, at) && !Attempted(paths, owners, i)
    ensures Accounted(paths, owners, i + 1, at)
  {
    hide Attempted;
  }

  /** The paths of a step, their owners when it began, and the sessions so far. */
  datatype Walk = Walk(paths: seq<OwnedConn?>, owners: set<OwnedConn?>, sessions: seq<OwnedConn>)

  twostate lemma AccountedOne(w: Walk, new i: nat, new at: seq<nat>, new after: seq<nat>)
    requires old(Accounted(w.paths, w.owners, i, at)) && Attempted(w.paths, w.owners, i)
    requires forall m :: 0 <= m < |at| ==> at[m] < i
    requires after == at || after == at + [i]
    requires w.paths[i].taken && w.paths[i].conn != null && w.paths[i].conn.closes == if after == at then 1 else 0
    requires forall p :: p in w.owners && p != null && p != w.paths[i] ==>
      unchanged(p) && (p.conn != null ==> unchanged(p.conn))
    ensures Accounted(w.paths, w.owners, i + 1, after)
  {
    assert i in at + [i] && i !in at && at != at + [i];
    forall k: nat | k != i ensures k in after <==> k in at {
    }
    forall k: nat | k != i && Attempted(w.paths, w.owners, k) ensures w.paths[k] != w.paths[i] {
    }
  }

  twostate lemma AbandonedAll(w: Walk, new n: nat, new at: seq<nat>)
    requires old(Accounted(w.paths, w.owners, n, at)) && DistinctConns(w.owners) && |w.sessions| == |at|
    requires forall m :: 0 <= m < |at| ==>
      at[m] < n && Attempted(w.paths, w.owners, at[m]) && w.sessions[m].conn == w.paths[at[m]].conn
    requires forall m :: 0 <= m < |at| ==> w.sessions[m].conn != null && w.sessions[m].conn.closes == 1
    requires forall p :: p in w.owners && p != null ==> unchanged(p)
    requires forall p :: p in w.owners && p != null && p.conn != null ==>
      (forall m :: 0 <= m < |at| ==> p.conn != w.sessions[m].conn) ==> unchanged(p.conn)
    ensures Accounted(w.paths, w.owners, n, [])
  {
    forall k: nat | Attempted(w.paths, w.owners, k) && k !in at
      ensures forall m :: 0 <= m < |at| ==> w.paths[k].conn != w.sessions[m].conn
    {
      forall m | 0 <= m < |at| ensures w.paths[k].conn != w.sessions[m].conn {
        assert w.paths[k] != w.paths[at[m]] by {
          assert at[m] in at;
        }
      }
    }
    forall k: nat | k < n && Attempted(w.paths, w.owners, k) ensures w.paths[k].conn.closes == 1 {
      if k in at {
        var m :| 0 <= m < |at| && at[m] == k;
      }
    }
    forall k: nat | n <= k && Attempted(w.paths, w.owners, k)
      ensures w.paths[k].Available() && w.paths[k].conn.closes == 0
    {
      assert k !in at;
    }
  }

  /** The connections carried are those of distinct attempted paths before i. */
  lemma CarriedConns(
    paths: seq<OwnedConn?>, owners: set<OwnedConn?>, observed: seq<Observation>, keeps: Observation -> bool, i: nat,
    sessions: seq<OwnedConn>, at: seq<nat>)
    requires Carries(paths, owners, observed, keeps, i, sessions, at) && DistinctConns(owners)
    ensures |sessions| == |at|
    ensures forall m :: 0 <= m < |at| ==> at[m] < i && Attempted(paths, owners, at[m])
    ensures forall m :: 0 <= m < |at| ==> sessions[m].conn == paths[at[m]].conn
    ensures i < |paths| && Attempted(paths, owners, i) ==>
      paths[i] != null && forall m :: 0 <= m < |at| ==> sessions[m].conn != paths[i].conn
  {
    hide Attempted;
    AttemptedIsPath(paths, owners, i);
    forall m | 0 <= m < |at| ensures Attempted(paths, owners, at[m]) {
      assert at[m] in at;
    }
    if i < |paths| && Attempted(paths, owners, i) {
      forall m | 0 <= m < |at| ensures sessions[m].conn != paths[i].conn {
        DifferentPaths(paths, owners, at[m], i);
      }
    }
  }

  lemma AttemptedIsPath(paths: seq<OwnedConn?>, owners: set<OwnedConn?>, k: nat)
    ensures Attempted(paths, owners, k) ==> k < |paths| && paths[k] != null && paths[k] in owners
  {
  }

  lemma DifferentPaths(paths: seq<OwnedConn?>, owners: set<OwnedConn?>, j: nat, k: nat)
    requires Attempted(paths, owners, j) && Attempted(paths, owners, k) && j < k && DistinctConns(owners)
    ensures paths[j] != paths[k] && paths[j].conn != paths[k].conn
  {
  }

  lemma LiveOn(sessions: seq<OwnedConn>, session: OwnedConn)
    requires Live(sessions) && session.Available() && session.conn.closes == 0
    requires forall m :: 0 <= m < |sessions| ==> sessions[m].conn != session.conn
    ensures Live(sessions + [session])
  {
  }

  lemma LiveIsLinear(sessions: seq<OwnedConn>)
    requires Live(sessions)
    ensures Linear(sessions) && Owners(sessions) == set s | s in sessions
    ensures Owned(sessions) == set s | s in sessions :: s.conn
  {
  }

  /** One path: the account and the list of sessions move on together. */
  method StepOver(
    paths: seq<OwnedConn?>, ghost owners: set<OwnedConn?>, observed: seq<Observation>, keeps: Observation -> bool,
    i: nat, sessions: seq<OwnedConn>, ghost at: seq<nat>)
    returns (r: Outcome, more: seq<OwnedConn>, ghost after: seq<nat>)
    requires i < |paths| && paths[i] != null && DistinctConns(owners)
    requires Carries(paths, owners, observed, keeps, i, sessions, at) && Accounted(paths, owners, i, at)
    requires OthersGone(paths, owners) && Live(sessions) && forall s :: s in sessions ==> s !in paths
    modifies if paths[i].Available() then {paths[i], paths[i].conn} else {}
    ensures Accounted(paths, owners, i + 1, after) && OthersGone(paths, owners) && Live(more)
    ensures r.Refused? <==> Attempted(paths, owners, i) && i < |observed| && observed[i].refused
    ensures r.Refused? ==> more == sessions && after == at
    ensures r.Done? ==> Carries(paths, owners, observed, keeps, i + 1, more, after)
    ensures forall s :: s in more ==> s in sessions || fresh(s)
  {
    hide Carries, Accounted, Attempted, Live, DistinctConns, OthersGone, Framed;
    AvailableIsAttempted(paths, owners, i, at);
    AttemptedIsPath(paths, owners, i);
    CarriedConns(paths, owners, observed, keeps, i, sessions, at);
    CarriesLength(paths, owners, observed, keeps, i, sessions, at);
    Apart(paths, owners, i);
    var session;
    r, session := AdvanceFramed(paths[i], observed[i], keeps, paths, owners, sessions);
    if session != null {
      SteppedOn(Walk(paths, owners, sessions), i, at, session);
      CarriesOn(paths, owners, observed, keeps, i, sessions, at, session);
      return r, sessions + [session], at + [i];
    }
    SteppedPast(Walk(paths, owners, sessions), i, at);
    if r.Done? {
      CarriesPast(paths, owners, observed, keeps, i, sessions, at);
    }
    return r, sessions, at;
  }

  /** Advance, and what it leaves alone. */
  method AdvanceFramed(
    path: OwnedConn, o: Observation, keeps: Observation -> bool,
    ghost paths: seq<OwnedConn?>, ghost owners: set<OwnedConn?>, ghost sessions: seq<OwnedConn>)
    returns (r: Outcome, session: OwnedConn?)
    requires path !in sessions && path.Available() ==>
      && (forall p :: p in owners && p != path && p != null ==> p.conn != path.conn)
      && (forall s :: s in sessions ==> s.conn != path.conn)
    requires path !in sessions
    modifies if path.Available() then {path, path.conn} else {}
    ensures !path.Available() && path.closed == old(path.closed)
    ensures !old(path.Available()) ==> unchanged(path) && (path.conn != null ==> unchanged(path.conn))
    ensures old(path.Available()) ==> path.taken
    ensures r.Refused? <==> old(path.Available()) && o.refused
    ensures session != null <==> old(path.Available()) && !o.refused && keeps(o)
    ensures session != null ==> fresh(session) && session.Available() && session.conn == path.conn
    ensures session != null ==> session.path == path.path.(evidence := o.evidence)
    ensures old(path.Available()) ==> path.conn.closes == old(path.conn.closes) + if session != null then 0 else 1
    ensures Framed(paths, owners, sessions, path)
  {
    r, session := Advance(path, o, keeps);
  }

  /** What a step over one path leaves as it was. */
  twostate predicate Framed(paths: seq<OwnedConn?>, owners: set<OwnedConn?>, sessions: seq<OwnedConn>, path: OwnedConn)
    reads owners, set p | p in owners && p != null :: p.conn, paths, sessions, set s | s in sessions :: s.conn
  {
    && (forall p :: p in owners && p != null && p != path ==> unchanged(p) && (p.conn != null ==> unchanged(p.conn)))
    && (forall p :: p in paths && p != null && p != path ==> unchanged(p))
    && (forall s :: s in sessions ==> unchanged(s) && (s.conn != null ==> unchanged(s.conn)))
  }

  twostate lemma SteppedPaths(w: Walk, new i: nat, new at: seq<nat>)
    requires i < |w.paths| && w.paths[i] != null
    requires old(Accounted(w.paths, w.owners, i, at)) && old(OthersGone(w.paths, w.owners)) && old(Live(w.sessions))
    requires Framed(w.paths, w.owners, w.sessions, w.paths[i]) && !w.paths[i].Available()
    ensures Attempted(w.paths, w.owners, i) <==> old(w.paths[i].Available())
    ensures OthersGone(w.paths, w.owners) && Live(w.sessions)
  {
    if old(w.paths[i].Available()) && !Attempted(w.paths, w.owners, i) {
      var j := FirstPlace(w.paths, i);
      assert Attempted(w.paths, w.owners, j);
    }
  }

  twostate lemma AccountedSame(w: Walk, new i: nat, new at: seq<nat>)
    requires old(Accounted(w.paths, w.owners, i, at)) && !Attempted(w.paths, w.owners, i)
    requires forall p :: p in w.owners && p != null ==> unchanged(p) && (p.conn != null ==> unchanged(p.conn))
    ensures Accounted(w.paths, w.owners, i + 1, at)
  {
    hide FirstAt;
  }

  twostate lemma SteppedOn(w: Walk, new i: nat, new at: seq<nat>, new session: OwnedConn)
    requires i < |w.paths| && w.paths[i] != null && DistinctConns(w.owners)
    requires old(Accounted(w.paths, w.owners, i, at)) && old(OthersGone(w.paths, w.owners)) && old(Live(w.sessions))
    requires Framed(w.paths, w.owners, w.sessions, w.paths[i]) && forall m :: 0 <= m < |at| ==> at[m] < i
    requires old(w.paths[i].Available()) && w.paths[i].taken
    requires w.paths[i].conn != null && w.paths[i].conn.closes == 0
    requires session.Available() && session.conn == w.paths[i].conn
    requires forall m :: 0 <= m < |w.sessions| ==> w.sessions[m].conn != session.conn
    ensures Accounted(w.paths, w.owners, i + 1, at + [i]) && OthersGone(w.paths, w.owners)
    ensures Live(w.sessions + [session])
  {
    hide Accounted, Attempted, Live, DistinctConns, OthersGone;
    SteppedPaths(w, i, at);
    LiveOn(w.sessions, session);
    AccountedOne(w, i, at, at + [i]);
  }

  twostate lemma SteppedPast(w: Walk, new i: nat, new at: seq<nat>)
    requires i < |w.paths| && w.paths[i] != null && DistinctConns(w.owners)
    requires old(Accounted(w.paths, w.owners, i, at)) && old(OthersGone(w.paths, w.owners)) && old(Live(w.sessions))
    requires Framed(w.paths, w.owners, w.sessions, w.paths[i]) && forall m :: 0 <= m < |at| ==> at[m] < i
    requires !w.paths[i].Available()
    requires !old(w.paths[i].Available()) ==>
      unchanged(w.paths[i]) && (w.paths[i].conn != null ==> unchanged(w.paths[i].conn))
    requires old(w.paths[i].Available()) ==>
      w.paths[i].taken && w.paths[i].conn != null && w.paths[i].conn.closes == 1
    ensures Accounted(w.paths, w.owners, i + 1, at) && OthersGone(w.paths, w.owners) && Live(w.sessions)
  {
    hide Accounted, Attempted, Live, DistinctConns, OthersGone;
    SteppedPaths(w, i, at);
    if Attempted(w.paths, w.owners, i) {
      AccountedOne(w, i, at, at);
    } else {
      AccountedSame(w, i, at);
    }
  }

  lemma CarriesLength(
    paths: seq<OwnedConn?>, owners: set<OwnedConn?>, observed: seq<Observation>, keeps: Observation -> bool, i: nat,
    sessions: seq<OwnedConn>, at: seq<nat>)
    requires Carries(paths, owners, observed, keeps, i, sessions, at)
    ensures |observed| == |paths|
  {
  }

  lemma Apart(paths: seq<OwnedConn?>, owners: set<OwnedConn?>, i: nat)
    requires DistinctConns(owners) && i < |paths| && paths[i] != null
    ensures Attempted(paths, owners, i) ==>
      forall p :: p in owners && p != paths[i] && p != null ==> p.conn != paths[i].conn
  {
  }

  /** The deferred close of a refused step: nothing carried stays open. */
  method Abandon(
    ghost paths: seq<OwnedConn?>, ghost owners: set<OwnedConn?>, ghost observed: seq<Observation>,
    ghost keeps: Observation -> bool, ghost i: nat, sessions: seq<OwnedConn>, ghost at: seq<nat>)
    requires i < |paths| && Carries(paths, owners, observed, keeps, i, sessions, at)
    requires Accounted(paths, owners, i + 1, at) && DistinctConns(owners) && Live(sessions)
    requires forall s :: s in sessions ==> s !in owners
    modifies set s | s in sessions, set s | s in sessions :: s.conn
    ensures Accounted(paths, owners, i + 1, [])
  {
    hide Carries, Accounted, Attempted, Live, DistinctConns, Linear;
    LiveIsLinear(sessions);
    CarriedConns(paths, owners, observed, keeps, i, sessions, at);
    CloseSessions(sessions);
    ClosedEach(sessions);
    AbandonedAll(Walk(paths, owners, sessions), i + 1, at);
  }

  lemma ClosedEach(sessions: seq<OwnedConn>)
    ensures forall m :: 0 <= m < |sessions| ==> sessions[m] in sessions
  {
  }

  /** Every path in turn. On success each path taken over is carried by exactly one new
  session or closed once; on a refusal everything carried so far is closed too, and
  the paths not reached are untouched. */
  method ContinueEach(paths: seq<OwnedConn?>, observed: seq<Observation>, keeps: Observation -> bool)
    returns (r: Result<seq<OwnedConn>>, ghost n: nat, ghost at: seq<nat>)
    requires Linear(paths) && |observed| == |paths|
    modifies Owners(paths), Owned(paths)
    ensures n <= |paths| && Accounted(paths, old(Owners(paths)), n, at)
    ensures r.Ok? ==> n == |paths| && Carries(paths, old(Owners(paths)), observed, keeps, n, r.value, at)
    ensures r.Ok? ==> Live(r.value) && fresh(set s | s in r.value)
    ensures r.Err? ==> at == [] && n > 0 && Attempted(paths, old(Owners(paths)), n - 1) && observed[n - 1].refused
    ensures r.Ok? ==> forall k: nat :: Attempted(paths, old(Owners(paths)), k) ==> !observed[k].refused
  {
    hide Carries, Accounted, Attempted, Live, DistinctConns, OthersGone, Linear;
    ghost var owners, conns := Owners(paths), Owned(paths);
    var sessions: seq<OwnedConn> := [];
    at := [];
    Starts(paths, observed, keeps);
    var i := 0;
    while i < |paths|
      invariant 0 <= i <= |paths|
      invariant Carries(paths, owners, observed, keeps, i, sessions, at)
      invariant Accounted(paths, owners, i, at) && OthersGone(paths, owners) && Live(sessions)
      invariant forall s :: s in sessions ==> fresh(s)
      invariant forall k: nat :: k < i && Attempted(paths, owners, k) ==> !observed[k].refused
      invariant forall p :: p in owners && p != null ==> p.conn in conns
      modifies owners, conns
    {
      AttemptedIsPath(paths, owners, i);
      if paths[i] == null {
        AccountedPast(paths, owners, i, at);
        CarriesPast(paths, owners, observed, keeps, i, sessions, at);
      } else {
        AvailableIsAttempted(paths, owners, i, at);
        InOwned(paths, owners, conns, i);
        var outcome;
        ghost var before := at;
        outcome, sessions, at := StepOver(paths, owners, observed, keeps, i, sessions, at);
        if outcome.Refused? {
          CarriedInConns(paths, owners, observed, keeps, i, sessions, before, conns);
          Abandon(paths, owners, observed, keeps, i, sessions, before);
          return Err(ErrInvalidGraph), i + 1, [];
        }
      }
      i := i + 1;
    }
    AttemptedBounded(paths, owners);
    return Ok(sessions), |paths|, at;
  }

  lemma CarriedInConns(
    paths: seq<OwnedConn?>, owners: set<OwnedConn?>, observed: seq<Observation>, keeps: Observation -> bool, i: nat,
    sessions: seq<OwnedConn>, at: seq<nat>, conns: set<Conn?>)
    requires Carries(paths, owners, observed, keeps, i, sessions, at) && DistinctConns(owners)
    requires forall p :: p in owners && p != null ==> p.conn in conns
    ensures forall s :: s in sessions ==> s.conn in conns
  {
    hide Carries, Attempted, DistinctConns;
    CarriedConns(paths, owners, observed, keeps, i, sessions, at);
    forall s | s in sessions ensures s.conn in conns {
      var m :| 0 <= m < |sessions| && sessions[m] == s;
      AttemptedIsPath(paths, owners, at[m]);
    }
  }

  lemma InOwned(paths: seq<OwnedConn?>, owners: set<OwnedConn?>, conns: set<Conn?>, i: nat)
    requires i < |paths| && (Attempted(paths, owners, i) ==> paths[i] in owners && paths[i] != null)
    requires forall p :: p in owners && p != null ==> p.conn in conns
    ensures Attempted(paths, owners, i) && paths[i] != null ==> paths[i].conn in conns
  {
  }

  lemma AttemptedBounded(paths: seq<OwnedConn?>, owners: set<OwnedConn?>)
    ensures forall k: nat :: Attempted(paths, owners, k) ==> k < |paths|
  {
  }

  lemma Starts(paths: seq<OwnedConn?>, observed: seq<Observation>, keeps: Observation -> bool)
    requires Linear(paths) && |observed| == |paths|
    ensures Carries(paths, Owners(paths), observed, keeps, 0, [], [])
    ensures Accounted(paths, Owners(paths), 0, []) && OthersGone(paths, Owners(paths))
    ensures DistinctConns(Owners(paths)) && Live([])
  {
  }

  /** After a step that succeeded: where a path was available, its connection is held by the
  result and open, or closed once, and which of the two is what the rule says. */
  lemma KeptOrClosed(
    paths: seq<OwnedConn?>, owners: set<OwnedConn?>, observed: seq<Observation>, keeps: Observation -> bool,
    sessions: seq<OwnedConn>, n: nat, at: seq<nat>)
    requires StepResult(paths, owners, observed, keeps, Ok(sessions), n, at)
    ensures forall k :: 0 <= k < |paths| && paths[k] in owners && (forall j :: 0 <= j < k ==> paths[j] != paths[k]) ==>
      && paths[k] != null && paths[k].conn != null && paths[k].taken
      && ((exists i :: 0 <= i < |sessions| && sessions[i].conn == paths[k].conn) <==> keeps(observed[k]))
      && paths[k].conn.closes == if keeps(observed[k]) then 0 else 1
  {
    forall k | 0 <= k < |paths| && paths[k] in owners && (forall j :: 0 <= j < k ==> paths[j] != paths[k])
      ensures paths[k] != null && paths[k].conn != null && paths[k].taken
      ensures (exists i :: 0 <= i < |sessions| && sessions[i].conn == paths[k].conn) <==> keeps(observed[k])
      ensures paths[k].conn.closes == if keeps(observed[k]) then 0 else 1
    {
      assert Attempted(paths, owners, k);
      OneOwnerAfterSuccess(paths, owners, observed, keeps, sessions, n, at, k);
    }
  }

  /** One ApiVersions exchange over every transport path. Whatever the answer's error code,
  a path whose exchange completed keeps its socket; one whose exchange broke is closed. */
  method Run(paths: seq<OwnedConn?>, observed: seq<Observation>)
    returns (r: Result<seq<OwnedConn>>, ghost n: nat, ghost at: seq<nat>)
    requires Linear(paths) && |observed| == |paths|
    modifies Owners(paths), Owned(paths)
    ensures StepResult(paths, old(Owners(paths)), observed, Completed, r, n, at)
    ensures r.Ok? ==> fresh(set s | s in r.value)
    ensures r.Ok? ==> forall k ::
      0 <= k < |paths| && paths[k] in old(Owners(paths)) && (forall j :: 0 <= j < k ==> paths[j] != paths[k]) ==>
        && paths[k] != null && paths[k].conn != null && paths[k].taken
        && ((exists i :: 0 <= i < |r.value| && r.value[i].conn == paths[k].conn) <==> !observed[k].broken)
        && paths[k].conn.closes == if observed[k].broken then 1 else 0
  {
    ghost var owners := Owners(paths);
    r, n, at := ContinueEach(paths, observed, Completed);
    if r.Ok? {
      KeptOrClosed(paths, owners, observed, Completed, r.value, n, at);
    }
  }

  /** One SaslHandshake exchange over every session. A session is kept exactly when the
  exchange completed and its error code is zero; every other one is closed. */
  method SASLHandshake(sessions: seq<OwnedConn?>, observed: seq<Observation>)
    returns (r: Result<seq<OwnedConn>>, ghost n: nat, ghost at: seq<nat>)
    requires Linear(sessions) && |observed| == |sessions|
    modifies Owners(sessions), Owned(sessions)
    ensures StepResult(sessions, old(Owners(sessions)), observed, Accepted, r, n, at)
    ensures r.Ok? ==> fresh(set s | s in r.value)
    ensures r.Ok? ==> forall k ::
      0 <= k < |sessions| && sessions[k] in old(Owners(sessions))
      && (forall j :: 0 <= j < k ==> sessions[j] != sessions[k]) ==>
        && sessions[k] != null && sessions[k].conn != null && sessions[k].taken
        && ((exists i :: 0 <= i < |r.value| && r.value[i].conn == sessions[k].conn) <==>
          !observed[k].broken && observed[k].errorCode == 0)
        && sessions[k].conn.closes == if !observed[k].broken && observed[k].errorCode == 0 then 0 else 1
  {
    ghost var owners := Owners(sessions);
    r, n, at := ContinueEach(sessions, observed, Accepted);
    if r.Ok? {
      KeptOrClosed(sessions, owners, observed, Accepted, r.value, n, at);
    }
  }

  /** Either every path was taken and the result carries the kept ones, or a path was
  refused: nothing is carried, and the paths after it are untouched. */
  ghost predicate StepResult(
    paths: seq<OwnedConn?>, owners: set<OwnedConn?>, observed: seq<Observation>, keeps: Observation -> bool,
    r: Result<seq<OwnedConn>>, n: nat, at: seq<nat>)
    reads owners, set p | p in owners && p != null :: p.conn
    reads if r.Ok? then set s | s in r.value else {}
    reads if r.Ok? then set s | s in r.value :: s.conn else {}
  {
    && DistinctConns(owners) && n <= |paths| == |observed| && Accounted(paths, owners, n, at)
    && if r.Ok? then
         && n == |paths| && Carries(paths, owners, observed, keeps, n, r.value, at) && Live(r.value)
         && forall k: nat :: Attempted(paths, owners, k) ==> !observed[k].refused
       else at == [] && n > 0 && Attempted(paths, owners, n - 1) && observed[n - 1].refused
  }

  /** Exactly one place per connection after a step that succeeded: held by exactly one
  session of the result and open, or held by none and closed once. */
  lemma OneOwnerAfterSuccess(
    paths: seq<OwnedConn?>, owners: set<OwnedConn?>, observed: seq<Observation>, keeps: Observation -> bool,
    sessions: seq<OwnedConn>, n: nat, at: seq<nat>, k: nat)
    requires StepResult(paths, owners, observed, keeps, Ok(sessions), n, at) && Attempted(paths, owners, k)
    ensures !paths[k].Available() && paths[k].conn != null
    ensures (exists i :: 0 <= i < |sessions| && sessions[i].conn == paths[k].conn) <==> keeps(observed[k])
    ensures forall i, j :: 0 <= i < j < |sessions| ==> !(sessions[i].conn == paths[k].conn == sessions[j].conn)
    ensures paths[k].conn.closes == if keeps(observed[k]) then 0 else 1
  {
    assert k < |paths|;
    if keeps(observed[k]) {
      assert k in at;
      var i :| 0 <= i < |at| && at[i] == k;
      assert sessions[i].conn == paths[k].conn;
    } else {
      assert k !in at;
      forall i | 0 <= i < |sessions| ensures sessions[i].conn != paths[k].conn {
        assert at[i] in at && at[i] != k;
        if at[i] < k {
          DifferentPaths(paths, owners, at[i], k);
        } else {
          DifferentPaths(paths, owners, k, at[i]);
        }
      }
    }
  }

  /** After a step that was refused no connection leaks: each is closed once, or still
  available at the path the step never reached. */
  lemma NoLeakAfterRefusal(
    paths: seq<OwnedConn?>, owners: set<OwnedConn?>, observed: seq<Observation>, keeps: Observation -> bool,
    e: Error, n: nat, at: seq<nat>, k: nat)
    requires StepResult(paths, owners, observed, keeps, Err(e), n, at) && Attempted(paths, owners, k)
    ensures paths[k].conn != null
    ensures paths[k].Available() <==> n <= k
    ensures paths[k].conn.closes == if k < n then 1 else 0
  {
  }

  // ---- the steps after mechanism discovery ----

  /** How authentication ended: it could not be run or recorded, it was recorded and did
  not pass, or it was accepted and recorded as a node. */
  datatype AuthAttempt = AuthFault | NotAccepted | AcceptedAs(evidence: string)

  /** Authentication consumes its session in every outcome, and only an accepted
  credential keeps the connection open. */
  method Authenticate(session: OwnedConn?, attempt: AuthAttempt) returns (r: Result<Option<OwnedConn>>)
    modifies if session != null && session.Available() then {session, session.conn} else {}
    ensures session != null ==> !session.Available()
    ensures r.Err? <==> session == null || !old(session.Available()) || attempt.AuthFault?
    ensures r.Ok? && r.value.Some? <==> session != null && old(session.Available()) && attempt.AcceptedAs?
    ensures session != null && old(session.Available()) ==> session.taken && session.closed == old(session.closed)
    ensures session != null && old(session.Available()) ==>
      session.conn.closes == old(session.conn.closes) + if attempt.AcceptedAs? then 0 else 1
    ensures r.Ok? && r.value.Some? ==>
      && fresh(r.value.value) && r.value.value.Available() && r.value.value.conn == session.conn
      && r.value.value.path == session.path.(evidence := attempt.evidence)
  {
    if session == null {
      return Err(ErrInvalidInput);
    }
    var conn := session.TakeConn();
    if conn == null {
      return Err(ErrInvalidInput);
    }
    var transferred := false;
    match attempt {
      case AuthFault => r := Err(ErrInvalidGraph);
      case NotAccepted => r := Ok(None);
      case AcceptedAs(evidence) =>
        var next := new OwnedConn(conn, session.path.(evidence := evidence));
        r := Ok(Some(next));
        transferred := true;
    }
    if !transferred {
      conn.Close();
    }
  }

  /** Metadata hands back the connection it took only when the exchange completed and
  everything it advertised was recorded; otherwise the deferred close releases it. */
  method Metadata(session: OwnedConn?, o: Observation, recorded: bool) returns (r: Result<Option<OwnedConn>>)
    modifies if session != null && session.Available() then {session, session.conn} else {}
    ensures session != null ==> !session.Available()
    ensures r.Err? <==> session == null || !old(session.Available()) || o.refused || (!o.broken && !recorded)
    ensures r.Ok? && r.value.Some? <==>
      session != null && old(session.Available()) && !o.refused && !o.broken && recorded
    ensures session != null && old(session.Available()) ==> session.taken
    ensures session != null && old(session.Available()) ==>
      session.conn.closes == old(session.conn.closes) + if r.Ok? && r.value.Some? then 0 else 1
    ensures r.Ok? && r.value.Some? ==>
      && fresh(r.value.value) && r.value.value.Available() && r.value.value.conn == session.conn
      && r.value.value.path == session.path
  {
    if session == null {
      return Err(ErrInvalidInput);
    }
    var conn := session.TakeConn();
    if conn == null {
      return Err(ErrInvalidInput);
    }
    var transferred := false;
    if o.refused {
      r := Err(ErrInvalidGraph);
    } else if o.broken {
      r := Ok(None);
    } else if !recorded {
      r := Err(ErrInvalidGraph);
    } else {
      var next := new OwnedConn(conn, session.path);
      r := Ok(Some(next));
      transferred := true;
    }
    if !transferred {
      conn.Close();
    }
  }

  function Candidates(sessions: seq<OwnedConn>): (r: seq<Candidate<string>>)
    ensures |r| == |sessions| && forall i :: 0 <= i < |r| ==> r[i] == Candidate(sessions[i].path.address, true)
  {
    seq(|sessions|, i requires 0 <= i < |sessions| => Candidate(sessions[i].path.address, true))
  }

  /** How describing the cluster went: the exchange, whether what it advertised was
  recorded, and whether measuring that was refused. */
  datatype Description = Description(exchange: Observation, recorded: bool, measured: bool)

  /** Whatever happens, the connection the description was asked over ends closed. */
  method DescribeTopology(session: OwnedConn, d: Description) returns (r: Outcome)
    requires session.Available()
    modifies session, session.conn
    ensures !session.Available() && session.taken
    ensures session.conn.closes == old(session.conn.closes) + 1
    ensures r.Refused? <==> d.exchange.refused || (!d.exchange.broken && !(d.recorded && d.measured))
  {
    var topology := Metadata(session, d.exchange, d.recorded);
    if topology.Err? {
      return Refused(topology.error);
    }
    if topology.value.None? {
      return Done;
    }
    r := if d.measured then Done else Refused(ErrInvalidInput);
    topology.value.value.Close();
  }

  /** The session with the least address, the first of them when several have it. */
  method SelectBootstrapPath(sessions: seq<OwnedConn>, compare: (string, string) -> int) returns (chosen: int)
    requires TotalPreorder(compare)
    ensures chosen == -1 <==> sessions == []
    ensures chosen != -1 ==>
      && 0 <= chosen < |sessions|
      && forall i :: 0 <= i < |sessions| ==>
        && compare(sessions[chosen].path.address, sessions[i].path.address) <= 0
        && (i < chosen ==> compare(sessions[chosen].path.address, sessions[i].path.address) < 0)
  {
    hide TotalPreorder, IsMinimum;
    var candidates := Candidates(sessions);
    assert sessions != [] ==> candidates[0] in candidates;
    chosen := CanonicalMinimum(candidates, (c: Candidate<string>) => true, compare);
  }

  /** At most one session meets the credential, the one with the least address. In every
  outcome, errors included, each connection ends closed exactly once. */
  method ContinueOneBootstrapPath(
    sessions: seq<OwnedConn>, compare: (string, string) -> int, contextDone: bool, attempt: AuthAttempt, d: Description)
    returns (chosen: int, r: Outcome)
    requires Live(sessions) && TotalPreorder(compare)
    modifies set s | s in sessions, set s | s in sessions :: s.conn
    ensures chosen == -1 <==> sessions == []
    ensures chosen != -1 ==>
      && 0 <= chosen < |sessions|
      && forall i :: 0 <= i < |sessions| ==>
        && compare(sessions[chosen].path.address, sessions[i].path.address) <= 0
        && (i < chosen ==> compare(sessions[chosen].path.address, sessions[i].path.address) < 0)
    ensures forall i :: 0 <= i < |sessions| ==> !sessions[i].Available()
    ensures forall i :: 0 <= i < |sessions| ==> (sessions[i].taken <==> i == chosen && !contextDone)
    ensures forall i :: 0 <= i < |sessions| ==> sessions[i].conn != null && sessions[i].conn.closes == 1
    ensures r.Refused? <==>
      && chosen != -1 && !contextDone
      && (|| attempt.AuthFault?
          || (attempt.AcceptedAs? && d.exchange.refused)
          || (attempt.AcceptedAs? && !d.exchange.broken && !(d.recorded && d.measured)))
  {
    hide TotalPreorder;
    chosen := SelectBootstrapPath(sessions, compare);
    CloseOthers(sessions, chosen);
    if chosen == -1 {
      return chosen, Done;
    }
    if contextDone {
      sessions[chosen].Close();
      return chosen, Done;
    }
    var auth := Authenticate(sessions[chosen], attempt);
    if auth.Err? {
      return chosen, Refused(auth.error);
    }
    if auth.value.None? {
      return chosen, Done;
    }
    r := DescribeTopology(auth.value.value, d);
    auth.value.value.Close();
  }

  method CloseOthers(sessions: seq<OwnedConn>, chosen: int)
    requires Live(sessions)
    modifies set s | s in sessions, set s | s in sessions :: s.conn
    ensures forall k :: 0 <= k < |sessions| ==> !sessions[k].taken && sessions[k].closed == (k != chosen)
    ensures forall k :: 0 <= k < |sessions| ==> sessions[k].conn != null
    ensures forall k :: 0 <= k < |sessions| ==> sessions[k].conn.closes == if k != chosen then 1 else 0
    ensures forall j, k :: 0 <= j < k < |sessions| ==>
      sessions[j] != sessions[k] && sessions[j].conn != sessions[k].conn
  {
    var i := 0;
    while i < |sessions|
      invariant 0 <= i <= |sessions|
      invariant forall k :: 0 <= k < |sessions| ==> !sessions[k].taken && sessions[k].conn != null
      invariant forall k :: 0 <= k < |sessions| ==> sessions[k].closed == (k < i && k != chosen)
      invariant forall k :: 0 <= k < |sessions| ==> sessions[k].conn.closes == if k < i && k != chosen then 1 else 0
    {
      if i != chosen {
        assert sessions[i] in sessions;
        sessions[i].Close();
      }
      i := i + 1;
    }
  }
}
