/** The session table of one profile: who is connected, under which node name and under which
    authenticated identity. */
module Hub {
  import opened MediatorSpec
  import opened Formats
  import opened Listing

  type Identity = string

  datatype AuthMode = MTLS | JWT

  /** One connection. Sessions are compared by pointer, which the serial number stands for. */
  datatype Session = Session(serial: nat, node: NodeId, identity: Identity, mode: AuthMode)

  datatype Op = Register(session: Session) | Unregister(session: Session)

  /** The two indexes, the sessions that hold a reference to the hub, the displaced sessions
      whose connections are being closed, and the disconnects signalled to the mediator. */
  datatype Table = Table(
    sessions: map<NodeId, Session>,
    byIdentity: map<Identity, Session>,
    joined: set<Session>,
    displaced: seq<Session>,
    disconnects: seq<NodeId>)

  const EMPTY := Table(map[], map[], {}, [], [])

  /** In mTLS mode the profile lists the identities it admits. */
  predicate Admits(allowed: set<Identity>, s: Session) {
    s.mode == JWT || s.identity in allowed
  }

  function Without<K, V(==)>(m: map<K, V>, k: K, v: V): map<K, V> {
    if k in m && m[k] == v then m - {k} else m
  }

  function Step(allowed: set<Identity>, t: Table, op: Op): Table {
    var s := op.session;
    match op
    case Register(_) =>
      if !Admits(allowed, s) then t
      else t.(sessions := t.sessions[s.node := s],
              byIdentity := t.byIdentity[s.identity := s],
              joined := t.joined + {s},
              displaced := if s.identity in t.byIdentity then t.displaced + [t.byIdentity[s.identity]] else t.displaced)
    case Unregister(_) =>
      if s !in t.joined then t
      else t.(sessions := Without(t.sessions, s.node, s),
              byIdentity := Without(t.byIdentity, s.identity, s),
              disconnects := if s.node in t.sessions && t.sessions[s.node] == s then t.disconnects + [s.node]
                  else t.disconnects)
  }

  function Run(allowed: set<Identity>, ops: seq<Op>): Table {
    if ops == [] then EMPTY
    else Step(allowed, Run(allowed, ops[..|ops| - 1]), ops[|ops| - 1])
  }

  class ProfileHub {
    const allowed: set<Identity>
    var sessions: map<NodeId, Session>
    var sessionsByIdentity: map<Identity, Session>
    var joined: set<Session>
    var displaced: seq<Session>
    var disconnects: seq<NodeId>

    ghost function Contents(): Table
      reads this
    {
      Table(sessions, sessionsByIdentity, joined, displaced, disconnects)
    }

    ghost predicate Valid()
      reads this
    {
      forall n <- sessions :: sessions[n].node == n
    }

    constructor (allowed: set<Identity>)
      ensures Valid() && Contents() == EMPTY && this.allowed == allowed
    {
      this.allowed := allowed;
      sessions, sessionsByIdentity, joined, displaced, disconnects := map[], map[], {}, [], [];
    }

    method Register(s: Session) returns (ok: bool)
      requires Valid()
      modifies this
      ensures Valid() && ok == (s.mode == JWT || s.identity in allowed)
      ensures Contents() == Step(allowed, old(Contents()), Op.Register(s))
    {
      if s.mode == MTLS && s.identity !in allowed { return false; }
      var prior: Option<Session> := None;
      if s.identity in sessionsByIdentity { prior := Some(sessionsByIdentity[s.identity]); }
      sessions := sessions[s.node := s];
      sessionsByIdentity := sessionsByIdentity[s.identity := s];
      joined := joined + {s};
      if prior.Some? { displaced := displaced + [prior.value]; }
      return true;
    }

    /** May be called any number of times, and for sessions that were displaced. */
    method Unregister(s: Session)
      requires Valid()
      modifies this
      ensures Valid()
      ensures Contents() == Step(allowed, old(Contents()), Op.Unregister(s))
    {
      if s !in joined { return; }
      var removedCurrent := false;
      if s.node in sessions && sessions[s.node] == s {
        sessions := sessions - {s.node};
        removedCurrent := true;
      }
      if s.identity in sessionsByIdentity && sessionsByIdentity[s.identity] == s {
        sessionsByIdentity := sessionsByIdentity - {s.identity};
      }
      if removedCurrent { disconnects := disconnects + [s.node]; }
    }

    method SnapshotNodeIDs() returns (ids: seq<NodeId>)
      requires Valid()
      ensures ids == Sorted(sessions.Keys)
    {
      var names := set n | n in sessions :: sessions[n].node;
      assert names == sessions.Keys by {
        forall n | n in sessions
          ensures n in names
        {
          assert sessions[n].node == n;
        }
      }
      ids := SortNames(names);
    }
  }

  // -------------------------------------------------------------- what it means

  /** The handshake admits a hello only if it names the authenticated identity. */
  predicate Authenticated(ops: seq<Op>) {
    forall op <- ops :: op.session.identity == op.session.node
  }

  /** The node's last admitted registration is the one at `i`, and that session has not been
      unregistered since. */
  ghost predicate LastRegistration(allowed: set<Identity>, ops: seq<Op>, i: nat, s: Session) {
    && i < |ops| && ops[i] == Op.Register(s) && Admits(allowed, s)
    && (forall j | i < j < |ops| && ops[j].Register? && Admits(allowed, ops[j].session) ::
        ops[j].session.node != s.node)
    && (forall j | i < j < |ops| :: ops[j] != Op.Unregister(s))
  }

  ghost predicate IsCurrent(allowed: set<Identity>, ops: seq<Op>, s: Session) {
    exists i: nat :: LastRegistration(allowed, ops, i, s)
  }

  /** In mTLS mode only listed identities ever get in, neither by name nor by identity. */
  lemma {:induction false} OnlyListedGetIn(allowed: set<Identity>, ops: seq<Op>)
    ensures var t := Run(allowed, ops);
            && (forall n <- t.sessions | t.sessions[n].mode == MTLS :: t.sessions[n].identity in allowed)
            && (forall id <- t.byIdentity | t.byIdentity[id].mode == MTLS :: t.byIdentity[id].identity in allowed)
            && (forall s <- t.joined | s.mode == MTLS :: s.identity in allowed)
    decreases |ops|
  {
    if ops != [] { OnlyListedGetIn(allowed, ops[..|ops| - 1]); }
  }

  /** A session with a JWT, or with a listed identity, always gets in and is the node's entry
      then; any other leaves the table as it was. */
  lemma RegisteringExactly(allowed: set<Identity>, ops: seq<Op>, s: Session)
    ensures var t, t' := Run(allowed, ops), Run(allowed, ops + [Op.Register(s)]);
            if s.mode == JWT || s.identity in allowed
            then s.node in t'.sessions && t'.sessions[s.node] == s
                 && s.identity in t'.byIdentity && t'.byIdentity[s.identity] == s && s in t'.joined
            else t' == t
  {
    var all := ops + [Op.Register(s)];
    assert all[..|ops|] == ops && all[|ops|] == Op.Register(s);
  }

  /** What one more operation does to who is current. */
  lemma CurrentAfter(allowed: set<Identity>, ops: seq<Op>, op: Op, s: Session)
    ensures IsCurrent(allowed, ops + [op], s) <==>
              if op.Register? && Admits(allowed, op.session) && op.session.node == s.node then op.session == s
              else IsCurrent(allowed, ops, s) && op != Op.Unregister(s)
  {
    var all := ops + [op];
    if op == Op.Register(s) && Admits(allowed, s) {
      assert LastRegistration(allowed, all, |ops|, s);
    }
    if IsCurrent(allowed, ops, s) && !(op.Register? && Admits(allowed, op.session) && op.session.node == s.node)
        && op != Op.Unregister(s) {
      var i: nat :| LastRegistration(allowed, ops, i, s);
      assert LastRegistration(allowed, all, i, s);
    }
    if IsCurrent(allowed, all, s) {
      var i: nat :| LastRegistration(allowed, all, i, s);
      assert all[|ops|] == op;
      if i < |ops| {
        assert forall j | 0 <= j < |ops| :: all[j] == ops[j];
        assert LastRegistration(allowed, ops, i, s);
      }
    }
  }

  /** For every interleaving of registrations and (late, repeated) unregistrations, the entry
      of a node is its last registered session while that one has not unregistered, and the
      two indexes are equal. */
  lemma {:induction false} TableHoldsCurrent(allowed: set<Identity>, ops: seq<Op>)
    requires Authenticated(ops)
    ensures var t := Run(allowed, ops);
            && t.byIdentity == t.sessions
            && (forall n <- t.sessions :: t.sessions[n].node == n)
            && (forall s: Session :: IsCurrent(allowed, ops, s) <==> s.node in t.sessions && t.sessions[s.node] == s)
            && (forall s: Session | IsCurrent(allowed, ops, s) :: s in t.joined)
    decreases |ops|
  {
    if ops != [] {
      var init, op := ops[..|ops| - 1], ops[|ops| - 1];
      assert ops == init + [op];
      TableHoldsCurrent(allowed, init);
      var t0, t := Run(allowed, init), Run(allowed, ops);
      assert op.session.identity == op.session.node;
      forall s: Session
        ensures IsCurrent(allowed, ops, s) <==> s.node in t.sessions && t.sessions[s.node] == s
        ensures IsCurrent(allowed, ops, s) ==> s in t.joined
      {
        CurrentAfter(allowed, init, op, s);
      }
    }
  }

  /** A disconnect is signalled exactly when the current session of a node leaves, and a
      session is displaced exactly when another one takes its place. */
  lemma SignalsMatchTable(allowed: set<Identity>, ops: seq<Op>, op: Op)
    requires Authenticated(ops + [op])
    ensures var t, t' := Run(allowed, ops), Run(allowed, ops + [op]);
            var s := op.session;
            && t'.disconnects == (if op.Unregister? && IsCurrent(allowed, ops, s) then t.disconnects + [s.node]
                                  else t.disconnects)
            && (op.Unregister? && IsCurrent(allowed, ops, s) ==> s.node !in t'.sessions)
            && (op.Register? && Admits(allowed, s) ==>
                  if s.node in t.sessions
                    then t'.displaced == t.displaced + [t.sessions[s.node]]
                        && IsCurrent(allowed, ops, t.sessions[s.node])
                  else t'.displaced == t.displaced)
            && (!(op.Register? && Admits(allowed, s)) ==> t'.displaced == t.displaced)
  {
    assert forall o <- ops :: o in ops + [op];
    TableHoldsCurrent(allowed, ops);
    assert (ops + [op])[..|ops|] == ops;
    assert op in ops + [op];
  }
}
