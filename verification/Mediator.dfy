/** The mediator: one actor per profile, proved to take only the steps of `MediatorSpec`. */
module MediatorActor {
  import opened Formats
  import opened Listing
  import opened MediatorSpec
  import opened MediatorRuns
  import opened MediatorJournal

  /** What the actor reads and writes outside its own state. Its answers are arbitrary,
      except that the clock never runs backwards; it keeps account of what it was asked. */
  class World {
    var now: Time
    ghost var done: multiset<Effect>

    constructor ()
      ensures done == multiset{}
    {
      now, done := 0, multiset{};
    }

    method Now() returns (t: Time)
      modifies this`now
      ensures old(now) <= t == now
    {
      t :| now <= t;
      now := t;
    }

    /** The nodes with a registered session when the hub is asked. */
    method Registered() returns (nodes: set<NodeId>)
      modifies this`done
      ensures done == old(done) + multiset{Answered(nodes)}
    {
      nodes := *;
      done := done + multiset{Answered(nodes)};
    }

    /** Hands a push to the node's connection; whether that succeeded. */
    method Send(n: NodeId, push: Push) returns (ok: bool)
      modifies this`done
      ensures done == old(done) + multiset{Tried(n, push)} + if ok then multiset{Sent(n, push)} else multiset{}
    {
      ok := *;
      done := done + multiset{Tried(n, push)} + if ok then multiset{Sent(n, push)} else multiset{};
    }

    method Notify(notice: Event)
      modifies this`done
      ensures done == old(done) + multiset{Notified(notice)}
    {
      done := done + multiset{Notified(notice)};
    }
  }

  class Mediator {
    const profile: Profile
    const world: World
    var candidates: map<NodeId, Candidate>
    var truths: map<Account, Truth>
    var mirror: map<Account, Mirrored>
    /** What the actor did and announced, for each account. */
    ghost var history: map<Account, seq<Event>>

    constructor (profile: Profile, world: World)
      ensures this.profile == profile && this.world == world
      ensures Init(Now())
    {
      this.profile, this.world := profile, world;
      candidates, truths, mirror, history := map[], map[], map[], map[];
    }

    /** The state as of now. */
    ghost function Now(): State
      reads this, world
    {
      State(candidates, truths, mirror, history, world.now)
    }

    function TruthOf(a: Account): Option<Truth>
      reads this`truths
    {
      if a in truths then Some(truths[a]) else None
    }

    ghost function EventsOf(a: Account): seq<Event>
      reads this`history
    {
      if a in history then history[a] else []
    }

    /** The event loop, for the messages its four channels yield, in the order they yield them. */
    method Run(messages: seq<Message>) returns (ghost states: seq<State>)
      requires Init(Now()) && world.done == multiset{}
      modifies this, world
      ensures IsRun(profile, states, messages) && states[|messages|] == Now()
      ensures Accounted(history, world.done)
    {
      states := [Now()];
      for i := 0 to |messages|
        invariant IsRun(profile, states, messages[..i]) && states[i] == Now()
        invariant Accounted(history, world.done)
      {
        Handle(messages[i]);
        assert messages[..i + 1] == messages[..i] + [messages[i]];
        RunExtends(profile, states, messages[..i], messages[i], Now());
        states := states + [Now()];
      }
      assert messages[..|messages|] == messages;
    }

    // ------------------------------------------------------------- messages

    method Handle(m: Message)
      requires Accounted(history, world.done)
      modifies this, world
      ensures Next(profile, old(Now()), m, Now())
      ensures Accounted(history, world.done)
    {
      match m
      case Report(_, _, _, _, _, _) => OnReport(m);
      case Absent(_, _) => OnAbsent(m);
      case Ack(_, _, _, _) => OnAck(m);
      case Disconnect(_) => OnDisconnect(m);
    }

    method OnReport(m: Message)
      requires m.Report? && Accounted(history, world.done)
      modifies this, world
      ensures Next(profile, old(Now()), m, Now())
      ensures Accounted(history, world.done)
    {
      if m.rawB64 == Garbled || m.rawB64 == Text([]) {
        return;
      }
      var raw := Decoded(m.rawB64).value;
      var parsed := profile.parse(raw);
      if parsed.None? {
        candidates := candidates[m.node := Rejected(m)];
        return;
      }
      var snap := Snapshot(parsed.value, raw);
      var t := world.Now();
      var status := ReportedStatus(Validate(profile.format, snap, t), m.liveCheck);
      candidates := candidates[m.node := Reported(m, snap, status)];
      label validated:
      Reselect(m.format);
      ReselectFrom(profile, m.format, candidates, old(Now()), old@validated(Now()), Now());
      assert ValidatedAt(profile, old(Now()), m, snap, Now(), t);
    }

    method OnAbsent(m: Message)
      requires m.Absent? && Accounted(history, world.done)
      modifies this, world
      ensures Next(profile, old(Now()), m, Now())
      ensures Accounted(history, world.done)
    {
      candidates := candidates[m.node := Missing(m.account)];
      label stored:
      Reselect(profile.formatName);
      ReselectFrom(profile, profile.formatName, candidates, old(Now()), old@stored(Now()), Now());
    }

    method OnAck(m: Message)
      requires m.Ack?
      modifies this`candidates
      ensures Next(profile, old(Now()), m, Now())
    {
      if m.node !in candidates {
        candidates := candidates[m.node := Missing(m.account)];
      }
      if m.ok {
        candidates := candidates[m.node := candidates[m.node].(lastApplied := m.fingerprint)];
      }
      assert candidates == old(candidates)[m.node := AckedCandidate(old(candidates), m)];
    }

    method OnDisconnect(m: Message)
      requires m.Disconnect? && Accounted(history, world.done)
      modifies this, world
      ensures Next(profile, old(Now()), m, Now())
      ensures Accounted(history, world.done)
    {
      candidates := candidates - {m.node};
      label removed:
      Reselect(profile.formatName);
      ReselectFrom(profile, profile.formatName, candidates, old(Now()), old@removed(Now()), Now());
    }

    // ------------------------------------------------------------- reselect

    method Reselect(formatName: string)
      requires Accounted(history, world.done)
      modifies this`truths, this`history, this`mirror, world
      ensures MediatorSpec.Reselect(profile, formatName, candidates, old(Now()), Now())
      ensures Accounted(history, world.done)
    {
      ghost var s0 := Now();
      var byAccount := BucketViable();
      DropLost(byAccount.Keys);
      DroppedFirst(profile, formatName, s0, Now(), byAccount.Keys);
      SelectAll(byAccount, formatName, s0);
      ghost var s1 := Now();
      UpdateMirror();
      AllReconciled(profile, formatName, s0, s1, Now());
    }

    /** Runs the selections, in the order the map yields the accounts. */
    method SelectAll(byAccount: map<Account, seq<NodeId>>, formatName: string, ghost s0: State)
      requires forall a <- byAccount :: byAccount[a] != [] && forall n ::
               n in byAccount[a] <==> n in ViableNodes(candidates, a)
      requires Halfway(profile, formatName, s0, Now(), byAccount.Keys) && Accounted(history, world.done)
      modifies this`truths, this`history, world
      ensures Halfway(profile, formatName, s0, Now(), {}) && Accounted(history, world.done)
    {
      var todo := byAccount.Keys;
      while todo != {}
        invariant todo <= byAccount.Keys
        invariant Halfway(profile, formatName, s0, Now(), todo)
        invariant Accounted(history, world.done)
        decreases todo
      {
        var a :| a in todo;
        ghost var s1, done := Now(), world.done;
        ghost var events := SelectTruth(a, byAccount[a], formatName);
        StaysAccounted(s1.history, history, a, events, done);
        OneMore(profile, formatName, s0, s1, Now(), todo, a, events);
        todo := todo - {a};
      }
    }

    /** Groups the viable candidates by account, in the order the map yields them. */
    method BucketViable() returns (byAccount: map<Account, seq<NodeId>>)
      ensures forall a: Account :: a in byAccount <==> ViableNodes(candidates, a) != {}
      ensures forall a <- byAccount :: byAccount[a] != [] && forall n ::
              n in byAccount[a] <==> n in ViableNodes(candidates, a)
    {
      byAccount := map[];
      var todo := candidates.Keys;
      while todo != {}
        invariant todo <= candidates.Keys
        invariant forall a <- byAccount :: byAccount[a] != []
        invariant forall a <- byAccount, n <- byAccount[a] :: n !in todo && n in ViableNodes(candidates, a)
        invariant forall n <- candidates | n !in todo && IsViable(candidates[n]) ::
                    candidates[n].account in byAccount && n in byAccount[candidates[n].account]
        decreases todo
      {
        var n :| n in todo;
        todo := todo - {n};
        var c := candidates[n];
        if IsViable(c) {
          var bucket := if c.account in byAccount then byAccount[c.account] else [];
          byAccount := byAccount[c.account := bucket + [n]];
        }
      }
      forall a: Account
        ensures a in byAccount <==> ViableNodes(candidates, a) != {}
      {
        if a in byAccount {
          assert byAccount[a][0] in ViableNodes(candidates, a);
        }
        if n :| n in ViableNodes(candidates, a) {
          assert candidates[n].account in byAccount;
        }
      }
    }

    /** Drops the truths of accounts without a viable candidate, in sorted order. */
    method DropLost(viable: set<Account>)
      requires Accounted(history, world.done)
      modifies this`truths, this`history, world`done
      ensures DroppedAllBut(profile, old(Now()), Now(), viable)
      ensures Accounted(history, world.done)
    {
      ghost var s0 := Now();
      var lost := SortNames(truths.Keys - viable);
      PendingEnds(viable, lost, truths.Keys);
      NothingDropped(profile, s0, Pending(viable, lost, 0));
      for i := 0 to |lost|
        invariant DroppedAllBut(profile, s0, Now(), Pending(viable, lost, i))
        invariant Accounted(history, world.done)
      {
        var a := lost[i];
        PendingNext(viable, lost, i, s0.truths.Keys);
        ghost var s1, done := Now(), world.done;
        StillHeld(profile, s0, s1, Pending(viable, lost, i), a);
        Lose(a);
        ghost var events := Losses(profile, candidates, a, s1.TruthOf(a));
        HappenedGrows(s1.history, done, a, events, history, world.done);
        StaysAccounted(s1.history, history, a, events, done);
        DropOne(profile, s0, s1, Now(), Pending(viable, lost, i), a);
      }
    }

    method Lose(a: Account)
      requires a in truths
      modifies this`truths, this`history, world`done
      ensures truths == old(truths) - {a}
      ensures Happened(old(history), old(world.done), a, Losses(profile, candidates, a, old(TruthOf(a))),
                       history, world.done)
    {
      var prev := truths[a];
      truths := truths - {a};
      var nodes := SortNames(InAccount(candidates, a));
      var notice := LostNotice(prev, nodes);
      RecordedPair(world.done, Lost(prev), notice);
      if profile.notifies { world.Notify(notice); }
      Emit(a, [Lost(prev)] + if profile.notifies then [notice] else []);
    }

    /** Runs the selection for one account and pushes the result to the nodes that need it. */
    method SelectTruth(a: Account, viable: seq<NodeId>, formatName: string) returns (ghost events: seq<Event>)
      requires viable != [] && forall n :: n in viable <==> n in ViableNodes(candidates, a)
      modifies this`truths, this`history, world
      ensures old(world.now) <= world.now
      ensures Elsewhere(old(Now()), Now(), a)
      ensures EventsOf(a) == old(EventsOf(a)) + events
      ensures Grows(old(history), history, a, events) && world.done == Recorded(old(world.done), events)
      ensures Reconciled(profile, candidates, formatName, old(world.now), world.now, a, old(TruthOf(a)), TruthOf(a),
                         events)
    {
      ghost var lo := world.now;
      var source := Best(a, viable);
      var prev := TruthOf(a);
      var held, since := CoolsDown(prev, candidates[source]);
      if held {
        HeldBack(profile, candidates, formatName, lo, world.now, a, prev, source, since);
        return [];
      }
      var t := Renew(a, source, prev, formatName);
      ghost var now := world.now;
      var registered, sent;
      registered, sent, events := Propagate(a, t, source, prev);
      HappenedGrows(old(history), old(world.done), a, events, history, world.done);
      OnlyHere(old(Now()), Now(), a, events);
      GoesThrough(profile, candidates, formatName, lo, world.now, a, prev, t,
                  Choice(source, since, now, registered, sent));
    }

    /** Whether a cooldown holds back the change to the best candidate. */
    method CoolsDown(prev: Option<Truth>, best: Candidate) returns (held: bool, ghost since: Time)
      modifies world`now
      ensures old(world.now) <= since <= world.now
      ensures held == Suppressed(profile, prev, best, since)
    {
      held, since := false, world.now;
      if Changes(prev, best) && prev.Some? && profile.cooldown > 0 {
        var now := world.Now();
        held, since := now - prev.value.pushedAt < profile.cooldown, now;
      }
    }

    /** Makes the best candidate the truth, unless it is already. */
    method Renew(a: Account, source: NodeId, prev: Option<Truth>, formatName: string) returns (t: Truth)
      requires source in candidates && candidates[source].snap.Some? && prev == TruthOf(a)
      modifies this`truths, world`now
      ensures old(world.now) <= world.now
      ensures t == if Changes(prev, candidates[source]) then NewTruth(a, formatName, candidates[source], world.now)
                   else prev.value
      ensures truths == old(truths)[a := t]
    {
      if Changes(prev, candidates[source]) {
        var now := world.Now();
        t := NewTruth(a, formatName, candidates[source], now);
        truths := truths[a := t];
      } else {
        t := prev.value;
      }
    }

    /** Announces the truth if it is new, and pushes it in any case. */
    method Propagate(a: Account, t: Truth, source: NodeId, prev: Option<Truth>)
      returns (registered: set<NodeId>, sent: set<NodeId>, ghost events: seq<Event>)
      requires source in candidates && (Changes(prev, candidates[source]) ==> t.account == a)
      modifies this`history, world`done
      ensures sent <= Targets(profile, candidates, t, source, registered)
      ensures events == Announcements(profile, candidates, prev, t, source)
                        + Passed(profile, candidates, prev, t, source, registered, sent)
      ensures Happened(old(history), old(world.done), a, events, history, world.done)
    {
      ghost var announced := Announcements(profile, candidates, prev, t, source);
      if Changes(prev, candidates[source]) {
        Announce(a, t, source, prev);
        ghost var h1, d1 := history, world.done;
        registered, sent := PushTruth(a, t, source, prev);
        events := announced + Passed(profile, candidates, prev, t, source, registered, sent);
        HappenedBoth(old(history), old(world.done), a, announced, h1, d1,
                     Passed(profile, candidates, prev, t, source, registered, sent), history, world.done);
      } else {
        registered, sent := PushTruth(a, t, source, prev);
        events := Passed(profile, candidates, prev, t, source, registered, sent);
        assert events == announced + events;
      }
    }

    /** Records the selection, and announces the truth of an account that had none. */
    method Announce(a: Account, t: Truth, source: NodeId, prev: Option<Truth>)
      requires t.account == a && source in candidates && Changes(prev, candidates[source])
      modifies this`history, world`done
      ensures Happened(old(history), old(world.done), a, Announcements(profile, candidates, prev, t, source),
                       history, world.done)
    {
      var nodes := SortNames(InAccount(candidates, a));
      var notice := RestoredNotice(t, source, nodes);
      RecordedPair(world.done, Selected(t, source), notice);
      if prev.None? && profile.notifies { world.Notify(notice); }
      Emit(a, [Selected(t, source)] + if prev.None? && profile.notifies then [notice] else []);
    }

    /** Keeps the first candidate and replaces it by every later one that is fresher. */
    method Best(a: Account, viable: seq<NodeId>) returns (best: NodeId)
      requires viable != [] && forall n :: n in viable <==> n in ViableNodes(candidates, a)
      ensures IsBest(profile.format, candidates, a, best)
    {
      assert forall i | 0 <= i < |viable| :: viable[i] in ViableNodes(candidates, a);
      best := viable[0];
      for i := 1 to |viable|
        invariant best in viable
        invariant forall j | 0 <= j < i ::
                  Compare(profile.format, candidates[viable[j]].snap.value, candidates[best].snap.value) <= 0
      {
        if Compare(profile.format, candidates[viable[i]].snap.value, candidates[best].snap.value) > 0 {
          best := viable[i];
        }
      }
    }

    /** Pushes a truth and reports which nodes it was sent to. */
    method PushTruth(a: Account, t: Truth, source: NodeId, prev: Option<Truth>)
      returns (registered: set<NodeId>, sent: set<NodeId>)
      modifies this`history, world`done
      ensures sent <= Targets(profile, candidates, t, source, registered)
      ensures Happened(old(history), old(world.done), a, Passed(profile, candidates, prev, t, source, registered, sent),
                       history, world.done)
    {
      var push := PushOf(profile, t);
      var targets;
      registered, targets := ChooseTargets(t, source);
      sent := SendAll(targets, push);
      var sentTo := SortNames(sent);
      var nodes := SortNames(InAccount(candidates, t.account));
      if sent != {} && profile.notifies {
        world.Notify(PropagatedNotice(t, SummaryOf(prev), source, sentTo, nodes));
      }
      PassRecorded(profile, candidates, prev, t, source, registered, sent, old(world.done));
      Emit(a, Passed(profile, candidates, prev, t, source, registered, sent));
    }

    /** Sends the push to each target once, and goes on when a send fails. */
    method SendAll(targets: set<NodeId>, push: Push) returns (sent: set<NodeId>)
      modifies world`done
      ensures sent <= targets
      ensures world.done == old(world.done) + multiset(PushEffects(targets, sent, push))
    {
      sent := {};
      var todo := targets;
      while todo != {}
        invariant todo <= targets && sent <= targets - todo
        invariant world.done == old(world.done) + multiset(PushEffects(targets - todo, sent, push))
        decreases todo
      {
        var n :| n in todo;
        ghost var tried, before := targets - todo, sent;
        todo := todo - {n};
        var ok := world.Send(n, push);
        if ok { sent := sent + {n}; }
        PushEffectsMore(tried, before, push, n, ok);
        assert tried + {n} == targets - todo;
      }
      assert targets - todo == targets;
    }

    /** The stale registered nodes of the truth's account, other than the source. */
    method ChooseTargets(t: Truth, source: NodeId) returns (registered: set<NodeId>, targets: set<NodeId>)
      modifies world`done
      ensures world.done == old(world.done) + multiset{Answered(registered)}
      ensures targets == Targets(profile, candidates, t, source, registered)
    {
      var inAccount: set<NodeId>, stale: set<NodeId> := {}, {};
      var todo := candidates.Keys;
      while todo != {}
        invariant todo <= candidates.Keys
        invariant inAccount == set n | n in candidates.Keys - todo && candidates[n].account == t.account
        invariant stale == set n | n in inAccount && n != source
                                   && (candidates[n].absent || candidates[n].fingerprint != t.fingerprint)
        decreases todo
      {
        var n :| n in todo;
        todo := todo - {n};
        var c := candidates[n];
        if c.account == t.account {
          inAccount := inAccount + {n};
          if n != source && (c.absent || c.fingerprint != t.fingerprint) {
            stale := stale + {n};
          }
        }
      }
      registered := world.Registered();
      targets := {};
      todo := registered;
      while todo != {}
        invariant todo <= registered
        invariant targets == set n | n in registered - todo && n != source && n in inAccount
                  && (profile.pushToAll || n in stale)
        decreases todo
      {
        var n :| n in todo;
        todo := todo - {n};
        if n != source && n in inAccount && (profile.pushToAll || n in stale) {
          targets := targets + {n};
        }
      }
    }

    /** Rebuilds the mirror from scratch. */
    method UpdateMirror()
      modifies this`mirror
      ensures mirror == MirrorOf(truths, candidates)
    {
      var next: map<Account, Mirrored> := map[];
      var todo := truths.Keys;
      while todo != {}
        invariant todo <= truths.Keys
        invariant next == map a | a in truths && a !in todo :: Mirrored(truths[a], Sorted(InAccount(candidates, a)))
        decreases todo
      {
        var a :| a in todo;
        todo := todo - {a};
        var nodes := SortNames(InAccount(candidates, a));
        next := next[a := Mirrored(truths[a], nodes)];
      }
      mirror := next;
    }

    ghost method Emit(a: Account, events: seq<Event>)
      modifies this`history
      ensures history == old(history)[a := old(EventsOf(a)) + events]
    {
      history := history[a := EventsOf(a) + events];
    }
  }

  /** The events of a push pass. */
  ghost function Passed(p: Profile, cands: map<NodeId, Candidate>, prev: Option<Truth>, t: Truth, source: NodeId,
                        registered: set<NodeId>, sent: set<NodeId>): seq<Event>
  {
    Propagation(p, cands, prev, t, Choice(source, 0, 0, registered, sent))
  }

  ghost function NoticeOfPass(cands: map<NodeId, Candidate>, prev: Option<Truth>, t: Truth, source: NodeId,
                              sent: set<NodeId>): Event
  {
    PropagatedNotice(t, SummaryOf(prev), source, Sorted(sent), Sorted(InAccount(cands, t.account)))
  }

  lemma PassedIs(p: Profile, cands: map<NodeId, Candidate>, prev: Option<Truth>, t: Truth, source: NodeId,
                 registered: set<NodeId>, sent: set<NodeId>)
    ensures var pass := PushPass(PushOf(p, t), source, registered, Targets(p, cands, t, source, registered), sent);
            var notice := NoticeOfPass(cands, prev, t, source, sent);
            Passed(p, cands, prev, t, source, registered, sent) ==
              if sent != {} && p.notifies then [pass, notice] else [pass]
  {
  }

  lemma PassRecorded(p: Profile, cands: map<NodeId, Candidate>, prev: Option<Truth>, t: Truth, source: NodeId,
                     registered: set<NodeId>, sent: set<NodeId>, done: multiset<Effect>)
    ensures Recorded(done, Passed(p, cands, prev, t, source, registered, sent)) ==
            done + multiset{Answered(registered)}
            + multiset(PushEffects(Targets(p, cands, t, source, registered), sent, PushOf(p, t)))
            + if sent != {} && p.notifies
              then multiset{Notified(NoticeOfPass(cands, prev, t, source, sent))} else multiset{}
  {
    var pass := PushPass(PushOf(p, t), source, registered, Targets(p, cands, t, source, registered), sent);
    PassedIs(p, cands, prev, t, source, registered, sent);
    PassEffects(PushOf(p, t), source, registered, pass.targets, sent);
    RecordedPair(done, pass, NoticeOfPass(cands, prev, t, source, sent));
  }

  /** The two ways in which the selection for an account with a viable candidate can end. */
  lemma HeldBack(p: Profile, cands: map<NodeId, Candidate>, formatName: string, lo: Time, hi: Time, a: Account,
                 prev: Option<Truth>, source: NodeId, since: Time)
    requires IsBest(p.format, cands, a, source) && lo <= since <= hi && Suppressed(p, prev, cands[source], since)
    ensures Reconciled(p, cands, formatName, lo, hi, a, prev, prev, [])
  {
    assert Decides(p, cands, formatName, lo, hi, a, prev, prev, [], Choice(source, since, since, {}, {}));
  }

  lemma GoesThrough(p: Profile, cands: map<NodeId, Candidate>, formatName: string, lo: Time, hi: Time, a: Account,
                    prev: Option<Truth>, t: Truth, c: Choice)
    requires IsBest(p.format, cands, a, c.best) && lo <= c.since <= c.now <= hi
    requires !Suppressed(p, prev, cands[c.best], c.since)
    requires t == if Changes(prev, cands[c.best]) then NewTruth(a, formatName, cands[c.best], c.now) else prev.value
    requires c.sent <= Targets(p, cands, t, c.best, c.registered)
    ensures Reconciled(p, cands, formatName, lo, hi, a, prev, Some(t),
                       Announcements(p, cands, prev, t, c.best)
                       + Passed(p, cands, prev, t, c.best, c.registered, c.sent))
  {
    var events := Announcements(p, cands, prev, t, c.best) + Propagation(p, cands, prev, t, c);
    assert Decides(p, cands, formatName, lo, hi, a, prev, Some(t), events, c);
  }

  lemma RunExtends(p: Profile, states: seq<State>, messages: seq<Message>, m: Message, s: State)
    requires IsRun(p, states, messages) && Next(p, states[|messages|], m, s)
    ensures IsRun(p, states + [s], messages + [m])
  {
  }

  /** The accounts not dropped before position `i` of the listing `lost`. */
  ghost function Pending(viable: set<Account>, lost: seq<Account>, i: nat): set<Account>
    requires i <= |lost|
  {
    viable + set a | a in lost[i..]
  }

  lemma PendingEnds(viable: set<Account>, lost: seq<Account>, all: set<Account>)
    requires lost == Sorted(all - viable)
    ensures Pending(viable, lost, 0) == viable + all
    ensures Pending(viable, lost, |lost|) == viable
  {
  }

  lemma PendingNext(viable: set<Account>, lost: seq<Account>, i: nat, all: set<Account>)
    requires lost == Sorted(all - viable) && i < |lost|
    ensures lost[i] in all && lost[i] in Pending(viable, lost, i)
    ensures Pending(viable, lost, i + 1) == Pending(viable, lost, i) - {lost[i]}
  {
    assert lost[i] in lost;
    assert lost[i..] == [lost[i]] + lost[i + 1..];
    LessTotal(lost[i], lost[i]);
  }

  /** A reselect may start from a state that differs in candidates, mirror and an earlier clock. */
  lemma ReselectFrom(p: Profile, formatName: string, cands: map<NodeId, Candidate>, s: State, s1: State, s2: State)
    requires MediatorSpec.Reselect(p, formatName, cands, s1, s2)
    requires s.truths == s1.truths && s.history == s1.history && s.clock <= s1.clock
    ensures MediatorSpec.Reselect(p, formatName, cands, s, s2)
  {
    forall a: Account
      ensures AccountStep(p, formatName, s.clock, s, s2, a)
    {
      assert AccountStep(p, formatName, s1.clock, s1, s2, a);
      AccountStepFrom(p, formatName, s, s1, s2, a);
    }
  }

  lemma AccountStepFrom(p: Profile, formatName: string, s: State, s1: State, s2: State, a: Account)
    requires AccountStep(p, formatName, s1.clock, s1, s2, a)
    requires s.TruthOf(a) == s1.TruthOf(a) && s.EventsOf(a) == s1.EventsOf(a) && s.clock <= s1.clock
    ensures AccountStep(p, formatName, s.clock, s, s2, a)
  {
    ReconciledWider(p, s2.candidates, formatName, s.clock, s1.clock, s2.clock, s2.clock, a, s.TruthOf(a),
                    s2.TruthOf(a), NewEvents(s, s2, a));
  }

  /** The clock readings of a reconciliation may be bounded more loosely. */
  lemma ReconciledWider(p: Profile, cands: map<NodeId, Candidate>, formatName: string, lo': Time, lo: Time, hi: Time,
                        hi': Time,
                        a: Account, prev: Option<Truth>, next: Option<Truth>, events: seq<Event>)
    requires Reconciled(p, cands, formatName, lo, hi, a, prev, next, events)
    requires lo' <= lo && hi <= hi'
    ensures Reconciled(p, cands, formatName, lo', hi', a, prev, next, events)
  {
    if ViableNodes(cands, a) != {} {
      var c :| Decides(p, cands, formatName, lo, hi, a, prev, next, events, c);
      assert Decides(p, cands, formatName, lo', hi', a, prev, next, events, c);
    }
  }

  // ------------------------------------------------------ inside a reselect

  /** Nothing but account `a` and the clock changed. */
  ghost predicate Elsewhere(s: State, s': State, a: Account) {
    && s'.candidates == s.candidates
    && s.clock <= s'.clock
    && forall b: Account | b != a :: Untouched(s, s', b)
  }

  lemma OnlyHere(s: State, s': State, a: Account, events: seq<Event>)
    requires s'.candidates == s.candidates && s.clock <= s'.clock
    requires a in s'.truths && s'.truths == s.truths[a := s'.truths[a]]
    requires s'.history == s.history[a := EventsIn(s.history, a) + events]
    ensures Elsewhere(s, s', a) && s'.EventsOf(a) == s.EventsOf(a) + events
  {
  }

  ghost predicate Untouched(s: State, s': State, a: Account) {
    s'.TruthOf(a) == s.TruthOf(a) && s'.EventsOf(a) == s.EventsOf(a)
  }

  /** Account `a` has lost its truth, if it had one. */
  ghost predicate Dropped(p: Profile, s: State, s': State, a: Account) {
    s'.TruthOf(a) == None && s'.EventsOf(a) == s.EventsOf(a) + Losses(p, s'.candidates, a, s.TruthOf(a))
  }

  ghost predicate DroppedAllBut(p: Profile, s: State, s': State, keep: set<Account>) {
    && s.clock == s'.clock && s'.candidates == s.candidates
    && forall a: Account :: if a in keep then Untouched(s, s', a) else Dropped(p, s, s', a)
  }

  lemma NothingDropped(p: Profile, s: State, keep: set<Account>)
    requires s.truths.Keys <= keep
    ensures DroppedAllBut(p, s, s, keep)
  {
  }

  lemma StillHeld(p: Profile, s: State, s': State, keep: set<Account>, a: Account)
    requires DroppedAllBut(p, s, s', keep) && a in keep
    ensures a in s.truths <==> a in s'.truths
  {
  }

  lemma DropOne(p: Profile, s: State, s1: State, s2: State, keep: set<Account>, a: Account)
    requires DroppedAllBut(p, s, s1, keep) && a in keep
    requires s2.candidates == s1.candidates && s1.clock == s2.clock
    requires s2.truths == s1.truths - {a}
    requires s2.history == s1.history[a := s1.EventsOf(a) + Losses(p, s1.candidates, a, s1.TruthOf(a))]
    ensures DroppedAllBut(p, s, s2, keep - {a})
  {
  }

  /** The accounts in `todo` are untouched and all others are reconciled. */
  ghost predicate Halfway(p: Profile, formatName: string, s: State, s': State, todo: set<Account>) {
    && s.clock <= s'.clock
    && s'.candidates == s.candidates
    && forall a: Account ::
         if a in todo then Untouched(s, s', a) else AccountStep(p, formatName, s.clock, s, s', a)
  }

  lemma DroppedFirst(p: Profile, formatName: string, s: State, s': State, viable: set<Account>)
    requires forall a: Account :: a in viable <==> ViableNodes(s.candidates, a) != {}
    requires DroppedAllBut(p, s, s', viable)
    ensures Halfway(p, formatName, s, s', viable)
  {
  }

  lemma OneMore(p: Profile, formatName: string, s: State, s1: State, s2: State, todo: set<Account>, a: Account,
                events: seq<Event>)
    requires Halfway(p, formatName, s, s1, todo) && a in todo
    requires Elsewhere(s1, s2, a)
    requires s2.EventsOf(a) == s1.EventsOf(a) + events
    requires Reconciled(p, s2.candidates, formatName, s1.clock, s2.clock, a, s1.TruthOf(a), s2.TruthOf(a), events)
    ensures Halfway(p, formatName, s, s2, todo - {a})
  {
    forall b: Account
      ensures if b in todo - {a} then Untouched(s, s2, b) else AccountStep(p, formatName, s.clock, s, s2, b)
    {
      assert b != a ==> Untouched(s1, s2, b);
      if b in todo - {a} {
        assert Untouched(s, s1, b);
      } else if b == a {
        assert Untouched(s, s1, a);
        assert NewEvents(s, s2, a) == events;
        ReconciledWider(p, s2.candidates, formatName, s.clock, s1.clock, s2.clock, s2.clock, a, s.TruthOf(a),
                        s2.TruthOf(a), events);
      } else {
        assert AccountStep(p, formatName, s.clock, s, s1, b);
        ReconciledWider(p, s2.candidates, formatName, s.clock, s.clock, s1.clock, s2.clock, b, s.TruthOf(b),
                        s2.TruthOf(b), NewEvents(s, s2, b));
      }
    }
  }

  lemma AllReconciled(p: Profile, formatName: string, s: State, s1: State, s2: State)
    requires Halfway(p, formatName, s, s1, {})
    requires s2 == s1.(mirror := MirrorOf(s1.truths, s1.candidates))
    ensures Reselect(p, formatName, s.candidates, s, s2)
  {
    forall a: Account
      ensures AccountStep(p, formatName, s.clock, s, s2, a)
    {
      assert AccountStep(p, formatName, s.clock, s, s1, a);
    }
  }
}
