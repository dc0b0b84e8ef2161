/** Every step of the system keeps the invariant and makes the measure smaller. */
module ClusterSteps {
  import opened Formats
  import opened Listing
  import opened MediatorSpec
  import opened MediatorLaws
  import opened ApplySpec
  import opened ClusterSystem

  // ---------------------------------------------- steps that touch one node

  ghost predicate SameButAcked(s: State, s': State) {
    && s'.candidates.Keys == s.candidates.Keys
    && (forall k <- s.candidates ::
          s'.candidates[k].(lastApplied := NoFingerprint) == s.candidates[k].(lastApplied := NoFingerprint))
    && s'.truths == s.truths && s'.clock == s.clock
  }

  /** The step changed only node `n`. */
  ghost predicate OnlyNode(s: System, s': System, n: NodeId) {
    && n in s.nodes && n in s'.nodes
    && s'.nodes == s.nodes[n := s'.nodes[n]]
    && SameButAcked(s.server, s'.server) && s'.reselected == s.reselected
  }

  lemma LocalStepLighter(s0: System, g: map<Account, NodeId>, s: System, s': System, n: NodeId)
    requires OnlyNode(s, s', n)
    requires Lighter(s0, g, |s.nodes|, s, s', n, false, 1)
    ensures Measure(s0, g, s') < Measure(s0, g, s)
  {
    assert s'.nodes.Keys == s.nodes.Keys;
    TotalDrops(s0, g, |s.nodes|, s, s', Sorted(s.nodes.Keys), n, false, 1);
  }

  lemma LocalStepNodes(cl: Cluster, s0: System, g: map<Account, NodeId>, s: System, s': System, n: NodeId)
    requires s.nodes.Keys == s0.nodes.Keys == s.server.candidates.Keys
    requires NodesInv(cl, s0, g, s) && OnlyNode(s, s', n)
    requires NodeInv(cl, s0.server.clock, s.reselected, n, s0.nodes[n].file, GoalOf(s0, g, n), s'.nodes[n],
                     s.server.candidates[n])
    ensures s'.nodes.Keys == s.nodes.Keys
    ensures NodesInv(cl, s0, g, s')
  {
    assert s'.nodes.Keys == s.nodes.Keys;
    forall k <- s'.nodes
      ensures NodeInv(cl, s0.server.clock, s'.reselected, k, s0.nodes[k].file, GoalOf(s0, g, k), s'.nodes[k],
                      s'.server.candidates[k])
    {
      LocalStepNode(cl, s0.server.clock, k, s0.nodes[k].file, GoalOf(s0, g, k), s, s', n);
    }
  }

  lemma LocalStepNode(cl: Cluster, now: Time, k: NodeId, orig: Option<Bytes>, goal: Option<Bytes>, s: System,
                      s': System, n: NodeId)
    requires OnlyNode(s, s', n) && k in s.nodes && k in s'.nodes && k in s.server.candidates
    requires NodeInv(cl, now, s.reselected, k, orig, goal, if k == n then s'.nodes[k] else s.nodes[k],
                     s.server.candidates[k])
    ensures NodeInv(cl, now, s'.reselected, k, orig, goal, s'.nodes[k], s'.server.candidates[k])
  {
  }

  /** A step that concerns only node `n`, and leaves it well. */
  lemma LocalStepKeeps(cl: Cluster, s0: System, g: map<Account, NodeId>, s: System, s': System, n: NodeId)
    requires Inv(cl, s0, g, s) && OnlyNode(s, s', n)
    requires NodeInv(cl, s0.server.clock, s.reselected, n, s0.nodes[n].file, GoalOf(s0, g, n), s'.nodes[n],
                     s.server.candidates[n])
    requires HasReport(s.nodes[n]) ==> HasReport(s'.nodes[n])
    ensures Inv(cl, s0, g, s')
  {
    LocalStepNodes(cl, s0, g, s, s', n);
    LocalStepTruths(cl, s0, g, s.server, s'.server);
    if !s.reselected { StillReporting(s, s', n); }
  }

  lemma LocalStepTruths(cl: Cluster, s0: System, g: map<Account, NodeId>, s: State, s': State)
    requires TruthsInv(cl, s0, g, s) && SameButAcked(s, s')
    ensures TruthsInv(cl, s0, g, s')
  {
    forall a: Account
      ensures TruthInv(cl, s0, g, a, s'.TruthOf(a))
    {
      assert s'.TruthOf(a) == s.TruthOf(a);
    }
  }

  lemma StillReporting(s: System, s': System, n: NodeId)
    requires n in s.nodes && n in s'.nodes && s'.nodes == s.nodes[n := s'.nodes[n]]
    requires HasReport(s.nodes[n]) ==> HasReport(s'.nodes[n])
    requires exists k <- s.nodes :: HasReport(s.nodes[k])
    ensures exists k <- s'.nodes :: HasReport(s'.nodes[k])
  {
    var k :| k in s.nodes && HasReport(s.nodes[k]);
    assert k in s'.nodes && HasReport(s'.nodes[k]);
  }

  lemma AfterReportWell(cl: Cluster, now: Time, reselected: bool, n: NodeId, orig: Option<Bytes>, goal: Option<Bytes>,
                        l: Local, c: Candidate, b: nat)
    requires NodeInv(cl, now, reselected, n, orig, goal, l, c) && l.changed
    ensures NodeInv(cl, now, reselected, n, orig, goal, AfterReport(cl, n, l), c)
    ensures Weight(goal, b, AfterReport(cl, n, l)) < Weight(goal, b, l)
  {
  }

  lemma ReportKeeps(cl: Cluster, s0: System, g: map<Account, NodeId>, s: System, s': System, n: NodeId)
    requires Inv(cl, s0, g, s) && SendReportStep(cl, s, s', n)
    ensures Inv(cl, s0, g, s')
    ensures Measure(s0, g, s') < Measure(s0, g, s)
  {
    AfterReportWell(cl, s0.server.clock, s.reselected, n, s0.nodes[n].file, GoalOf(s0, g, n), s.nodes[n],
                    s.server.candidates[n], |s.nodes|);
    LocalStepKeeps(cl, s0, g, s, s', n);
    LocalStepLighter(s0, g, s, s', n);
  }

  lemma AfterApplyWell(cl: Cluster, now: Time, reselected: bool, n: NodeId, orig: Option<Bytes>, goal: Option<Bytes>,
                       l: Local, c: Candidate, b: nat)
    requires NodeInv(cl, now, reselected, n, orig, goal, l, c) && l.pushes != []
    ensures NodeInv(cl, now, reselected, n, orig, goal, AfterApply(n, l), c)
    ensures Weight(goal, b, AfterApply(n, l)) < Weight(goal, b, l)
    ensures AfterApply(n, l).file == goal
  {
    assert l.pushes[0] in l.pushes && GoodPush(goal, l.pushes[0]);
    assert AfterApply(n, l).file == goal;
  }

  lemma ApplyKeeps(cl: Cluster, s0: System, g: map<Account, NodeId>, s: System, s': System, n: NodeId)
    requires Inv(cl, s0, g, s) && ApplyStep(s, s', n)
    ensures Inv(cl, s0, g, s')
    ensures Measure(s0, g, s') < Measure(s0, g, s)
  {
    AfterApplyWell(cl, s0.server.clock, s.reselected, n, s0.nodes[n].file, GoalOf(s0, g, n), s.nodes[n],
                   s.server.candidates[n], |s.nodes|);
    LocalStepKeeps(cl, s0, g, s, s', n);
    LocalStepLighter(s0, g, s, s', n);
  }

  lemma AfterAckWell(cl: Cluster, now: Time, reselected: bool, n: NodeId, orig: Option<Bytes>, goal: Option<Bytes>,
                     l: Local, c: Candidate, b: nat, i: nat)
    requires NodeInv(cl, now, reselected, n, orig, goal, l, c) && i < |l.acks|
    ensures IsAck(n, l.acks[i])
    ensures NodeInv(cl, now, reselected, n, orig, goal, l.(acks := Without(l.acks, i)), c)
    ensures Weight(goal, b, l.(acks := Without(l.acks, i))) < Weight(goal, b, l)
  {
  }

  lemma AckOnlyAcks(p: Profile, s: State, m: Message, s': State)
    requires m.Ack? && m.node in s.candidates && Next(p, s, m, s') && s'.clock == s.clock
    ensures SameButAcked(s, s')
  {
  }

  lemma AckKeeps(cl: Cluster, s0: System, g: map<Account, NodeId>, s: System, s': System, n: NodeId, i: nat)
    requires Inv(cl, s0, g, s) && AckStep(cl, s, s', n, i)
    ensures Inv(cl, s0, g, s')
    ensures Measure(s0, g, s') < Measure(s0, g, s)
  {
    AfterAckWell(cl, s0.server.clock, s.reselected, n, s0.nodes[n].file, GoalOf(s0, g, n), s.nodes[n],
                 s.server.candidates[n], |s.nodes|, i);
    AckOnlyAcks(cl.profile, s.server, s.nodes[n].acks[i], s'.server);
    LocalStepKeeps(cl, s0, g, s, s', n);
    LocalStepLighter(s0, g, s, s', n);
  }

  // ------------------------------------------------------- mediating a report

  /** A candidate keeps its node's account and is alike the node's first candidate or that of
      the account's holder. */
  ghost predicate FromStart(s0: System, g: map<Account, NodeId>, n: NodeId, c: Candidate)
    requires n in s0.server.candidates
  {
    var cands0 := s0.server.candidates;
    && c.account == cands0[n].account
    && (Alike(c, cands0[n]) || (c.account in g && g[c.account] in cands0 && Alike(c, cands0[g[c.account]])))
  }

  lemma CandidateFromStart(cl: Cluster, s0: System, g: map<Account, NodeId>, n: NodeId, file: Option<Bytes>,
                           c: Candidate)
    requires Start(cl, s0) && Holders(cl, s0, g) && n in s0.nodes
    requires file == s0.nodes[n].file || (GoalOf(s0, g, n).Some? && file == GoalOf(s0, g, n))
    requires Reflects(cl, s0.server.clock, n, file, c)
    ensures FromStart(s0, g, n, c)
  {
    var c0 := s0.server.candidates[n];
    assert Reflects(cl, s0.server.clock, n, s0.nodes[n].file, c0);
    if file != s0.nodes[n].file {
      var h := g[c0.account];
      GoalReadable(cl, s0, g, c0.account);
      assert n in InAccount(s0.server.candidates, c0.account);
      assert cl.account(n, s0.nodes[h].file) == c0.account;
    }
  }

  ghost predicate CandidatesFromStart(s0: System, g: map<Account, NodeId>, cands: map<NodeId, Candidate>) {
    && cands.Keys == s0.server.candidates.Keys
    && forall n <- cands :: FromStart(s0, g, n, cands[n])
  }

  lemma InvFromStart(cl: Cluster, s0: System, g: map<Account, NodeId>, s: System)
    requires Start(cl, s0) && Holders(cl, s0, g) && Inv(cl, s0, g, s)
    ensures CandidatesFromStart(s0, g, s.server.candidates)
  {
    forall n <- s.server.candidates
      ensures FromStart(s0, g, n, s.server.candidates[n])
    {
      var l := s.nodes[n];
      assert NodeInv(cl, s0.server.clock, s.reselected, n, s0.nodes[n].file, GoalOf(s0, g, n), l,
                     s.server.candidates[n]);
      CandidateFromStart(cl, s0, g, n,
        if Reflects(cl, s0.server.clock, n, s0.nodes[n].file, s.server.candidates[n]) then s0.nodes[n].file else l.file,
        s.server.candidates[n]);
    }
  }

  /** A reselect happens over the candidates as they are after the report. */
  ghost predicate Reselects(cl: Cluster, s: State, s': State) {
    && s'.clock == s.clock
    && exists formatName: string :: Reselect(cl.profile, formatName, s'.candidates, s, s')
  }

  /** Handling a report of file `file` puts a candidate that reflects it, and reselects. */
  lemma ReportReselects(cl: Cluster, s: State, n: NodeId, file: Option<Bytes>, s': State)
    requires cl.profile.parse([]) == None
    requires Next(cl.profile, s, ReportOf(cl, n, file), s') && s'.clock == s.clock
    ensures s'.candidates == s.candidates[n := CandidateOf(cl, s.clock, n, file)]
    ensures Reselects(cl, s, s')
  {
  }

  /** A viable candidate is alike one that was viable at the start. */
  lemma ViableFromStart(cl: Cluster, s0: System, g: map<Account, NodeId>, cands: map<NodeId, Candidate>, a: Account,
                        x: NodeId) returns (y: NodeId)
    requires Holders(cl, s0, g) && CandidatesFromStart(s0, g, cands)
    requires x in ViableNodes(cands, a)
    ensures y in ViableNodes(s0.server.candidates, a) && Alike(cands[x], s0.server.candidates[y])
  {
    assert FromStart(s0, g, x, cands[x]);
    y := if Alike(cands[x], s0.server.candidates[x]) then x else g[a];
    if a in g { assert g[a] in ViableNodes(s0.server.candidates, a); }
  }

  lemma HolderStaysViable(cl: Cluster, s0: System, g: map<Account, NodeId>, cands: map<NodeId, Candidate>, a: Account)
    requires Holders(cl, s0, g) && CandidatesFromStart(s0, g, cands) && a in g
    ensures g[a] in ViableNodes(cands, a)
    ensures Alike(cands[g[a]], s0.server.candidates[g[a]])
  {
  }

  /** At the start, what is not older than the holder carries the goal. */
  lemma FreshestIsGoal(cl: Cluster, s0: System, g: map<Account, NodeId>, a: Account, y: NodeId)
    requires Start(cl, s0) && Holders(cl, s0, g)
    requires y in ViableNodes(s0.server.candidates, a) && a in g && g[a] in s0.server.candidates
    requires s0.server.candidates[g[a]].snap.Some?
    requires Compare(cl.profile.format, s0.server.candidates[g[a]].snap.value, s0.server.candidates[y].snap.value) <= 0
    ensures Goal(s0, g, a).Some? && s0.server.candidates[y].fingerprint == Sha256(Goal(s0, g, a).value)
    ensures s0.server.candidates[y].fingerprint == Sha256(s0.server.candidates[y].snap.value.raw)
  {
    GoalReadable(cl, s0, g, a);
    assert g[a] in ViableNodes(s0.server.candidates, a);
    BestsOpposed(cl.profile.format, s0.server.candidates[g[a]].snap.value, s0.server.candidates[y].snap.value);
    assert Reflects(cl, s0.server.clock, y, s0.nodes[y].file, s0.server.candidates[y]);
  }

  lemma BestsOpposed(f: Format, a: Snapshot, b: Snapshot)
    ensures Compare(f, a, b) == -Compare(f, b, a)
  {
  }

  /** Whatever is best later is the goal. */
  lemma BestIsGoal(cl: Cluster, s0: System, g: map<Account, NodeId>, cands: map<NodeId, Candidate>, a: Account,
                   x: NodeId)
    requires Start(cl, s0) && Holders(cl, s0, g)
    requires CandidatesFromStart(s0, g, cands)
    requires IsBest(cl.profile.format, cands, a, x) && a in g
    ensures Goal(s0, g, a).Some? && cands[x].fingerprint == Sha256(Goal(s0, g, a).value)
    ensures cands[x].fingerprint == Sha256(cands[x].snap.value.raw)
  {
    var y := ViableFromStart(cl, s0, g, cands, a, x);
    HolderStaysViable(cl, s0, g, cands, a);
    FreshestIsGoal(cl, s0, g, a, y);
  }

  /** The selection for an account, on the way from `s` to `s'`, settles on the goal. */
  lemma TruthIsGoal(cl: Cluster, s0: System, g: map<Account, NodeId>, s: State, s': State, formatName: string,
                    a: Account)
    requires Start(cl, s0) && Holders(cl, s0, g)
    requires TruthsInv(cl, s0, g, s) && CandidatesFromStart(s0, g, s'.candidates)
    requires s'.clock == s.clock && AccountStep(cl.profile, formatName, s.clock, s, s', a)
    requires ViableNodes(s'.candidates, a) != {} && a in g
    ensures a in s'.truths && Goal(s0, g, a).Some?
    ensures s'.truths[a].account == a
    ensures s'.truths[a].fingerprint == Sha256(Goal(s0, g, a).value)
    ensures s'.truths[a].rawB64 == Text(Goal(s0, g, a).value)
  {
    var c := Decision(cl.profile, formatName, s.clock, s, s', a);
    BestIsGoal(cl, s0, g, s'.candidates, a, c.best);
    assert TruthInv(cl, s0, g, a, s.TruthOf(a));
    SelectedIsGoal(cl.profile, formatName, a, s.TruthOf(a), s'.candidates[c.best], c, Goal(s0, g, a), s.clock);
  }

  lemma SelectedIsGoal(p: Profile, formatName: string, a: Account, prev: Option<Truth>, best: Candidate, c: Choice,
                       goal: Option<Bytes>, now: Time)
    requires best.snap.Some? && best.fingerprint == Sha256(best.snap.value.raw)
    requires goal.Some? && best.fingerprint == Sha256(goal.value) && now <= c.since
    requires (prev.Some? ==> SoundTruth(a, prev.value)) && (Free(p, prev, now) || NamesGoal(goal, prev))
    ensures var next := TruthAfter(p, formatName, a, prev, best, c);
            next.Some? && next.value.account == a && NamesGoal(goal, next) && next.value.rawB64 == Text(goal.value)
  {
  }

  lemma TruthsAreGoals(cl: Cluster, s0: System, g: map<Account, NodeId>, s: State, s': State)
    requires Start(cl, s0) && Holders(cl, s0, g)
    requires TruthsInv(cl, s0, g, s) && CandidatesFromStart(s0, g, s'.candidates)
    requires Reselects(cl, s, s')
    ensures TruthsInv(cl, s0, g, s')
  {
    var formatName :| Reselect(cl.profile, formatName, s'.candidates, s, s');
    forall a: Account
      ensures TruthInv(cl, s0, g, a, s'.TruthOf(a))
    {
      assert AccountStep(cl.profile, formatName, s.clock, s, s', a);
      TruthKeeps(cl, s0, g, s, s', formatName, a);
    }
  }

  lemma TruthKeeps(cl: Cluster, s0: System, g: map<Account, NodeId>, s: State, s': State, formatName: string,
                   a: Account)
    requires Start(cl, s0) && Holders(cl, s0, g)
    requires TruthsInv(cl, s0, g, s) && CandidatesFromStart(s0, g, s'.candidates)
    requires s'.clock == s.clock && AccountStep(cl.profile, formatName, s.clock, s, s', a)
    ensures TruthInv(cl, s0, g, a, s'.TruthOf(a))
  {
    if a in g {
      HolderStaysViable(cl, s0, g, s'.candidates, a);
      TruthIsGoal(cl, s0, g, s, s', formatName, a);
    } else if ViableNodes(s'.candidates, a) != {} {
      NoHolderMeansHeld(cl, s0, g, s'.candidates, a);
      HeldStays(cl, s0, g, s, s', formatName, a);
      assert TruthInv(cl, s0, g, a, s.TruthOf(a));
    } else {
      HeldBests(cl, s0, g, s'.candidates, a);
    }
  }

  /** An account that no holder was named for has a viable candidate only if it is held back. */
  lemma NoHolderMeansHeld(cl: Cluster, s0: System, g: map<Account, NodeId>, cands: map<NodeId, Candidate>, a: Account)
    requires Holders(cl, s0, g) && CandidatesFromStart(s0, g, cands)
    requires ViableNodes(cands, a) != {} && a !in g
    ensures Held(cl, s0, a)
  {
    var x :| x in ViableNodes(cands, a);
    var y := ViableFromStart(cl, s0, g, cands, a, x);
  }

  /** The candidates of an account without a holder stay as they were, so the same ones are best. */
  lemma HeldBests(cl: Cluster, s0: System, g: map<Account, NodeId>, cands: map<NodeId, Candidate>, a: Account)
    requires CandidatesFromStart(s0, g, cands) && a !in g
    ensures ViableNodes(cands, a) == ViableNodes(s0.server.candidates, a)
    ensures forall n: NodeId | IsBest(cl.profile.format, cands, a, n) ::
              IsBest(cl.profile.format, s0.server.candidates, a, n)
              && cands[n].fingerprint == s0.server.candidates[n].fingerprint
  {
    forall n <- cands | cands[n].account == a
      ensures Alike(cands[n], s0.server.candidates[n])
    {
      assert FromStart(s0, g, n, cands[n]);
    }
    forall n <- cands
      ensures cands[n].account == s0.server.candidates[n].account
    {
      assert FromStart(s0, g, n, cands[n]);
    }
  }

  /** A selection for an account that is held back does nothing at all. */
  lemma HeldStays(cl: Cluster, s0: System, g: map<Account, NodeId>, s: State, s': State, formatName: string,
                  a: Account)
    requires Holders(cl, s0, g) && Held(cl, s0, a)
    requires TruthsInv(cl, s0, g, s) && CandidatesFromStart(s0, g, s'.candidates)
    requires s'.clock == s.clock && AccountStep(cl.profile, formatName, s.clock, s, s', a)
    ensures s'.TruthOf(a) == s.TruthOf(a) && NewEvents(s, s', a) == []
  {
    HeldBests(cl, s0, g, s'.candidates, a);
    var c :| Decides(cl.profile, s'.candidates, formatName, s.clock, s'.clock, a, s.TruthOf(a), s'.TruthOf(a),
                     NewEvents(s, s', a), c);
    assert Suppressed(cl.profile, s.TruthOf(a), s'.candidates[c.best], c.since);
  }

  /** What a reselect sends to a node is its goal. */
  lemma SentIsGoal(cl: Cluster, s0: System, g: map<Account, NodeId>, s: State, s': State, k: NodeId)
    requires Start(cl, s0) && Holders(cl, s0, g)
    requires TruthsInv(cl, s0, g, s) && CandidatesFromStart(s0, g, s'.candidates)
    requires Reselects(cl, s, s') && k in s0.nodes
    ensures |SentTo(s, s', k)| <= 1
    ensures forall push <- SentTo(s, s', k) :: GoodPush(GoalOf(s0, g, k), push)
  {
    var formatName :| Reselect(cl.profile, formatName, s'.candidates, s, s');
    var a := s'.candidates[k].account;
    assert FromStart(s0, g, k, s'.candidates[k]);
    assert AccountStep(cl.profile, formatName, s.clock, s, s', a);
    forall e: Event | IsPassTo(s, s', k, e)
      ensures GoodPush(GoalOf(s0, g, k), e.push)
    {
      PassIsGoal(cl, s0, g, s, s', formatName, a, e);
    }
    SentComesFromPass(s, s', k, GoalOf(s0, g, k));
  }

  lemma SentComesFromPass(s: State, s': State, k: NodeId, goal: Option<Bytes>)
    requires k in s'.candidates && forall e: Event | IsPassTo(s, s', k, e) :: GoodPush(goal, e.push)
    ensures |SentTo(s, s', k)| <= 1
    ensures forall push <- SentTo(s, s', k) :: GoodPush(goal, push)
  {
  }

  lemma PassIsGoal(cl: Cluster, s0: System, g: map<Account, NodeId>, s: State, s': State, formatName: string,
                   a: Account, e: Event)
    requires Start(cl, s0) && Holders(cl, s0, g)
    requires TruthsInv(cl, s0, g, s) && CandidatesFromStart(s0, g, s'.candidates)
    requires s'.clock == s.clock && AccountStep(cl.profile, formatName, s.clock, s, s', a)
    requires e in NewEvents(s, s', a) && e.PushPass?
    ensures GoodPush(Goal(s0, g, a), e.push)
  {
    var c := PassIn(cl.profile, s'.candidates, formatName, s.clock, s'.clock, a, s.TruthOf(a), s'.TruthOf(a),
                    NewEvents(s, s', a), e);
    assert c.best in ViableNodes(s'.candidates, a);
    if a !in g {
      NoHolderMeansHeld(cl, s0, g, s'.candidates, a);
      HeldStays(cl, s0, g, s, s', formatName, a);
    }
    TruthIsGoal(cl, s0, g, s, s', formatName, a);
  }

  /** A node whose candidate does not carry its goal is sent something. */
  lemma StaleIsSent(cl: Cluster, s0: System, g: map<Account, NodeId>, s: State, s': State, k: NodeId)
    requires Start(cl, s0) && Holders(cl, s0, g)
    requires TruthsInv(cl, s0, g, s) && CandidatesFromStart(s0, g, s'.candidates)
    requires Reselects(cl, s, s') && Faultless(cl, s, s') && k in s0.nodes
    requires GoalOf(s0, g, k).Some?
    requires s'.candidates[k].absent || s'.candidates[k].fingerprint != Sha256(GoalOf(s0, g, k).value)
    ensures SentTo(s, s', k) != []
  {
    var formatName :| Reselect(cl.profile, formatName, s'.candidates, s, s');
    var a := s'.candidates[k].account;
    assert FromStart(s0, g, k, s'.candidates[k]);
    assert AccountStep(cl.profile, formatName, s.clock, s, s', a);
    HolderStaysViable(cl, s0, g, s'.candidates, a);
    TruthIsGoal(cl, s0, g, s, s', formatName, a);
    var e := PassHappens(cl, s0, g, s, s', formatName, a);
    BestIsGoal(cl, s0, g, s'.candidates, a, e.source);
    assert k in cl.registered;
    TargetIsSent(cl, s, s', s'.truths[a], k, e);
  }

  lemma TargetIsSent(cl: Cluster, s: State, s': State, t: Truth, k: NodeId, e: Event)
    requires Faultless(cl, s, s') && k in s'.candidates && s'.candidates[k].account == t.account
    requires s.EventsOf(t.account) <= s'.EventsOf(t.account)
    requires e in NewEvents(s, s', t.account) && e.PushPass?
    requires e.targets == Targets(cl.profile, s'.candidates, t, e.source, e.registered)
    requires k in cl.registered && e.source in s'.candidates
    requires !s'.candidates[e.source].absent && s'.candidates[e.source].fingerprint == t.fingerprint
    requires s'.candidates[k].absent || s'.candidates[k].fingerprint != t.fingerprint
    ensures SentTo(s, s', k) != []
  {
    assert e in Appended(s, s', t.account);
    assert IsPassTo(s, s', k, e);
  }

  /** The account is not held back, so the selection goes through. */
  lemma NotSuppressed(cl: Cluster, s0: System, g: map<Account, NodeId>, s: State, s': State, formatName: string,
                      a: Account) returns (c: Choice)
    requires Start(cl, s0) && Holders(cl, s0, g)
    requires TruthsInv(cl, s0, g, s) && CandidatesFromStart(s0, g, s'.candidates)
    requires s'.clock == s.clock && AccountStep(cl.profile, formatName, s.clock, s, s', a)
    requires ViableNodes(s'.candidates, a) != {} && a in g
    ensures Decides(cl.profile, s'.candidates, formatName, s.clock, s'.clock, a, s.TruthOf(a), s'.TruthOf(a),
                    NewEvents(s, s', a), c)
    ensures !Suppressed(cl.profile, s.TruthOf(a), s'.candidates[c.best], c.since)
  {
    c :| Decides(cl.profile, s'.candidates, formatName, s.clock, s'.clock, a, s.TruthOf(a), s'.TruthOf(a),
                 NewEvents(s, s', a), c);
    BestIsGoal(cl, s0, g, s'.candidates, a, c.best);
    PastCooldown(cl, s0, g, s, a, s'.candidates[c.best], c.since);
  }

  /** So it ends with a push pass. */
  lemma PassHappens(cl: Cluster, s0: System, g: map<Account, NodeId>, s: State, s': State, formatName: string,
                    a: Account) returns (e: Event)
    requires Start(cl, s0) && Holders(cl, s0, g)
    requires TruthsInv(cl, s0, g, s) && CandidatesFromStart(s0, g, s'.candidates)
    requires s'.clock == s.clock && AccountStep(cl.profile, formatName, s.clock, s, s', a)
    requires ViableNodes(s'.candidates, a) != {} && a in s'.truths && a in g
    ensures e in NewEvents(s, s', a) && e.PushPass?
    ensures IsBest(cl.profile.format, s'.candidates, a, e.source)
    ensures e.targets == Targets(cl.profile, s'.candidates, s'.truths[a], e.source, e.registered)
  {
    var c := NotSuppressed(cl, s0, g, s, s', formatName, a);
    e := PassOf(cl.profile, s'.candidates, formatName, s.clock, s'.clock, a, s.TruthOf(a), s'.TruthOf(a),
                NewEvents(s, s', a), c);
  }

  lemma PastCooldown(cl: Cluster, s0: System, g: map<Account, NodeId>, s: State, a: Account, best: Candidate,
                     since: Time)
    requires TruthsInv(cl, s0, g, s) && since >= s.clock && a in g
    requires Goal(s0, g, a).Some? && best.fingerprint == Sha256(Goal(s0, g, a).value)
    ensures !Suppressed(cl.profile, s.TruthOf(a), best, since)
  {
  }

  predicate StillReflects(cl: Cluster, now: Time, n: NodeId, orig: Option<Bytes>, file: Option<Bytes>, c: Candidate) {
    Reflects(cl, now, n, orig, c) || Reflects(cl, now, n, file, c)
  }

  lemma AfterMediateWell(cl: Cluster, now: Time, reselected: bool, n: NodeId, orig: Option<Bytes>, goal: Option<Bytes>,
                         l: Local, c: Candidate, c': Candidate, taken: Option<nat>, sent: seq<Push>, b: nat)
    requires NodeInv(cl, now, reselected, n, orig, goal, l, c)
    requires taken.Some? ==> taken.value < |l.reports|
    requires StillReflects(cl, now, n, orig, l.file, c')
    requires |sent| <= 1 && forall push <- sent :: GoodPush(goal, push)
    requires goal.Some? && l.file != goal ==> l.pushes != [] || sent != []
    ensures NodeInv(cl, now, true, n, orig, goal, AfterMediate(l, taken, sent), c')
    ensures Weight(goal, b, AfterMediate(l, taken, sent))
            + (if taken.Some? then 2 * b + 1 else 0) <= Weight(goal, b, l) + 2
  {
  }

  /** A node that has not reached its goal has a candidate that does not carry it. */
  lemma BehindIsStale(cl: Cluster, now: Time, n: NodeId, orig: Option<Bytes>, goal: Option<Bytes>, file: Option<Bytes>,
                      c: Candidate)
    requires goal.Some? && file != goal && (file == orig || file == goal)
    requires Reflects(cl, now, n, orig, c) || Reflects(cl, now, n, file, c)
    ensures c.absent || c.fingerprint != Sha256(goal.value)
  {
  }

  lemma ReplaceFromStart(s0: System, g: map<Account, NodeId>, cands: map<NodeId, Candidate>, n: NodeId, c: Candidate)
    requires CandidatesFromStart(s0, g, cands) && n in cands && FromStart(s0, g, n, c)
    ensures CandidatesFromStart(s0, g, cands[n := c])
  {
  }

  lemma CandidatesAfter(cl: Cluster, s0: System, g: map<Account, NodeId>, s: System, s': System, n: NodeId, i: nat)
    returns (file: Option<Bytes>)
    requires Start(cl, s0) && Holders(cl, s0, g)
    requires Inv(cl, s0, g, s) && MediateStep(cl, s, s', n, i)
    ensures Reselects(cl, s.server, s'.server)
    ensures file == s0.nodes[n].file || file == s.nodes[n].file
    ensures s'.server.candidates == s.server.candidates[n := CandidateOf(cl, s0.server.clock, n, file)]
    ensures CandidatesFromStart(s0, g, s'.server.candidates)
  {
    file := ReportedFile(cl, s0, g, s, n, i);
    ReportReselects(cl, s.server, n, file, s'.server);
    InvFromStart(cl, s0, g, s);
    CandidateFromStart(cl, s0, g, n, file, CandidateOf(cl, s0.server.clock, n, file));
    ReplaceFromStart(s0, g, s.server.candidates, n, CandidateOf(cl, s0.server.clock, n, file));
  }

  /** The file that a report in flight describes. */
  lemma ReportedFile(cl: Cluster, s0: System, g: map<Account, NodeId>, s: System, n: NodeId, i: nat)
    returns (file: Option<Bytes>)
    requires Inv(cl, s0, g, s) && n in s.nodes && i < |s.nodes[n].reports|
    ensures s.nodes[n].reports[i] == ReportOf(cl, n, file)
    ensures file == s0.nodes[n].file || file == s.nodes[n].file
    ensures s.nodes[n].file == s0.nodes[n].file || (GoalOf(s0, g, n).Some? && s.nodes[n].file == GoalOf(s0, g, n))
  {
    var l, orig := s.nodes[n], s0.nodes[n].file;
    assert NodeInv(cl, s0.server.clock, s.reselected, n, orig, GoalOf(s0, g, n), l, s.server.candidates[n]);
    assert l.reports[i] in l.reports && IsReport(cl, n, orig, l.file, l.reports[i]);
    file := if l.reports[i] == ReportOf(cl, n, orig) then orig else l.file;
  }

  /** What a reselect sends to a node that has not reached its goal, and to any other. */
  lemma SentToNode(cl: Cluster, s0: System, g: map<Account, NodeId>, s: State, s': State, k: NodeId,
                   file: Option<Bytes>)
    requires Start(cl, s0) && Holders(cl, s0, g)
    requires TruthsInv(cl, s0, g, s) && CandidatesFromStart(s0, g, s'.candidates)
    requires Reselects(cl, s, s') && Faultless(cl, s, s') && k in s0.nodes
    requires file == s0.nodes[k].file || file == GoalOf(s0, g, k)
    requires StillReflects(cl, s0.server.clock, k, s0.nodes[k].file, file, s'.candidates[k])
    ensures |SentTo(s, s', k)| <= 1
    ensures forall push <- SentTo(s, s', k) :: GoodPush(GoalOf(s0, g, k), push)
    ensures GoalOf(s0, g, k).Some? && file != GoalOf(s0, g, k) ==> SentTo(s, s', k) != []
  {
    SentIsGoal(cl, s0, g, s, s', k);
    if GoalOf(s0, g, k).Some? && file != GoalOf(s0, g, k) {
      BehindIsStale(cl, s0.server.clock, k, s0.nodes[k].file, GoalOf(s0, g, k), file, s'.candidates[k]);
      StaleIsSent(cl, s0, g, s, s', k);
    }
  }

  /** The candidates after the report of file `file` by node `n`. */
  lemma ReflectsAfter(cl: Cluster, s0: System, g: map<Account, NodeId>, s: System, cands: map<NodeId, Candidate>,
                      n: NodeId, file: Option<Bytes>, k: NodeId)
    requires s.nodes.Keys == s0.nodes.Keys == s.server.candidates.Keys
    requires n in s.nodes && k in s.nodes
    requires NodeInv(cl, s0.server.clock, s.reselected, k, s0.nodes[k].file, GoalOf(s0, g, k), s.nodes[k],
                     s.server.candidates[k])
    requires (file == s0.nodes[n].file || file == s.nodes[n].file)
    requires cands == s.server.candidates[n := CandidateOf(cl, s0.server.clock, n, file)]
    ensures StillReflects(cl, s0.server.clock, k, s0.nodes[k].file, s.nodes[k].file, cands[k])
  {
    if k == n { assert Reflects(cl, s0.server.clock, n, file, cands[n]); }
  }

  /** Node `k` after a report was handled. */
  lemma MediateNode(cl: Cluster, s0: System, g: map<Account, NodeId>, s: System, server: State, k: NodeId,
                    taken: Option<nat>)
    requires Start(cl, s0) && Holders(cl, s0, g) && s.nodes.Keys == s0.nodes.Keys == s.server.candidates.Keys
    requires TruthsInv(cl, s0, g, s.server) && CandidatesFromStart(s0, g, server.candidates)
    requires Reselects(cl, s.server, server) && Faultless(cl, s.server, server)
    requires k in s.nodes && k in server.candidates
    requires NodeInv(cl, s0.server.clock, s.reselected, k, s0.nodes[k].file, GoalOf(s0, g, k), s.nodes[k],
                     s.server.candidates[k])
    requires StillReflects(cl, s0.server.clock, k, s0.nodes[k].file, s.nodes[k].file, server.candidates[k])
    requires taken.Some? ==> taken.value < |s.nodes[k].reports|
    ensures var l' := AfterMediate(s.nodes[k], taken, SentTo(s.server, server, k));
            && NodeInv(cl, s0.server.clock, true, k, s0.nodes[k].file, GoalOf(s0, g, k), l', server.candidates[k])
            && Weight(GoalOf(s0, g, k), |s.nodes|, l') + (if taken.Some? then 2 * |s.nodes| + 1 else 0)
               <= Weight(GoalOf(s0, g, k), |s.nodes|, s.nodes[k]) + 2
  {
    var l, orig, goal := s.nodes[k], s0.nodes[k].file, GoalOf(s0, g, k);
    var c, c' := s.server.candidates[k], server.candidates[k];
    SentToNode(cl, s0, g, s.server, server, k, l.file);
    AfterMediateWell(cl, s0.server.clock, s.reselected, k, orig, goal, l, c, c', taken, SentTo(s.server, server, k),
                     |s.nodes|);
  }

  lemma MediateKeeps(cl: Cluster, s0: System, g: map<Account, NodeId>, s: System, s': System, n: NodeId, i: nat)
    requires Start(cl, s0) && Holders(cl, s0, g)
    requires Inv(cl, s0, g, s) && MediateStep(cl, s, s', n, i)
    ensures Inv(cl, s0, g, s')
    ensures Measure(s0, g, s') < Measure(s0, g, s)
  {
    var file := CandidatesAfter(cl, s0, g, s, s', n, i);
    TruthsAreGoals(cl, s0, g, s.server, s'.server);
    forall k <- s.nodes
      ensures k in s'.nodes && k in s'.server.candidates
      ensures NodeInv(cl, s0.server.clock, true, k, s0.nodes[k].file, GoalOf(s0, g, k), s'.nodes[k],
                      s'.server.candidates[k])
      ensures Lighter(s0, g, |s.nodes|, s, s', k, true, if k == n then 2 * |s.nodes| + 1 else 0)
    {
      ReflectsAfter(cl, s0, g, s, s'.server.candidates, n, file, k);
      MediateNode(cl, s0, g, s, s'.server, k, if k == n then Some(i) else None);
    }
    MediateLighter(s0, g, s, s', n);
  }

  lemma MediateLighter(s0: System, g: map<Account, NodeId>, s: System, s': System, n: NodeId)
    requires n in s.nodes && s'.nodes.Keys == s.nodes.Keys
    requires forall k <- s.nodes :: Lighter(s0, g, |s.nodes|, s, s', k, true, if k == n then 2 * |s.nodes| + 1 else 0)
    ensures Measure(s0, g, s') < Measure(s0, g, s)
  {
    var xs := Sorted(s.nodes.Keys);
    ListingLength(xs, s.nodes.Keys);
    assert |s'.nodes| == |s'.nodes.Keys| == |s.nodes.Keys| == |s.nodes|;
    forall k <- xs
      ensures Lighter(s0, g, |s.nodes|, s, s', k, true, 0)
    {
      assert Lighter(s0, g, |s.nodes|, s, s', k, true, if k == n then 2 * |s.nodes| + 1 else 0);
    }
    TotalDrops(s0, g, |s.nodes|, s, s', xs, n, true, 2 * |s.nodes| + 1);
  }
}
