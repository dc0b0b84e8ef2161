/** Every run of the system is finite and ends with each account's files equal to its freshest
    snapshot. */
module Convergence {
  import opened Formats
  import opened Listing
  import opened MediatorSpec
  import opened MediatorLaws
  import opened ApplySpec
  import opened ClusterSystem
  import opened ClusterSteps
  import MediatorRuns

  // ---------------------------------------------------------------- theorems

  lemma StepKeeps(cl: Cluster, s0: System, g: map<Account, NodeId>, s: System, s': System)
    requires Start(cl, s0) && Holders(cl, s0, g)
    requires Inv(cl, s0, g, s) && Step(cl, s, s')
    ensures Inv(cl, s0, g, s')
    ensures Measure(s0, g, s') < Measure(s0, g, s)
  {
    if n: NodeId :| SendReportStep(cl, s, s', n) {
      ReportKeeps(cl, s0, g, s, s', n);
    } else if n: NodeId :| ApplyStep(s, s', n) {
      ApplyKeeps(cl, s0, g, s, s', n);
    } else if n: NodeId, i: nat :| AckStep(cl, s, s', n, i) {
      AckKeeps(cl, s0, g, s, s', n, i);
    } else {
      var n: NodeId, i: nat :| MediateStep(cl, s, s', n, i);
      MediateKeeps(cl, s0, g, s, s', n, i);
    }
  }

  lemma {:induction false} RunKeeps(cl: Cluster, run: seq<System>, g: map<Account, NodeId>, i: nat)
    requires IsRun(cl, run) && Start(cl, run[0]) && Holders(cl, run[0], g) && i < |run|
    ensures Inv(cl, run[0], g, run[i])
    ensures Measure(run[0], g, run[i]) + i <= Measure(run[0], g, run[0])
  {
    if i == 0 {
      StartInv(cl, run[0], g);
    } else {
      RunKeeps(cl, run, g, i - 1);
      StepKeeps(cl, run[0], g, run[i - 1], run[i]);
    }
  }

  /** Some candidate of a non-empty set is not beaten. */
  lemma {:induction false} BestExists(f: Format, cands: map<NodeId, Candidate>, among: set<NodeId>)
    returns (best: NodeId)
    requires among != {} && forall n <- among :: n in cands && cands[n].snap.Some?
    ensures best in among && forall m <- among :: Compare(f, cands[m].snap.value, cands[best].snap.value) <= 0
    decreases among
  {
    best :| best in among;
    if among != {best} {
      var rest := BestExists(f, cands, among - {best});
      CompareIsTotalPreorder(f);
      if Compare(f, cands[rest].snap.value, cands[best].snap.value) > 0 { best := rest; }
    }
  }

  lemma HoldersExist(cl: Cluster, s0: System) returns (g: map<Account, NodeId>)
    ensures Holders(cl, s0, g)
  {
    var cands := s0.server.candidates;
    var accounts := set n | n in cands && IsViable(cands[n]) && !Held(cl, s0, cands[n].account) :: cands[n].account;
    forall a <- accounts
      ensures ViableNodes(cands, a) != {} && exists n: NodeId :: IsBest(cl.profile.format, cands, a, n)
    {
      var x :| x in cands && IsViable(cands[x]) && cands[x].account == a;
      assert x in ViableNodes(cands, a);
      var n := BestExists(cl.profile.format, cands, ViableNodes(cands, a));
      assert IsBest(cl.profile.format, cands, a, n);
    }
    g := map a | a in accounts :: var n: NodeId :| IsBest(cl.profile.format, cands, a, n); n;
    forall a: Account | ViableNodes(cands, a) != {} && !Held(cl, s0, a)
      ensures a in accounts
    {
      var n :| n in ViableNodes(cands, a);
      assert n in cands && IsViable(cands[n]) && cands[n].account == a;
    }
  }

  ghost predicate Bounded(cl: Cluster, s0: System, bound: nat) {
    forall run: seq<System> | IsRun(cl, run) && run[0] == s0 :: |run| <= bound
  }

  /** From a started system there are only finitely many steps: the bound is fixed by the
      start and does not depend on the run. */
  lemma RunsAreFinite(cl: Cluster, s0: System) returns (bound: nat)
    requires Start(cl, s0)
    ensures Bounded(cl, s0, bound)
  {
    var g := HoldersExist(cl, s0);
    bound := Measure(s0, g, s0) + 1;
    forall run: seq<System> | IsRun(cl, run) && run[0] == s0
      ensures |run| <= bound
    {
      RunKeeps(cl, run, g, |run| - 1);
    }
  }

  /** Every push in flight carries the bytes of a freshest candidate of its node's account. */
  lemma PushesCarryTheFreshest(cl: Cluster, run: seq<System>, i: nat, n: NodeId, push: Push)
    requires IsRun(cl, run) && Start(cl, run[0]) && i < |run|
    requires n in run[i].nodes && push in run[i].nodes[n].pushes
    ensures n in run[0].nodes
    ensures exists m: NodeId ::
              && IsBest(cl.profile.format, run[0].server.candidates, run[0].server.candidates[n].account, m)
              && m in run[0].nodes && GoodPush(run[0].nodes[m].file, push)
  {
    var s0 := run[0];
    var g := HoldersExist(cl, s0);
    RunKeeps(cl, run, g, i);
    PushCarriesGoal(cl, s0, g, run[i], n, push);
    var a := s0.server.candidates[n].account;
    assert IsBest(cl.profile.format, s0.server.candidates, a, g[a]);
  }

  lemma PushCarriesGoal(cl: Cluster, s0: System, g: map<Account, NodeId>, s: System, n: NodeId, push: Push)
    requires Inv(cl, s0, g, s) && n in s.nodes && push in s.nodes[n].pushes
    ensures GoodPush(GoalOf(s0, g, n), push)
  {
  }

  /** The nodes that do not hold their account's freshest bytes yet. */
  ghost function Behind(s0: System, g: map<Account, NodeId>, s: System): set<NodeId> {
    set n | n in s.nodes && GoalOf(s0, g, n).Some? && s.nodes[n].file != GoalOf(s0, g, n)
  }

  /** An apply at a node takes that node, and no other, out of the set. */
  lemma ApplyCatchesUp(cl: Cluster, s0: System, g: map<Account, NodeId>, s: System, s': System, n: NodeId)
    requires Inv(cl, s0, g, s) && ApplyStep(s, s', n)
    ensures Behind(s0, g, s') == Behind(s0, g, s) - {n}
  {
    AppliedGoal(cl, s0, g, s, n);
    CaughtUp(s0, g, s, s', n);
  }

  lemma AppliedGoal(cl: Cluster, s0: System, g: map<Account, NodeId>, s: System, n: NodeId)
    requires Inv(cl, s0, g, s) && n in s.nodes && s.nodes[n].pushes != []
    ensures AfterApply(n, s.nodes[n]).file == GoalOf(s0, g, n)
  {
    AfterApplyWell(cl, s0.server.clock, s.reselected, n, s0.nodes[n].file, GoalOf(s0, g, n), s.nodes[n],
                   s.server.candidates[n], |s.nodes|);
  }

  lemma CaughtUp(s0: System, g: map<Account, NodeId>, s: System, s': System, n: NodeId)
    requires n in s.nodes && n in s'.nodes && s'.nodes == s.nodes[n := s'.nodes[n]]
    requires s'.nodes[n].file == GoalOf(s0, g, n)
    ensures Behind(s0, g, s') == Behind(s0, g, s) - {n}
  {
  }

  ghost predicate SameFiles(s: System, s': System) {
    s'.nodes.Keys == s.nodes.Keys && forall n <- s.nodes :: s'.nodes[n].file == s.nodes[n].file
  }

  /** No other step changes a file. */
  lemma OnlyAppliesWrite(cl: Cluster, s: System, s': System)
    requires Step(cl, s, s') && !(exists n: NodeId :: ApplyStep(s, s', n))
    ensures SameFiles(s, s')
  {
  }

  /** So the set only ever shrinks. */
  lemma BehindShrinks(cl: Cluster, s0: System, g: map<Account, NodeId>, s: System, s': System)
    requires Inv(cl, s0, g, s) && Step(cl, s, s')
    ensures Behind(s0, g, s') <= Behind(s0, g, s)
  {
    if n: NodeId :| ApplyStep(s, s', n) {
      ApplyCatchesUp(cl, s0, g, s, s', n);
    } else {
      OnlyAppliesWrite(cl, s, s');
    }
  }

  // ---------------------------------------------------------------- progress

  datatype Outcome = Outcome(next: Option<Truth>, events: seq<Event>)

  /** A possible outcome of the selection for one account, with no faults. */
  ghost predicate Resolves(p: Profile, cands: map<NodeId, Candidate>, formatName: string, now: Time,
                           registered: set<NodeId>,
                           a: Account, prev: Option<Truth>, r: Outcome)
  {
    && Reconciled(p, cands, formatName, now, now, a, prev, r.next, r.events)
    && forall e <- r.events | e.PushPass? :: e.registered == registered && e.sent == e.targets
  }

  lemma OutcomeExists(p: Profile, cands: map<NodeId, Candidate>, formatName: string, now: Time, registered: set<NodeId>,
                      a: Account, prev: Option<Truth>) returns (r: Outcome)
    ensures Resolves(p, cands, formatName, now, registered, a, prev, r)
  {
    if ViableNodes(cands, a) == {} {
      r := Outcome(None, Losses(p, cands, a, prev));
    } else {
      var best := BestExists(p.format, cands, ViableNodes(cands, a));
      var c := Choice(best, now, now, registered, {});
      var next := TruthAfter(p, formatName, a, prev, cands[best], c);
      if Suppressed(p, prev, cands[best], now) {
        r := Outcome(next, []);
      } else {
        c := c.(sent := Targets(p, cands, next.value, best, registered));
        r := Outcome(next, Announcements(p, cands, prev, next.value, best)
                     + Propagation(p, cands, prev, next.value, c));
      }
      assert Decides(p, cands, formatName, now, now, a, prev, r.next, r.events, c);
    }
  }

  ghost function OutcomeOf(p: Profile, cands: map<NodeId, Candidate>, formatName: string, now: Time,
                           registered: set<NodeId>,
                           a: Account, prev: Option<Truth>): (r: Outcome)
    ensures Resolves(p, cands, formatName, now, registered, a, prev, r)
  {
    assert exists r: Outcome :: Resolves(p, cands, formatName, now, registered, a, prev, r) by {
      var r := OutcomeExists(p, cands, formatName, now, registered, a, prev);
    }
    var r: Outcome :| Resolves(p, cands, formatName, now, registered, a, prev, r);
    r
  }

  /** The state in which every account has had its outcome. */
  ghost function Assembled(cands: map<NodeId, Candidate>, s: State, resolved: map<Account, Outcome>): State {
    var truths := map a | a in resolved && resolved[a].next.Some? :: resolved[a].next.value;
    var history := map a | a in resolved :: s.EventsOf(a) + resolved[a].events;
    State(cands, truths, MirrorOf(truths, cands), history, s.clock)
  }

  lemma ResolvedReached(cl: Cluster, formatName: string, cands: map<NodeId, Candidate>, s: State,
                        resolved: map<Account, Outcome>, a: Account)
    requires a in resolved ==> Resolves(cl.profile, cands, formatName, s.clock, cl.registered, a, s.TruthOf(a),
                                        resolved[a])
    requires a !in resolved ==> a !in s.truths && a !in s.history && forall n <- cands :: cands[n].account != a
    ensures var s' := Assembled(cands, s, resolved);
            && AccountStep(cl.profile, formatName, s.clock, s, s', a)
            && forall e <- Appended(s, s', a) | e.PushPass? :: e.registered == cl.registered && e.sent == e.targets
  {
  }

  /** A reselect is always possible, at a standing clock and without faults. */
  lemma ReselectExists(cl: Cluster, formatName: string, cands: map<NodeId, Candidate>, s: State) returns (s': State)
    ensures Reselect(cl.profile, formatName, cands, s, s')
    ensures s'.clock == s.clock && Faultless(cl, s, s')
  {
    var accounts := s.truths.Keys + s.history.Keys + set n | n in cands :: cands[n].account;
    var resolved := map a | a in accounts ::
        OutcomeOf(cl.profile, cands, formatName, s.clock, cl.registered, a, s.TruthOf(a));
    s' := Assembled(cands, s, resolved);
    forall a: Account
      ensures AccountStep(cl.profile, formatName, s.clock, s, s', a)
      ensures forall e <- Appended(s, s', a) | e.PushPass? :: e.registered == cl.registered && e.sent == e.targets
    {
      ResolvedReached(cl, formatName, cands, s, resolved, a);
    }
  }

  lemma ReportCanBeMediated(cl: Cluster, s: State, n: NodeId, file: Option<Bytes>) returns (s': State)
    requires cl.profile.parse([]) == None
    ensures Next(cl.profile, s, ReportOf(cl, n, file), s')
    ensures s'.clock == s.clock && Faultless(cl, s, s')
  {
    var m := ReportOf(cl, n, file);
    if Readable(cl.profile, file) {
      var snap := Snapshot(cl.profile.parse(file.value).value, file.value);
      s' := ReselectExists(cl, m.format, s.candidates[n := CandidateOf(cl, s.clock, n, file)], s);
      assert ValidatedAt(cl.profile, s, m, snap, s', s.clock);
    } else {
      s' := ReselectExists(cl, cl.profile.formatName, s.candidates[n := CandidateOf(cl, s.clock, n, file)], s);
    }
  }

  /** As long as something is left to do, some step is possible. */
  lemma NotStuck(cl: Cluster, s0: System, g: map<Account, NodeId>, s: System) returns (s': System)
    requires Start(cl, s0) && Inv(cl, s0, g, s) && !s.Quiet()
    ensures Step(cl, s, s')
  {
    var n :| n in s.nodes && !s.nodes[n].Quiet();
    if s.nodes[n].changed {
      s' := CanReport(cl, s, n);
    } else if s.nodes[n].pushes != [] {
      s' := CanApply(cl, s, n);
    } else if s.nodes[n].acks != [] {
      FirstAck(cl, s0, g, s, n);
      s' := CanAcknowledge(cl, s, n);
    } else {
      s' := CanMediate(cl, s0, g, s, n);
    }
  }

  lemma CanReport(cl: Cluster, s: System, n: NodeId) returns (s': System)
    requires n in s.nodes && s.nodes[n].changed
    ensures Step(cl, s, s')
  {
    s' := s.(nodes := s.nodes[n := AfterReport(cl, n, s.nodes[n])]);
    assert SendReportStep(cl, s, s', n);
  }

  lemma CanApply(cl: Cluster, s: System, n: NodeId) returns (s': System)
    requires n in s.nodes && s.nodes[n].pushes != []
    ensures Step(cl, s, s')
  {
    s' := s.(nodes := s.nodes[n := AfterApply(n, s.nodes[n])]);
    assert ApplyStep(s, s', n);
  }

  lemma FirstAck(cl: Cluster, s0: System, g: map<Account, NodeId>, s: System, n: NodeId)
    requires Inv(cl, s0, g, s) && n in s.nodes && s.nodes[n].acks != []
    ensures IsAck(n, s.nodes[n].acks[0])
  {
    assert NodeInv(cl, s0.server.clock, s.reselected, n, s0.nodes[n].file, GoalOf(s0, g, n), s.nodes[n],
                   s.server.candidates[n]);
    assert s.nodes[n].acks[0] in s.nodes[n].acks;
  }

  lemma CanMediate(cl: Cluster, s0: System, g: map<Account, NodeId>, s: System, n: NodeId) returns (s': System)
    requires Start(cl, s0) && Inv(cl, s0, g, s) && n in s.nodes && s.nodes[n].reports != []
    ensures Step(cl, s, s')
  {
    var file := ReportedFile(cl, s0, g, s, n, 0);
    var server := ReportCanBeMediated(cl, s.server, n, file);
    s' := Mediated(cl, s, server, n);
  }

  lemma Mediated(cl: Cluster, s: System, server: State, n: NodeId) returns (s': System)
    requires n in s.nodes && s.nodes[n].reports != []
    requires Next(cl.profile, s.server, s.nodes[n].reports[0], server)
    requires server.clock == s.server.clock && Faultless(cl, s.server, server)
    ensures Step(cl, s, s')
  {
    s' := System(server, map k | k in s.nodes ::
                 AfterMediate(s.nodes[k], if k == n then Some(0) else None, SentTo(s.server, server, k)), true);
    assert MediateStep(cl, s, s', n, 0);
  }

  lemma CanAcknowledge(cl: Cluster, s: System, n: NodeId) returns (s': System)
    requires n in s.nodes && s.nodes[n].acks != [] && IsAck(n, s.nodes[n].acks[0])
    ensures Step(cl, s, s')
  {
    var l := s.nodes[n];
    var server := s.server.(candidates := s.server.candidates[n := AckedCandidate(s.server.candidates, l.acks[0])]);
    s' := System(server, s.nodes[n := l.(acks := Without(l.acks, 0))], s.reselected);
    assert AckStep(cl, s, s', n, 0);
  }

  /** A maximal run, after which no step is possible, ends with every node of an account that
      had a viable candidate and is not held back holding, byte for byte, the file of any of
      the account's freshest nodes. */
  lemma RunsConverge(cl: Cluster, run: seq<System>, n: NodeId, m: NodeId)
    requires IsRun(cl, run) && Start(cl, run[0]) && Stuck(cl, run[|run| - 1])
    requires n in run[0].nodes && !Held(cl, run[0], run[0].server.candidates[n].account)
    requires IsBest(cl.profile.format, run[0].server.candidates, run[0].server.candidates[n].account, m)
    ensures n in run[|run| - 1].nodes && m in run[0].nodes
    ensures run[|run| - 1].nodes[n].file == run[0].nodes[m].file
  {
    var s0, s := run[0], run[|run| - 1];
    var g := HoldersExist(cl, s0);
    RunKeeps(cl, run, g, |run| - 1);
    if !s.Quiet() {
      var s' := NotStuck(cl, s0, g, s);
    }
    QuietEnding(cl, s0, g, s, n, m);
  }

  /** In particular from any state that the mediator can reach. */
  lemma ReachableRunsConverge(cl: Cluster, run: seq<System>, n: NodeId, m: NodeId, states: seq<State>,
                              messages: seq<Message>, i: nat)
    requires MediatorRuns.IsRun(cl.profile, states, messages) && i <= |messages|
    requires IsRun(cl, run) && Ready(cl, run[0]) && run[0].server == states[i] && Stuck(cl, run[|run| - 1])
    requires n in run[0].nodes && !Held(cl, run[0], run[0].server.candidates[n].account)
    requires IsBest(cl.profile.format, run[0].server.candidates, run[0].server.candidates[n].account, m)
    ensures n in run[|run| - 1].nodes && m in run[0].nodes
    ensures run[|run| - 1].nodes[n].file == run[0].nodes[m].file
  {
    ReachableTruthsAreSound(cl.profile, states, messages, i);
    RunsConverge(cl, run, n, m);
  }

  lemma QuietEnding(cl: Cluster, s0: System, g: map<Account, NodeId>, s: System, n: NodeId, m: NodeId)
    requires Start(cl, s0) && Holders(cl, s0, g) && Inv(cl, s0, g, s) && s.Quiet() && n in s0.nodes
    requires IsBest(cl.profile.format, s0.server.candidates, s0.server.candidates[n].account, m)
    requires !Held(cl, s0, s0.server.candidates[n].account)
    ensures n in s.nodes && m in s0.nodes && s.nodes[n].file == s0.nodes[m].file
  {
    QuietMeansDone(cl, s0, g, s, n);
    AnyFreshestIsGoal(cl, s0, g, s0.server.candidates[n].account, m);
  }

  lemma QuietMeansDone(cl: Cluster, s0: System, g: map<Account, NodeId>, s: System, n: NodeId)
    requires Inv(cl, s0, g, s) && s.Quiet() && n in s0.nodes
    ensures n in s.nodes && (GoalOf(s0, g, n).Some? ==> s.nodes[n].file == GoalOf(s0, g, n))
  {
  }

  lemma AnyFreshestIsGoal(cl: Cluster, s0: System, g: map<Account, NodeId>, a: Account, m: NodeId)
    requires Start(cl, s0) && Holders(cl, s0, g) && IsBest(cl.profile.format, s0.server.candidates, a, m)
    requires !Held(cl, s0, a)
    ensures m in s0.nodes && Goal(s0, g, a).Some? && s0.nodes[m].file == Goal(s0, g, a)
  {
    assert m in ViableNodes(s0.server.candidates, a);
    assert g[a] in ViableNodes(s0.server.candidates, a);
    BestsAgree(cl.profile.format, s0.server.candidates, a, m, g[a]);
    FreshestIsGoal(cl, s0, g, a, m);
    assert Reflects(cl, s0.server.clock, m, s0.nodes[m].file, s0.server.candidates[m]);
  }

  lemma RunExtends(cl: Cluster, run: seq<System>, s': System)
    requires IsRun(cl, run) && Step(cl, run[|run| - 1], s')
    ensures IsRun(cl, run + [s'])
  {
    var all := run + [s'];
    forall i, j | 0 <= i < j < |all| && j == i + 1
      ensures Step(cl, all[i], all[j])
    {
      if j < |run| { assert Step(cl, run[i], run[j]); }
    }
  }

  lemma CarriedOn(cl: Cluster, run: seq<System>) returns (more: seq<System>)
    requires IsRun(cl, run) && !Stuck(cl, run[|run| - 1])
    ensures more != [] && more[0] == run[0] && |more| == |run| + 1 && IsRun(cl, more)
  {
    var last := run[|run| - 1];
    var s': System :| Step(cl, last, s');
    RunExtends(cl, run, s');
    more := run + [s'];
  }

  /** Every run from a started system can be carried on until no step is possible. */
  lemma {:induction false} RunsComplete(cl: Cluster, run: seq<System>, bound: nat) returns (full: seq<System>)
    requires IsRun(cl, run) && Bounded(cl, run[0], bound)
    ensures full != [] && full[0] == run[0] && IsRun(cl, full) && Stuck(cl, full[|full| - 1])
    decreases bound - |run|
  {
    full := run;
    if !Stuck(cl, run[|run| - 1]) {
      var more := CarriedOn(cl, run);
      full := RunsComplete(cl, more, bound);
    }
  }

  // ------------------------------------------------ when exactly an account converges

  /** While an account is held back its files stay as they are, and nothing is pushed for it. */
  lemma HeldFilesStay(cl: Cluster, run: seq<System>, i: nat, n: NodeId)
    requires IsRun(cl, run) && Start(cl, run[0]) && i < |run|
    requires n in run[0].nodes && Held(cl, run[0], run[0].server.candidates[n].account)
    ensures n in run[i].nodes && run[i].nodes[n].file == run[0].nodes[n].file && run[i].nodes[n].pushes == []
  {
    var s0, s := run[0], run[i];
    var g := HoldersExist(cl, s0);
    RunKeeps(cl, run, g, i);
    assert NodeInv(cl, s0.server.clock, s.reselected, n, s0.nodes[n].file, GoalOf(s0, g, n), s.nodes[n],
                   s.server.candidates[n]);
    HeldNode(cl, s0.server.clock, s.reselected, n, s0.nodes[n].file, s.nodes[n], s.server.candidates[n]);
  }

  lemma HeldNode(cl: Cluster, now: Time, reselected: bool, n: NodeId, orig: Option<Bytes>, l: Local, c: Candidate)
    requires NodeInv(cl, now, reselected, n, orig, None, l, c)
    ensures l.file == orig && l.pushes == []
  {
    if l.pushes != [] { FirstIn(l.pushes); }
  }

  lemma FirstIn(pushes: seq<Push>)
    requires pushes != []
    ensures exists push :: push in pushes
  {
    assert pushes[0] in pushes;
  }

  /** All nodes of the account hold these bytes. */
  ghost predicate AllHold(s0: System, a: Account, s: System, file: Option<Bytes>) {
    forall n <- InAccount(s0.server.candidates, a) :: n in s.nodes && s.nodes[n].file == file
  }

  ghost predicate AlwaysConverges(cl: Cluster, s0: System, a: Account, file: Option<Bytes>) {
    forall run: seq<System> | IsRun(cl, run) && run[0] == s0 && Stuck(cl, run[|run| - 1]) ::
      AllHold(s0, a, run[|run| - 1], file)
  }

  /** Held back or not, in terms of any freshest candidate. */
  lemma HeldBy(cl: Cluster, s0: System, a: Account, m: NodeId)
    requires Start(cl, s0) && IsBest(cl.profile.format, s0.server.candidates, a, m)
    ensures !Held(cl, s0, a) <==>
            || Free(cl.profile, s0.server.TruthOf(a), s0.server.clock)
            || s0.server.truths[a].fingerprint == s0.server.candidates[m].fingerprint
  {
    var cands := s0.server.candidates;
    forall n: NodeId | IsBest(cl.profile.format, cands, a, n)
      ensures cands[n].fingerprint == cands[m].fingerprint
    {
      BestsAgree(cl.profile.format, cands, a, n, m);
    }
  }

  lemma FreeConverges(cl: Cluster, s0: System, a: Account, m: NodeId)
    requires Start(cl, s0) && IsBest(cl.profile.format, s0.server.candidates, a, m) && m in s0.nodes
    requires !Held(cl, s0, a)
    ensures AlwaysConverges(cl, s0, a, s0.nodes[m].file)
  {
    forall run: seq<System>, n | IsRun(cl, run) && run[0] == s0 && Stuck(cl, run[|run| - 1])
                                 && n in InAccount(s0.server.candidates, a)
      ensures n in run[|run| - 1].nodes && run[|run| - 1].nodes[n].file == s0.nodes[m].file
    {
      RunsConverge(cl, run, n, m);
    }
  }

  lemma HeldEndsAsItStarts(cl: Cluster, run: seq<System>, a: Account, file: Option<Bytes>)
    requires IsRun(cl, run) && Start(cl, run[0]) && Held(cl, run[0], a)
    ensures AllHold(run[0], a, run[|run| - 1], file) <==> AllHold(run[0], a, run[0], file)
  {
    forall n <- InAccount(run[0].server.candidates, a)
      ensures n in run[0].nodes && n in run[|run| - 1].nodes && run[|run| - 1].nodes[n].file == run[0].nodes[n].file
    {
      HeldFilesStay(cl, run, |run| - 1, n);
    }
  }

  /** All maximal runs from a start make an account's files equal to that of a freshest node if
      and only if no cooldown holds back the account's truth, or it names these bytes already,
      or all the files have them already. */
  lemma ConvergesExactly(cl: Cluster, s0: System, a: Account, m: NodeId)
    requires Start(cl, s0) && IsBest(cl.profile.format, s0.server.candidates, a, m)
    ensures m in s0.nodes
    ensures AlwaysConverges(cl, s0, a, s0.nodes[m].file) <==>
            || Free(cl.profile, s0.server.TruthOf(a), s0.server.clock)
            || s0.server.truths[a].fingerprint == s0.server.candidates[m].fingerprint
            || AllHold(s0, a, s0, s0.nodes[m].file)
  {
    assert m in s0.nodes;
    HeldBy(cl, s0, a, m);
    if !Held(cl, s0, a) {
      FreeConverges(cl, s0, a, m);
    } else {
      HeldConverges(cl, s0, a, s0.nodes[m].file);
    }
  }

  lemma HeldConverges(cl: Cluster, s0: System, a: Account, file: Option<Bytes>)
    requires Start(cl, s0) && Held(cl, s0, a)
    ensures AlwaysConverges(cl, s0, a, file) <==> AllHold(s0, a, s0, file)
  {
    var bound := RunsAreFinite(cl, s0);
    var full := RunsComplete(cl, [s0], bound);
    assert full[0] == s0;
    HeldEndsAsItStarts(cl, full, a, file);
    forall run: seq<System> | IsRun(cl, run) && run[0] == s0 && Stuck(cl, run[|run| - 1])
      ensures AllHold(s0, a, run[|run| - 1], file) <==> AllHold(s0, a, s0, file)
    {
      HeldEndsAsItStarts(cl, run, a, file);
    }
  }

  // ----------------------------------------------------------------- an example

  /** Two nodes of one account, the file of the second fresher than that of the first. */
  const EXAMPLE_CLUSTER: Cluster := Cluster(
    Profile("p", "f", Claude, "", 0, false, false, (b: Bytes) => if b == [] then None else Some(Times(b[0] as int, 0))),
    {"x", "y"},
    (n: NodeId, file: Option<Bytes>) => "a",
    (n: NodeId, b: Bytes) => "")

  function ExampleNode(file: Bytes): Local {
    Local(Some(file), true, [], [], [])
  }

  function ExampleStart(): System {
    var cands := map["x" := CandidateOf(EXAMPLE_CLUSTER, 0, "x", Some([1])),
                     "y" := CandidateOf(EXAMPLE_CLUSTER, 0, "y", Some([2]))];
    System(State(cands, map[], map[], map[], 0), map["x" := ExampleNode([1]), "y" := ExampleNode([2])], false)
  }

  /** The theorems speak of something: this system is started, and its first node has to
      take over the file of its second. */
  lemma ExampleConverges() returns (run: seq<System>)
    ensures IsRun(EXAMPLE_CLUSTER, run) && run[0] == ExampleStart() && Start(EXAMPLE_CLUSTER, run[0])
    ensures Stuck(EXAMPLE_CLUSTER, run[|run| - 1])
    ensures "x" in run[|run| - 1].nodes && run[|run| - 1].nodes["x"].file == Some([2])
  {
    var s0 := ExampleStart();
    ExampleStarts();
    ExampleTies();
    var bound := RunsAreFinite(EXAMPLE_CLUSTER, s0);
    run := RunsComplete(EXAMPLE_CLUSTER, [s0], bound);
    assert run[0] == s0;
    RunsConverge(EXAMPLE_CLUSTER, run, "x", "y");
  }

  lemma ExampleViable()
    ensures var cands := ExampleStart().server.candidates;
            forall a: Account :: ViableNodes(cands, a) == if a == "a" then {"x", "y"} else {}
  {
    var cands := ExampleStart().server.candidates;
    assert IsViable(cands["x"]) && IsViable(cands["y"]) && cands["x"].account == cands["y"].account == "a";
  }

  /** Equally fresh means the same node, and every node derives the one account. */
  lemma ExampleAgrees(a: Account, n: NodeId, m: NodeId)
    requires var cands := ExampleStart().server.candidates; n in ViableNodes(cands, a) && m in ViableNodes(cands, a)
    ensures var cands := ExampleStart().server.candidates;
            && a == "a"
            && (Compare(Claude, cands[n].snap.value, cands[m].snap.value) == 0 ==> n == m)
            && (m == "y" ==> Compare(Claude, cands[n].snap.value, cands[m].snap.value) <= 0)
  {
    var cands := ExampleStart().server.candidates;
    ExampleViable();
    assert cands["x"].snap.value.times.exp == 1 && cands["y"].snap.value.times.exp == 2;
  }

  lemma ExampleTies()
    ensures var cands := ExampleStart().server.candidates;
            TiesAgree(Claude, cands) && IsBest(Claude, cands, "a", "y")
  {
    var cands := ExampleStart().server.candidates;
    ExampleViable();
    forall a: Account, n: NodeId, m: NodeId | n in ViableNodes(cands, a) && m in ViableNodes(cands, a)
      ensures Compare(Claude, cands[n].snap.value, cands[m].snap.value) == 0
              ==> cands[n].fingerprint == cands[m].fingerprint
    {
      ExampleAgrees(a, n, m);
    }
    forall n | n in ViableNodes(cands, "a")
      ensures Compare(Claude, cands[n].snap.value, cands["y"].snap.value) <= 0
    {
      ExampleAgrees("a", n, "y");
    }
  }

  lemma ExampleAccounts()
    ensures AccountsStay(EXAMPLE_CLUSTER, ExampleStart())
  {
    ExampleViable();
  }

  lemma ExampleStarts()
    ensures Start(EXAMPLE_CLUSTER, ExampleStart())
  {
    var s0 := ExampleStart();
    ExampleTies();
    ExampleAccounts();
    assert "x" in s0.nodes && s0.nodes["x"].changed;
  }

  /** The same two files, and a truth that is still cooling down and names neither. */
  const COOLING_CLUSTER: Cluster := WithCooldown(EXAMPLE_CLUSTER, 1)

  function CoolingStart(): System {
    var s0 := ExampleStart();
    s0.(server := s0.server.(truths := map["a" := Truth("a", Sha256([3]), 0, "", Text([3]), "f", 0)]))
  }

  /** Nothing tells the mediator that a cooldown is over, so this system comes to rest with
      its two files as different as they were. */
  lemma CoolingDiverges()
    ensures Start(COOLING_CLUSTER, CoolingStart())
    ensures IsBest(Claude, CoolingStart().server.candidates, "a", "y")
    ensures !AlwaysConverges(COOLING_CLUSTER, CoolingStart(), "a", Some([2]))
  {
    var s0 := CoolingStart();
    ExampleStarts();
    ExampleTies();
    OtherTruths(EXAMPLE_CLUSTER, ExampleStart(), 1, s0.server.truths);
    assert "x" in InAccount(s0.server.candidates, "a") && s0.nodes["x"].file != Some([2]);
    ConvergesExactly(COOLING_CLUSTER, s0, "a", "y");
  }

  function WithCooldown(cl: Cluster, cooldown: Time): Cluster {
    cl.(profile := cl.profile.(cooldown := cooldown))
  }

  /** A start asks of the truths only that they are sound. */
  lemma OtherTruths(cl: Cluster, s0: System, cooldown: Time, truths: map<Account, Truth>)
    requires Start(cl, s0) && forall a <- truths :: SoundTruth(a, truths[a])
    ensures Start(WithCooldown(cl, cooldown), s0.(server := s0.server.(truths := truths)))
  {
    forall n <- s0.nodes
      ensures Reflects(WithCooldown(cl, cooldown), s0.server.clock, n, s0.nodes[n].file, s0.server.candidates[n])
    {
      SameCandidate(cl, cooldown, s0.server.clock, n, s0.nodes[n].file);
    }
    OtherAccounts(cl, s0, cooldown, truths);
  }

  lemma OtherAccounts(cl: Cluster, s0: System, cooldown: Time, truths: map<Account, Truth>)
    requires AccountsStay(cl, s0)
    ensures AccountsStay(WithCooldown(cl, cooldown), s0.(server := s0.server.(truths := truths)))
  {
  }

  lemma SameCandidate(cl: Cluster, cooldown: Time, now: Time, n: NodeId, file: Option<Bytes>)
    ensures CandidateOf(WithCooldown(cl, cooldown), now, n, file) == CandidateOf(cl, now, n, file)
  {
  }
}
