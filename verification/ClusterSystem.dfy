/** The whole loop as one system: mediator, messages in flight, and the nodes' files, with
    the clock and the session table frozen, no faults and no outside writes. */
module ClusterSystem {
  import opened Formats
  import opened Listing
  import opened MediatorSpec
  import MediatorRuns
  import opened MediatorLaws
  import opened ApplySpec

  /** What does not change: the profile, the registered sessions, and how a node derives the
      account (from its file, or from its metadata alone) and the summary it reports. */
  datatype Cluster = Cluster(
    profile: Profile,
    registered: set<NodeId>,
    account: (NodeId, Option<Bytes>) -> Account,
    summary: (NodeId, Bytes) -> Summary)

  /** One node: its file, whether its watcher has a change to report, and what is in flight
      from it (reports and acks, in separate channels) and to it. */
  datatype Local = Local(
    file: Option<Bytes>,
    changed: bool,
    reports: seq<Message>,
    acks: seq<Message>,
    pushes: seq<Push>)
  {
    predicate Quiet() {
      !changed && reports == [] && acks == [] && pushes == []
    }
  }

  /** `reselected` records that a reselect has taken place. */
  datatype System = System(server: State, nodes: map<NodeId, Local>, reselected: bool) {
    /** Nothing left to do. */
    predicate Quiet() {
      forall n <- nodes :: nodes[n].Quiet()
    }
  }

  // ------------------------------------------------------------------- steps

  predicate Readable(p: Profile, file: Option<Bytes>) {
    file.Some? && p.parse(file.value).Some?
  }

  /** What a node reports about its file. */
  function ReportOf(cl: Cluster, n: NodeId, file: Option<Bytes>): Message {
    if Readable(cl.profile, file)
    then Report(n, cl.account(n, file), cl.profile.formatName, Text(file.value), None, cl.summary(n, file.value))
    else Absent(n, cl.account(n, None))
  }

  /** The candidate that the mediator derives from that report at clock reading `now`. */
  function CandidateOf(cl: Cluster, now: Time, n: NodeId, file: Option<Bytes>): Candidate {
    if Readable(cl.profile, file)
    then
      var snap := Snapshot(cl.profile.parse(file.value).value, file.value);
      Reported(ReportOf(cl, n, file), snap, Validate(cl.profile.format, snap, now))
    else Missing(cl.account(n, None))
  }

  /** A candidate reflects a file, whatever was acknowledged. */
  predicate Reflects(cl: Cluster, now: Time, n: NodeId, file: Option<Bytes>, c: Candidate) {
    c.(lastApplied := NoFingerprint) == CandidateOf(cl, now, n, file)
  }

  function Without<T>(xs: seq<T>, i: nat): seq<T>
    requires i < |xs|
  {
    xs[..i] + xs[i + 1..]
  }

  ghost predicate SendReportStep(cl: Cluster, s: System, s': System, n: NodeId) {
    && n in s.nodes && s.nodes[n].changed
    && s' == s.(nodes := s.nodes[n := AfterReport(cl, n, s.nodes[n])])
  }

  function AfterReport(cl: Cluster, n: NodeId, l: Local): Local {
    l.(changed := false, reports := l.reports + [ReportOf(cl, n, l.file)])
  }

  ghost predicate ApplyStep(s: System, s': System, n: NodeId) {
    && n in s.nodes && s.nodes[n].pushes != []
    && s' == s.(nodes := s.nodes[n := AfterApply(n, s.nodes[n])])
  }

  function AfterApply(n: NodeId, l: Local): Local
    requires l.pushes != []
  {
    var push := l.pushes[0];
    var r := Apply(l.file, push.fingerprint, push.rawB64);
    l.(file := r.file, changed := l.changed || r.wrote, pushes := l.pushes[1..],
       acks := l.acks + [Ack(n, "", r.ok, push.fingerprint)])
  }

  ghost predicate AckStep(cl: Cluster, s: System, s': System, n: NodeId, i: nat) {
    && n in s.nodes && i < |s.nodes[n].acks|
    && Next(cl.profile, s.server, s.nodes[n].acks[i], s'.server)
    && s'.server.clock == s.server.clock
    && s' == s.(server := s'.server, nodes := s.nodes[n := s.nodes[n].(acks := Without(s.nodes[n].acks, i))])
  }

  /** The events that a step appended for an account. */
  function Appended(s: State, s': State, a: Account): seq<Event> {
    if |s.EventsOf(a)| <= |s'.EventsOf(a)| then NewEvents(s, s', a) else []
  }

  /** Passes see the frozen session table and all their sends succeed. */
  ghost predicate Faultless(cl: Cluster, s: State, s': State) {
    forall a: Account, e: Event | e in Appended(s, s', a) && e.PushPass? ::
      e.registered == cl.registered && e.sent == e.targets
  }

  /** What a step sends to a node: a reselect makes at most one push pass per account, and
      addresses a node only under the account of its candidate. */
  ghost function SentTo(s: State, s': State, n: NodeId): seq<Push> {
    if n in s'.candidates && exists e: Event :: IsPassTo(s, s', n, e)
    then var e: Event :| IsPassTo(s, s', n, e); [e.push]
    else []
  }

  ghost predicate IsPassTo(s: State, s': State, n: NodeId, e: Event)
    requires n in s'.candidates
  {
    e in Appended(s, s', s'.candidates[n].account) && e.PushPass? && n in e.sent
  }

  ghost predicate MediateStep(cl: Cluster, s: System, s': System, n: NodeId, i: nat) {
    && n in s.nodes && i < |s.nodes[n].reports|
    && Next(cl.profile, s.server, s.nodes[n].reports[i], s'.server)
    && s'.server.clock == s.server.clock
    && Faultless(cl, s.server, s'.server)
    && s'.reselected
    && s'.nodes.Keys == s.nodes.Keys
    && forall k <- s.nodes ::
         s'.nodes[k] == AfterMediate(s.nodes[k], if k == n then Some(i) else None, SentTo(s.server, s'.server, k))
  }

  /** A node after the mediator took in its report `taken`, if any, and sent it `sent`. */
  function AfterMediate(l: Local, taken: Option<nat>, sent: seq<Push>): Local
    requires taken.Some? ==> taken.value < |l.reports|
  {
    l.(reports := if taken.Some? then Without(l.reports, taken.value) else l.reports, pushes := l.pushes + sent)
  }

  ghost predicate Step(cl: Cluster, s: System, s': System) {
    || (exists n: NodeId :: SendReportStep(cl, s, s', n))
    || (exists n: NodeId :: ApplyStep(s, s', n))
    || (exists n: NodeId, i: nat :: AckStep(cl, s, s', n, i))
    || (exists n: NodeId, i: nat :: MediateStep(cl, s, s', n, i))
  }

  /** No step is possible. */
  ghost predicate Stuck(cl: Cluster, s: System) {
    forall s': System :: !Step(cl, s, s')
  }

  ghost predicate IsRun(cl: Cluster, run: seq<System>) {
    && run != []
    && forall i, j | 0 <= i < j < |run| && j == i + 1 :: Step(cl, run[i], run[j])
  }

  // ------------------------------------------------------------------- start

  ghost predicate SoundTruths(s: State) {
    forall a <- s.truths :: SoundTruth(a, s.truths[a])
  }

  predicate SoundTruth(a: Account, t: Truth) {
    t.account == a && t.rawB64.Text? && t.fingerprint == Sha256(t.rawB64.bytes)
  }

  /** Equally fresh viable candidates of an account hold the same bytes. */
  ghost predicate TiesAgree(f: Format, cands: map<NodeId, Candidate>) {
    forall a: Account, n: NodeId, m: NodeId | n in ViableNodes(cands, a) && m in ViableNodes(cands, a) ::
      Compare(f, cands[n].snap.value, cands[m].snap.value) == 0 ==> cands[n].fingerprint == cands[m].fingerprint
  }

  /** A node that receives its account's freshest bytes still derives the same account. */
  ghost predicate AccountsStay(cl: Cluster, s: System) {
    forall a: Account, n: NodeId, m: NodeId |
      n in InAccount(s.server.candidates, a) && IsBest(cl.profile.format, s.server.candidates, a, m) ::
      m in s.nodes && cl.account(n, s.nodes[m].file) == a
  }

  /** Candidates reflect the files, nothing is in flight, and some node is about to report. */
  ghost predicate Ready(cl: Cluster, s: System) {
    var cands, now := s.server.candidates, s.server.clock;
    && cl.profile.parse([]) == None
    && s.nodes.Keys == cands.Keys <= cl.registered
    && !s.reselected
    && (forall n <- s.nodes :: s.nodes[n].reports == [] && s.nodes[n].acks == [] && s.nodes[n].pushes == [])
    && (exists n <- s.nodes :: s.nodes[n].changed)
    && (forall n <- s.nodes :: Reflects(cl, now, n, s.nodes[n].file, cands[n]))
    && TiesAgree(cl.profile.format, cands)
    && AccountsStay(cl, s)
  }

  ghost predicate Start(cl: Cluster, s: System) {
    Ready(cl, s) && SoundTruths(s.server)
  }

  /** The account has a truth that is still cooling down and names other bytes than its freshest
      candidates. */
  ghost predicate Held(cl: Cluster, s0: System, a: Account) {
    var cands, truth := s0.server.candidates, s0.server.TruthOf(a);
    && ViableNodes(cands, a) != {}
    && !Free(cl.profile, truth, s0.server.clock)
    && forall n: NodeId | IsBest(cl.profile.format, cands, a, n) :: Changes(truth, cands[n])
  }

  /** What a start asks of the truths holds in every state that the mediator can reach. */
  lemma ReachableTruthsAreSound(p: Profile, states: seq<State>, messages: seq<Message>, i: nat)
    requires MediatorRuns.IsRun(p, states, messages) && i <= |messages|
    ensures SoundTruths(states[i])
  {
    var s := states[i];
    MediatorRuns.RunKeeps(p, states, messages, i);
    forall a <- s.truths
      ensures MediatorRuns.GenuineTruth(p, messages[..i], s.clock, a, s.truths[a])
    {
      assert MediatorRuns.AccountInv(p, messages[..i], s.clock, a, s.TruthOf(a), s.EventsOf(a));
    }
  }

  /** `g` names, for every account with a viable candidate that is not held back, a node with
      a freshest one. */
  ghost predicate Holders(cl: Cluster, s0: System, g: map<Account, NodeId>) {
    && (forall a: Account :: a in g <==> ViableNodes(s0.server.candidates, a) != {} && !Held(cl, s0, a))
    && (forall a <- g :: IsBest(cl.profile.format, s0.server.candidates, a, g[a]))
  }

  /** The bytes that the nodes of an account have to end up with, if it has such a node. */
  function Goal(s0: System, g: map<Account, NodeId>, a: Account): Option<Bytes> {
    if a in g && g[a] in s0.nodes then s0.nodes[g[a]].file else None
  }

  function GoalOf(s0: System, g: map<Account, NodeId>, n: NodeId): Option<Bytes> {
    if n in s0.server.candidates then Goal(s0, g, s0.server.candidates[n].account) else None
  }

  /** Equal in everything the selection looks at, but for the account. */
  predicate Alike(c: Candidate, d: Candidate) {
    c.snap == d.snap && c.fingerprint == d.fingerprint && c.status == d.status && c.absent == d.absent
  }

  lemma GoalReadable(cl: Cluster, s0: System, g: map<Account, NodeId>, a: Account)
    requires Start(cl, s0) && Holders(cl, s0, g) && a in g
    ensures g[a] in s0.nodes && Readable(cl.profile, Goal(s0, g, a))
    ensures s0.server.candidates[g[a]].fingerprint == Sha256(Goal(s0, g, a).value)
    ensures Alike(s0.server.candidates[g[a]], CandidateOf(cl, s0.server.clock, g[a], Goal(s0, g, a)))
  {
    assert g[a] in ViableNodes(s0.server.candidates, a);
    assert Reflects(cl, s0.server.clock, g[a], s0.nodes[g[a]].file, s0.server.candidates[g[a]]);
  }

  // --------------------------------------------------------------- invariant

  predicate GoodPush(goal: Option<Bytes>, push: Push) {
    goal.Some? && push.fingerprint == Sha256(goal.value) && push.rawB64 == Text(goal.value)
  }

  predicate IsAck(n: NodeId, m: Message) {
    m.Ack? && m.node == n
  }

  predicate IsReport(cl: Cluster, n: NodeId, orig: Option<Bytes>, file: Option<Bytes>, m: Message) {
    m == ReportOf(cl, n, orig) || m == ReportOf(cl, n, file)
  }

  /** A node holds its original file or its goal; its candidate and the reports in flight
      reflect one of the original and the present file; every push on its way carries the
      goal; and once a reselect has happened a node without its goal has a push on its way. */
  ghost predicate NodeInv(cl: Cluster, now: Time, reselected: bool, n: NodeId, orig: Option<Bytes>, goal: Option<Bytes>,
                          l: Local, c: Candidate)
  {
    && (l.file == orig || (goal.Some? && l.file == goal))
    && (Reflects(cl, now, n, orig, c) || Reflects(cl, now, n, l.file, c))
    && (forall m <- l.reports :: IsReport(cl, n, orig, l.file, m))
    && (forall m <- l.acks :: IsAck(n, m))
    && (forall push <- l.pushes :: GoodPush(goal, push))
    && (reselected && goal.Some? && l.file != goal ==> l.pushes != [])
  }

  /** No cooldown stands between the account's truth and its goal, or the account is held back
      and its truth is the one it started with. */
  ghost predicate TruthInv(cl: Cluster, s0: System, g: map<Account, NodeId>, a: Account, t: Option<Truth>) {
    && (t.Some? ==> SoundTruth(a, t.value))
    && (a in g ==> Free(cl.profile, t, s0.server.clock) || NamesGoal(Goal(s0, g, a), t))
    && (Held(cl, s0, a) ==> t == s0.server.TruthOf(a))
  }

  predicate NamesGoal(goal: Option<Bytes>, t: Option<Truth>) {
    goal.Some? && t.Some? && t.value.fingerprint == Sha256(goal.value)
  }

  ghost predicate TruthsInv(cl: Cluster, s0: System, g: map<Account, NodeId>, s: State) {
    s.clock == s0.server.clock && forall a: Account :: TruthInv(cl, s0, g, a, s.TruthOf(a))
  }

  predicate HasReport(l: Local) {
    l.changed || l.reports != []
  }

  ghost predicate NodesInv(cl: Cluster, s0: System, g: map<Account, NodeId>, s: System)
    requires s.nodes.Keys == s0.nodes.Keys == s.server.candidates.Keys
  {
    forall n <- s.nodes ::
      NodeInv(cl, s0.server.clock, s.reselected, n, s0.nodes[n].file, GoalOf(s0, g, n), s.nodes[n],
              s.server.candidates[n])
  }

  ghost predicate Inv(cl: Cluster, s0: System, g: map<Account, NodeId>, s: System) {
    && s.nodes.Keys == s0.nodes.Keys == s.server.candidates.Keys
    && NodesInv(cl, s0, g, s)
    && TruthsInv(cl, s0, g, s.server)
    && (s.reselected || exists n <- s.nodes :: HasReport(s.nodes[n]))
  }

  lemma StartInv(cl: Cluster, s0: System, g: map<Account, NodeId>)
    requires Start(cl, s0) && Holders(cl, s0, g)
    ensures Inv(cl, s0, g, s0)
  {
    StartNodes(cl, s0, g);
    StartTruths(cl, s0, g);
    var n :| n in s0.nodes && s0.nodes[n].changed;
    assert HasReport(s0.nodes[n]);
  }

  lemma StartTruths(cl: Cluster, s0: System, g: map<Account, NodeId>)
    requires Start(cl, s0) && Holders(cl, s0, g)
    ensures TruthsInv(cl, s0, g, s0.server)
  {
    forall a: Account
      ensures TruthInv(cl, s0, g, a, s0.server.TruthOf(a))
    {
      if a in g && !Free(cl.profile, s0.server.TruthOf(a), s0.server.clock) { StartsAtGoal(cl, s0, g, a); }
    }
  }

  /** A truth in its cooldown does not hold back its account if it names the goal. */
  lemma StartsAtGoal(cl: Cluster, s0: System, g: map<Account, NodeId>, a: Account)
    requires Start(cl, s0) && Holders(cl, s0, g) && a in g
    requires !Free(cl.profile, s0.server.TruthOf(a), s0.server.clock)
    ensures NamesGoal(Goal(s0, g, a), s0.server.TruthOf(a))
  {
    var cands := s0.server.candidates;
    var n: NodeId :| IsBest(cl.profile.format, cands, a, n) && !Changes(s0.server.TruthOf(a), cands[n]);
    BestsAgree(cl.profile.format, cands, a, n, g[a]);
    GoalReadable(cl, s0, g, a);
  }

  lemma StartNodes(cl: Cluster, s0: System, g: map<Account, NodeId>)
    requires Start(cl, s0)
    ensures NodesInv(cl, s0, g, s0)
  {
  }

  // ----------------------------------------------------------------- measure

  /** A report weighs one more than two pushes to each of `b` nodes. */
  function Load(b: nat, reports: nat): nat {
    if reports == 0 then 0 else 2 * b + 1 + Load(b, reports - 1)
  }

  /** What a node still owes the run: its file, its unreported change, and what is in flight
      from and to it. `b` is the number of nodes. */
  function Weight(goal: Option<Bytes>, b: nat, l: Local): nat {
    (if goal.Some? && l.file != goal then 2 * b + 2 else 0)
    + (if l.changed then 2 * b + 2 else 0)
    + Load(b, |l.reports|)
    + |l.acks|
    + 2 * |l.pushes|
  }

  function Total(s0: System, g: map<Account, NodeId>, b: nat, s: System, xs: seq<NodeId>): nat
    requires forall n <- xs :: n in s.nodes
  {
    if xs == [] then 0
    else
      assert xs[0] in xs && forall n <- xs[1..] :: n in xs;
      Weight(GoalOf(s0, g, xs[0]), b, s.nodes[xs[0]]) + Total(s0, g, b, s, xs[1..])
  }

  /** An upper bound on the number of steps still possible. */
  ghost function Measure(s0: System, g: map<Account, NodeId>, s: System): nat {
    var xs := Sorted(s.nodes.Keys);
    Total(s0, g, |s.nodes|, s, xs)
  }

  /** Node `n` gains at most two, or at most nothing, and loses `k`. */
  ghost predicate Lighter(s0: System, g: map<Account, NodeId>, b: nat, s: System, s': System, n: NodeId, pushed: bool,
                          k: nat)
    requires n in s.nodes && n in s'.nodes
  {
    Weight(GoalOf(s0, g, n), b, s'.nodes[n]) + k <= Weight(GoalOf(s0, g, n), b, s.nodes[n]) + if pushed then 2 else 0
  }

  lemma {:induction false} TotalDrops(s0: System, g: map<Account, NodeId>, b: nat, s: System, s': System,
                                      xs: seq<NodeId>,
                                      x: NodeId, pushed: bool, k: nat)
    requires forall n <- xs :: n in s.nodes && n in s'.nodes && Lighter(s0, g, b, s, s', n, pushed, 0)
    requires x in xs ==> Lighter(s0, g, b, s, s', x, pushed, k)
    ensures Total(s0, g, b, s', xs) + (if x in xs then k else 0) <= Total(s0, g, b, s, xs) + if pushed then 2 * |xs|
            else 0
    decreases |xs|
  {
    if xs != [] {
      var rest := xs[1..];
      assert xs[0] in xs && forall n <- rest :: n in xs;
      assert x in xs <==> x == xs[0] || x in rest;
      TotalDrops(s0, g, b, s, s', rest, x, pushed, k);
    }
  }

  lemma {:induction false} ListingLength(xs: seq<string>, names: set<string>)
    requires Lists(xs, names)
    ensures |xs| == |names|
    decreases |xs|
  {
    EmptyListing(xs, names);
    if xs != [] {
      assert xs[0] in names;
      LessTotal(xs[0], xs[0]);
      forall x
        ensures x in xs[1..] <==> x in names - {xs[0]}
      {
        assert x in xs <==> x == xs[0] || x in xs[1..];
      }
      ListingLength(xs[1..], names - {xs[0]});
    }
  }
}
