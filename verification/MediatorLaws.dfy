/** The mediator's promises, for every profile, every run and every resolution of its
    nondeterminism. */
module MediatorLaws {
  import opened Formats
  import opened Listing
  import opened MediatorSpec
  import opened MediatorRuns
  import opened MediatorJournal

  // ---------------------------------------------------------- one reselect

  /** How the selection for an account with a viable candidate went. */
  lemma Decision(p: Profile, formatName: string, lo: Time, s: State, s': State, a: Account) returns (c: Choice)
    requires AccountStep(p, formatName, lo, s, s', a)
    requires ViableNodes(s'.candidates, a) != {}
    ensures IsBest(p.format, s'.candidates, a, c.best)
    ensures lo <= c.since <= c.now <= s'.clock
    ensures s'.TruthOf(a) == TruthAfter(p, formatName, a, s.TruthOf(a), s'.candidates[c.best], c)
  {
    c :| Decides(p, s'.candidates, formatName, lo, s'.clock, a, s.TruthOf(a), s'.TruthOf(a), NewEvents(s, s', a), c);
  }

  /** Two best candidates are equally fresh. */
  lemma BestsAgree(f: Format, cands: map<NodeId, Candidate>, a: Account, n: NodeId, m: NodeId)
    requires IsBest(f, cands, a, n) && IsBest(f, cands, a, m)
    ensures Compare(f, cands[n].snap.value, cands[m].snap.value) == 0
  {
  }

  /** Among the viable candidates of the account none expires later than the one at `n`, and
      for Codex none that expires with it was refreshed later. */
  ghost predicate Latest(f: Format, cands: map<NodeId, Candidate>, a: Account, n: NodeId) {
    && n in ViableNodes(cands, a)
    && forall m <- ViableNodes(cands, a) ::
         var tm, tn := cands[m].snap.value.times, cands[n].snap.value.times;
         tm.exp < tn.exp || (tm.exp == tn.exp && (f == Codex ==> tm.lastRefresh <= tn.lastRefresh))
  }

  lemma BestIsLatest(f: Format, cands: map<NodeId, Candidate>, a: Account, n: NodeId)
    ensures IsBest(f, cands, a, n) <==> Latest(f, cands, a, n)
  {
    CompareIsTotalPreorder(f);
  }

  /** The truth a reselect leaves belongs to a viable candidate with the latest times of the
      account, unless the old truth is still within its cooldown. */
  lemma Optimality(p: Profile, formatName: string, cands: map<NodeId, Candidate>, s: State, s': State, a: Account)
    requires Reselect(p, formatName, cands, s, s')
    requires ViableNodes(cands, a) != {}
    ensures a in s'.truths
    ensures
      || (exists n: NodeId :: Latest(p.format, cands, a, n) && s'.truths[a].fingerprint == cands[n].fingerprint)
      || (&& a in s.truths && s'.truths[a] == s.truths[a]
          && p.cooldown > 0 && s.clock - s.truths[a].pushedAt < p.cooldown)
  {
    assert AccountStep(p, formatName, s.clock, s, s', a);
    var c := Decision(p, formatName, s.clock, s, s', a);
    BestIsLatest(p.format, cands, a, c.best);
  }

  /** No cooldown holds the selection back at clock reading `now`. */
  predicate Free(p: Profile, prev: Option<Truth>, now: Time) {
    prev.None? || p.cooldown <= 0 || now - prev.value.pushedAt >= p.cooldown
  }

  /** The selection may end with a truth that carries this fingerprint. */
  ghost predicate MaySettleOn(p: Profile, cands: map<NodeId, Candidate>, formatName: string, now: Time, a: Account,
                              prev: Option<Truth>, fp: Fingerprint)
  {
    exists next: Truth, events: seq<Event> ::
      next.fingerprint == fp && Reconciled(p, cands, formatName, now, now, a, prev, Some(next), events)
  }

  lemma FreshestMayWin(p: Profile, cands: map<NodeId, Candidate>, formatName: string, now: Time, a: Account,
                       prev: Option<Truth>, n: NodeId)
    requires IsBest(p.format, cands, a, n) && Free(p, prev, now)
    ensures MaySettleOn(p, cands, formatName, now, a, prev, cands[n].fingerprint)
  {
    var c := Choice(n, now, now, {}, {});
    var next := TruthAfter(p, formatName, a, prev, cands[n], c).value;
    var events := Announcements(p, cands, prev, next, n) + Propagation(p, cands, prev, next, c);
    assert Decides(p, cands, formatName, now, now, a, prev, Some(next), events, c);
    assert next.fingerprint == cands[n].fingerprint
           && Reconciled(p, cands, formatName, now, now, a, prev, Some(next), events);
  }

  lemma WinnerIsFreshest(p: Profile, cands: map<NodeId, Candidate>, formatName: string, now: Time, a: Account,
                         prev: Option<Truth>, next: Truth, events: seq<Event>) returns (n: NodeId)
    requires ViableNodes(cands, a) != {} && Free(p, prev, now)
    requires Reconciled(p, cands, formatName, now, now, a, prev, Some(next), events)
    ensures IsBest(p.format, cands, a, n) && cands[n].fingerprint == next.fingerprint
  {
    var c :| Decides(p, cands, formatName, now, now, a, prev, Some(next), events, c);
    n := c.best;
  }

  /** Exactly the fingerprints of the account's latest candidates can win: when two of them
      differ, the order of a map iteration decides. */
  lemma AnyFreshestMayWin(p: Profile, cands: map<NodeId, Candidate>, formatName: string, now: Time, a: Account,
                          prev: Option<Truth>, fp: Fingerprint)
    requires ViableNodes(cands, a) != {} && Free(p, prev, now)
    ensures MaySettleOn(p, cands, formatName, now, a, prev, fp) <==>
            exists n: NodeId :: Latest(p.format, cands, a, n) && cands[n].fingerprint == fp
  {
    if n: NodeId :| Latest(p.format, cands, a, n) && cands[n].fingerprint == fp {
      BestIsLatest(p.format, cands, a, n);
      FreshestMayWin(p, cands, formatName, now, a, prev, n);
    }
    if MaySettleOn(p, cands, formatName, now, a, prev, fp) {
      var next: Truth, events: seq<Event> :|
        next.fingerprint == fp && Reconciled(p, cands, formatName, now, now, a, prev, Some(next), events);
      var n := WinnerIsFreshest(p, cands, formatName, now, a, prev, next, events);
      BestIsLatest(p.format, cands, a, n);
    }
  }

  /** The cooldown test gives one answer throughout the reselect. */
  predicate CooldownSettled(p: Profile, prev: Option<Truth>, lo: Time, hi: Time) {
    prev.None? || hi - prev.value.pushedAt < p.cooldown || lo - prev.value.pushedAt >= p.cooldown
  }

  /** When equally fresh viable candidates carry the same bytes, the resulting fingerprints
      do not depend on the order in which maps are iterated. */
  lemma OrderIndependence(p: Profile, formatName: string, cands: map<NodeId, Candidate>, s: State, s1: State,
                          s2: State, a: Account)
    requires Reselect(p, formatName, cands, s, s1) && Reselect(p, formatName, cands, s, s2)
    requires CooldownSettled(p, s.TruthOf(a), s.clock, if s1.clock > s2.clock then s1.clock else s2.clock)
    requires forall n <- ViableNodes(cands, a), m <- ViableNodes(cands, a) ::
               Compare(p.format, cands[n].snap.value, cands[m].snap.value) == 0 ==>
                 cands[n].fingerprint == cands[m].fingerprint
    ensures a in s1.truths <==> a in s2.truths
    ensures a in s1.truths ==> s1.truths[a].fingerprint == s2.truths[a].fingerprint
  {
    assert AccountStep(p, formatName, s.clock, s, s1, a) && AccountStep(p, formatName, s.clock, s, s2, a);
    if ViableNodes(cands, a) != {} {
      var c1 := Decision(p, formatName, s.clock, s, s1, a);
      var c2 := Decision(p, formatName, s.clock, s, s2, a);
      BestsAgree(p.format, cands, a, c1.best, c2.best);
    }
  }

  /** Right after a reselect the truths are exactly those of the accounts with a viable
      candidate, and the mirror lists each account's nodes in order. */
  lemma TruthDomain(p: Profile, formatName: string, cands: map<NodeId, Candidate>, s: State, s': State)
    requires Reselect(p, formatName, cands, s, s')
    ensures forall a: Account :: a in s'.truths <==> ViableNodes(cands, a) != {}
    ensures s'.mirror.Keys == s'.truths.Keys
    ensures forall a <- s'.mirror ::
              s'.mirror[a].truth == s'.truths[a]
              && Lists(s'.mirror[a].nodes, InAccount(cands, a))
  {
    forall a: Account
      ensures a in s'.truths <==> ViableNodes(cands, a) != {}
    {
      assert AccountStep(p, formatName, s.clock, s, s', a);
      if ViableNodes(cands, a) != {} {
        var c := Decision(p, formatName, s.clock, s, s', a);
      }
    }
  }

  /** The push pass among the events of one account. */
  lemma PassIn(p: Profile, cands: map<NodeId, Candidate>, formatName: string, lo: Time, hi: Time, a: Account,
               prev: Option<Truth>, next: Option<Truth>, events: seq<Event>, e: Event) returns (c: Choice)
    requires Reconciled(p, cands, formatName, lo, hi, a, prev, next, events)
    requires e in events && e.PushPass?
    ensures Decides(p, cands, formatName, lo, hi, a, prev, next, events, c)
    ensures next.Some? && next.value.fingerprint == cands[c.best].fingerprint
    ensures c.sent <= Targets(p, cands, next.value, c.best, c.registered)
    ensures e == PushPass(PushOf(p, next.value), c.best, c.registered,
                          Targets(p, cands, next.value, c.best, c.registered), c.sent)
  {
    assert ViableNodes(cands, a) != {};
    c :| Decides(p, cands, formatName, lo, hi, a, prev, next, events, c);
    DecidedPass(p, cands, formatName, lo, hi, a, prev, next, events, e, c);
  }

  lemma DecidedPass(p: Profile, cands: map<NodeId, Candidate>, formatName: string, lo: Time, hi: Time, a: Account,
                    prev: Option<Truth>, next: Option<Truth>, events: seq<Event>, e: Event, c: Choice)
    requires Decides(p, cands, formatName, lo, hi, a, prev, next, events, c)
    requires e in events && e.PushPass?
    ensures next.Some? && next.value.fingerprint == cands[c.best].fingerprint
    ensures c.sent <= Targets(p, cands, next.value, c.best, c.registered)
    ensures e == Propagation(p, cands, prev, next.value, c)[0]
  {
  }

  /** A selection that no cooldown holds back makes exactly one push pass. */
  lemma PassOf(p: Profile, cands: map<NodeId, Candidate>, formatName: string, lo: Time, hi: Time, a: Account,
               prev: Option<Truth>, next: Option<Truth>, events: seq<Event>, c: Choice) returns (e: Event)
    requires Decides(p, cands, formatName, lo, hi, a, prev, next, events, c)
    requires !Suppressed(p, prev, cands[c.best], c.since)
    ensures e in events && e.PushPass? && IsBest(p.format, cands, a, e.source)
    ensures next.Some? && e.targets == Targets(p, cands, next.value, e.source, e.registered)
    ensures forall e' <- events :: e'.PushPass? ==> e' == e
  {
    e := Propagation(p, cands, prev, next.value, c)[0];
    assert events[|Announcements(p, cands, prev, next.value, c.best)|] == e;
  }

  /** Outside the cooldown a reselect makes one push pass for an account with a viable
      candidate, whether or not its truth changes. */
  lemma OnePassOutsideCooldown(p: Profile, formatName: string, cands: map<NodeId, Candidate>, s: State, s': State,
                               a: Account)
    returns (e: Event)
    requires Reselect(p, formatName, cands, s, s')
    requires ViableNodes(cands, a) != {} && Free(p, s.TruthOf(a), s.clock)
    ensures Adds(s, s', a, e) && e.PushPass?
    ensures forall e': Event | Adds(s, s', a, e') && e'.PushPass? :: e' == e
  {
    assert AccountStep(p, formatName, s.clock, s, s', a);
    var prev, next, events := s.TruthOf(a), s'.TruthOf(a), NewEvents(s, s', a);
    var c :| Decides(p, cands, formatName, s.clock, s'.clock, a, prev, next, events, c);
    e := PassOf(p, cands, formatName, s.clock, s'.clock, a, prev, next, events, c);
  }

  /** The step added this event to the account's history. */
  ghost predicate Adds(s: State, s': State, a: Account, e: Event) {
    s.EventsOf(a) <= s'.EventsOf(a) && e in NewEvents(s, s', a)
  }

  /** The push delivers this truth, to the path that the profile configures. */
  predicate Carries(p: Profile, push: Push, t: Truth) {
    && push.profile == p.name && push.targetPath == p.targetPath
    && push.account == t.account && push.format == t.format
    && push.fingerprint == t.fingerprint && push.rawB64 == t.rawB64
    && push.issuedAt == t.issuedAt && push.summary == t.summary
  }

  /** A pass sends the account's truth, comes from a node that holds it, and addresses exactly
      the registered other nodes of the account that are stale (all of them when the profile
      pushes to all). */
  lemma PassRoutes(p: Profile, formatName: string, cands: map<NodeId, Candidate>, s: State, s': State, a: Account,
                   e: Event)
    requires Reselect(p, formatName, cands, s, s') && Adds(s, s', a, e) && e.PushPass?
    requires s.TruthOf(a).Some? ==> s.TruthOf(a).value.account == a
    ensures a in s'.truths && Carries(p, e.push, s'.truths[a]) && e.push.account == a
    ensures e.source in ViableNodes(cands, a) && cands[e.source].fingerprint == e.push.fingerprint
    ensures e.sent <= e.targets
    ensures forall n: NodeId :: n in e.targets <==>
              && n in e.registered && n != e.source
              && n in InAccount(cands, a)
              && (p.pushToAll || cands[n].absent || cands[n].fingerprint != e.push.fingerprint)
  {
    assert AccountStep(p, formatName, s.clock, s, s', a);
    var c := PassIn(p, cands, formatName, s.clock, s'.clock, a, s.TruthOf(a), s'.TruthOf(a), NewEvents(s, s', a), e);
  }

  /** The messages that make the mediator reselect. */
  predicate Triggers(p: Profile, m: Message) {
    match m
    case Report(_, _, _, b64, _, _) => b64 != Garbled && b64 != Text([]) && p.parse(Decoded(b64).value).Some?
    case Absent(_, _) => true
    case Ack(_, _, _, _) => false
    case Disconnect(_) => true
  }

  /** The format name that a truth selected on this message gets. */
  function FormatNameOf(p: Profile, m: Message): string {
    if m.Report? then m.format else p.formatName
  }

  ghost predicate Selects(p: Profile, s: State, m: Message, s': State) {
    Reselect(p, FormatNameOf(p, m), s'.candidates, s, s')
  }

  /** They do so, and no other message changes more than candidates and clock. */
  lemma OnlyTriggersSelect(p: Profile, s: State, m: Message, s': State)
    requires Next(p, s, m, s')
    ensures if Triggers(p, m) then Selects(p, s, m, s') else OnlyCandidates(s, s', s'.candidates)
  {
    if m.Report? && Triggers(p, m) {
      var snap := Snapshot(p.parse(Decoded(m.rawB64).value).value, Decoded(m.rawB64).value);
      var t: Time :| ValidatedAt(p, s, m, snap, s', t);
    }
  }

  // -------------------------------------------------------------- whole runs

  /** Every truth names its own account. */
  lemma TruthsNameAccount(p: Profile, states: seq<State>, messages: seq<Message>, i: nat, a: Account)
    requires IsRun(p, states, messages) && i <= |messages|
    ensures a in states[i].truths ==> states[i].truths[a].account == a
  {
    RunKeeps(p, states, messages, i);
    assert AccountInv(p, messages[..i], states[i].clock, a, states[i].TruthOf(a), states[i].EventsOf(a));
  }

  /** Along every run, each push pass sends the account's truth, comes from a node that holds
      it, and addresses exactly the registered other nodes of the account that are stale (all
      of them when the profile pushes to all). */
  lemma Routing(p: Profile, states: seq<State>, messages: seq<Message>, i: nat, a: Account, e: Event)
    requires IsRun(p, states, messages) && i < |messages|
    requires Adds(states[i], states[i + 1], a, e) && e.PushPass?
    ensures var cands, truths := states[i + 1].candidates, states[i + 1].truths;
            && a in truths && Carries(p, e.push, truths[a]) && e.push.account == a
            && e.source in ViableNodes(cands, a) && cands[e.source].fingerprint == e.push.fingerprint
            && e.sent <= e.targets
            && forall n: NodeId :: n in e.targets <==>
                 && n in e.registered && n != e.source
                 && n in InAccount(cands, a)
                 && (p.pushToAll || cands[n].absent || cands[n].fingerprint != e.push.fingerprint)
  {
    var s, s' := states[i], states[i + 1];
    OnlyTriggersSelect(p, s, messages[i], s');
    var formatName := FormatNameOf(p, messages[i]);
    TruthsNameAccount(p, states, messages, i, a);
    PassRoutes(p, formatName, s'.candidates, s, s', a, e);
  }

  /** Along every run: when a message triggers a selection outside the account's cooldown and
      the account has a viable candidate, there is exactly one push pass; and when only stale
      nodes are addressed, it has no targets if and only if every registered node of the
      account, the source included, carries the truth. */
  lemma NoTargetsMeansInSync(p: Profile, states: seq<State>, messages: seq<Message>, i: nat, a: Account)
    returns (e: Event)
    requires IsRun(p, states, messages) && i < |messages| && Triggers(p, messages[i])
    requires ViableNodes(states[i + 1].candidates, a) != {} && Free(p, states[i].TruthOf(a), states[i].clock)
    ensures Adds(states[i], states[i + 1], a, e) && e.PushPass?
    ensures forall e': Event | Adds(states[i], states[i + 1], a, e') && e'.PushPass? :: e' == e
    ensures a in states[i + 1].truths
    ensures var cands := states[i + 1].candidates;
            !p.pushToAll ==>
              (e.targets == {} <==>
               forall n <- e.registered * InAccount(cands, a) ::
                 !cands[n].absent && cands[n].fingerprint == states[i + 1].truths[a].fingerprint)
  {
    var s, s' := states[i], states[i + 1];
    OnlyTriggersSelect(p, s, messages[i], s');
    var formatName := FormatNameOf(p, messages[i]);
    e := OnePassOutsideCooldown(p, formatName, s'.candidates, s, s', a);
    Routing(p, states, messages, i, a, e);
    if n :| n in e.targets {
      assert n in e.registered * InAccount(s'.candidates, a);
    }
  }

  /** Every truth and every push ever sent decodes to bytes that some node reported under
      that very account, and hashes to the fingerprint it carries; for a push, that node is
      the source named in the pass. */
  lemma Provenance(p: Profile, states: seq<State>, messages: seq<Message>, i: nat, a: Account)
    requires IsRun(p, states, messages) && i <= |messages|
    ensures a in states[i].truths ==>
              exists n: NodeId :: Genuine(p, messages[..i], n, a, states[i].truths[a].fingerprint,
                                          states[i].truths[a].rawB64)
    ensures forall e <- states[i].EventsOf(a) | e.PushPass? ::
              e.push.account == a && e.sent <= e.targets
                  && Genuine(p, messages[..i], e.source, a, e.push.fingerprint, e.push.rawB64)
  {
    RunKeeps(p, states, messages, i);
    assert AccountInv(p, messages[..i], states[i].clock, a, states[i].TruthOf(a), states[i].EventsOf(a));
    forall e <- states[i].EventsOf(a) | e.PushPass?
      ensures e.push.account == a && e.sent <= e.targets
              && Genuine(p, messages[..i], e.source, a, e.push.fingerprint, e.push.rawB64)
    {
      assert GenuineEvent(p, messages[..i], a, e);
    }
  }

  /** An account with a viable candidate always has a truth, and the mirror always shows the
      current truths. */
  lemma TruthAlwaysMirrored(p: Profile, states: seq<State>, messages: seq<Message>, i: nat)
    requires IsRun(p, states, messages) && i <= |messages|
    ensures forall a: Account :: ViableNodes(states[i].candidates, a) != {} ==> a in states[i].truths
    ensures states[i].mirror.Keys == states[i].truths.Keys
    ensures forall a <- states[i].truths :: states[i].mirror[a].truth == states[i].truths[a]
  {
    RunKeeps(p, states, messages, i);
  }

  /** Two selections for an account with no loss between them are at least the cooldown apart. */
  lemma CooldownSpacing(p: Profile, states: seq<State>, messages: seq<Message>, i: nat, a: Account, j: nat, k: nat)
    requires IsRun(p, states, messages) && i <= |messages|
    requires j < k < |states[i].EventsOf(a)|
    requires states[i].EventsOf(a)[j].Selected? && states[i].EventsOf(a)[k].Selected?
    requires forall x | j < x < k :: !states[i].EventsOf(a)[x].Lost?
    ensures states[i].EventsOf(a)[k].truth.pushedAt - states[i].EventsOf(a)[j].truth.pushedAt >= p.cooldown
  {
    RunKeeps(p, states, messages, i);
    assert AccountInv(p, messages[..i], states[i].clock, a, states[i].TruthOf(a), states[i].EventsOf(a));
    assert Unbroken(states[i].EventsOf(a), j, k);
  }

  function Count(ns: seq<bool>, b: bool): nat {
    if ns == [] then 0 else Count(ns[..|ns| - 1], b) + if ns[|ns| - 1] == b then 1 else 0
  }

  lemma {:induction false} AlternatingCounts(ns: seq<bool>)
    requires Alternating(ns)
    ensures Count(ns, true) - Count(ns, false) == |ns| % 2
    decreases |ns|
  {
    if ns != [] { AlternatingCounts(ns[..|ns| - 1]); }
  }

  /** With a notifier, the restored and lost notices of an account alternate, restored first,
      and there is one more restored than lost exactly while the account has a truth. */
  lemma RestoredAndLostAlternate(p: Profile, states: seq<State>, messages: seq<Message>, i: nat, a: Account)
    requires IsRun(p, states, messages) && i <= |messages| && p.notifies
    ensures var ns := Notices(states[i].EventsOf(a));
            && Alternating(ns)
            && Count(ns, true) - Count(ns, false) == if a in states[i].truths then 1 else 0
  {
    RunKeeps(p, states, messages, i);
    assert AccountInv(p, messages[..i], states[i].clock, a, states[i].TruthOf(a), states[i].EventsOf(a));
    AlternatingCounts(Notices(states[i].EventsOf(a)));
  }

  /** The snapshot that a truth carries. */
  function Carried(p: Profile, t: Truth): Snapshot
    requires t.rawB64.Text? && p.parse(t.rawB64.bytes).Some?
  {
    Snapshot(p.parse(t.rawB64.bytes).value, t.rawB64.bytes)
  }

  /** Truth does not go back in time: as long as some viable candidate of the account still
      carries the old truth's bytes, the next truth is at least as fresh. */
  lemma NoRegression(p: Profile, states: seq<State>, messages: seq<Message>, i: nat, a: Account, n: NodeId)
    requires IsRun(p, states, messages) && i < |messages|
    requires a in states[i].truths
    requires n in ViableNodes(states[i + 1].candidates, a)
    requires states[i + 1].candidates[n].fingerprint == states[i].truths[a].fingerprint
    ensures a in states[i + 1].truths
    ensures
      && states[i].truths[a].rawB64.Text? && p.parse(states[i].truths[a].rawB64.bytes).Some?
      && states[i + 1].truths[a].rawB64.Text? && p.parse(states[i + 1].truths[a].rawB64.bytes).Some?
      && Compare(p.format, Carried(p, states[i + 1].truths[a]), Carried(p, states[i].truths[a])) >= 0
  {
    var s, s' := states[i], states[i + 1];
    RunKeeps(p, states, messages, i);
    RunKeeps(p, states, messages, i + 1);
    assert AccountInv(p, messages[..i], s.clock, a, s.TruthOf(a), s.EventsOf(a));
    assert AccountInv(p, messages[..i + 1], s'.clock, a, s'.TruthOf(a), s'.EventsOf(a));
    if s'.truths != s.truths {
      OnlyTriggersSelect(p, s, messages[i], s');
      var formatName := FormatNameOf(p, messages[i]);
      StepNoRegression(p, messages[..i + 1], formatName, s, s', a, n);
    }
  }

  lemma StepNoRegression(p: Profile, past: seq<Message>, formatName: string, s: State, s': State, a: Account, n: NodeId)
    requires AccountStep(p, formatName, s.clock, s, s', a)
    requires forall n <- s'.candidates :: GenuineCandidate(p, past, n, s'.candidates[n])
    requires a in s.truths && a in s'.truths
    requires s.truths[a].rawB64.Text? && p.parse(s.truths[a].rawB64.bytes).Some?
    requires s.truths[a].fingerprint == Sha256(s.truths[a].rawB64.bytes)
    requires n in ViableNodes(s'.candidates, a)
    requires s'.candidates[n].fingerprint == s.truths[a].fingerprint
    ensures s'.truths[a].rawB64.Text? && p.parse(s'.truths[a].rawB64.bytes).Some?
    ensures Compare(p.format, Carried(p, s'.truths[a]), Carried(p, s.truths[a])) >= 0
  {
  }

  // ------------------------------------------------------ what the world sees

  /** Step `i` of the run did this to the world, for account `a`. */
  ghost predicate StepDoes(states: seq<State>, i: nat, a: Account, e: Event, x: Effect)
    requires i + 1 < |states|
  {
    Adds(states[i], states[i + 1], a, e) && x in EffectsOf(e)
  }

  lemma HistoriesGrow(p: Profile, s: State, m: Message, s': State, a: Account)
    requires Next(p, s, m, s')
    ensures s.EventsOf(a) <= s'.EventsOf(a)
  {
    OnlyTriggersSelect(p, s, m, s');
    if Triggers(p, m) { assert AccountStep(p, FormatNameOf(p, m), s.clock, s, s', a); }
  }

  /** An event is in an account's history exactly when some step added it. */
  lemma {:induction false} EventsComeFromSteps(p: Profile, states: seq<State>, messages: seq<Message>, i: nat,
                                               a: Account, e: Event)
    requires IsRun(p, states, messages) && i <= |messages|
    ensures e in states[i].EventsOf(a) <==> exists k: nat :: k < i && Adds(states[k], states[k + 1], a, e)
  {
    if i > 0 {
      EventsComeFromSteps(p, states, messages, i - 1, a, e);
      HistoriesGrow(p, states[i - 1], messages[i - 1], states[i], a);
      OldOrAdded(states[i - 1], states[i], a, e);
      if Adds(states[i - 1], states[i], a, e) {
        assert Adds(states[i - 1], states[i - 1 + 1], a, e);
      }
    }
  }

  lemma OldOrAdded(s: State, s': State, a: Account, e: Event)
    requires s.EventsOf(a) <= s'.EventsOf(a)
    ensures e in s'.EventsOf(a) <==> e in s.EventsOf(a) || Adds(s, s', a, e)
  {
    assert s'.EventsOf(a) == s.EventsOf(a) + NewEvents(s, s', a);
  }

  /** Along every run of the actor, the world has seen exactly what the steps did. */
  lemma WorldSeesTheSteps(p: Profile, states: seq<State>, messages: seq<Message>, done: multiset<Effect>, x: Effect)
    requires IsRun(p, states, messages) && Accounted(states[|messages|].history, done)
    ensures x in done <==>
            exists i: nat, a: Account, e: Event :: i < |messages| && StepDoes(states, i, a, e, x)
  {
    var history := states[|messages|].history;
    if x in done {
      var a: Account, e: Event :| Causes(history, a, e, x);
      EventsComeFromSteps(p, states, messages, |messages|, a, e);
      var k: nat :| k < |messages| && Adds(states[k], states[k + 1], a, e);
      assert StepDoes(states, k, a, e, x);
    }
    if i: nat, a: Account, e: Event :| i < |messages| && StepDoes(states, i, a, e, x) {
      EventsComeFromSteps(p, states, messages, |messages|, a, e);
      assert Causes(history, a, e, x);
    }
  }

  /** Whatever the actor handed to some node's connection is the truth, at that moment, of the
      account that the node is in; it decodes to bytes that another node reported under this
      account, and the hub had just listed the receiver. */
  lemma PushesReachTheirAccount(p: Profile, states: seq<State>, messages: seq<Message>, done: multiset<Effect>,
                                n: NodeId, push: Push)
    returns (i: nat, e: Event)
    requires IsRun(p, states, messages) && Accounted(states[|messages|].history, done)
    requires Tried(n, push) in done || Sent(n, push) in done
    ensures i < |messages| && Adds(states[i], states[i + 1], push.account, e) && e.PushPass? && e.push == push
    ensures Tried(n, push) in done && Answered(e.registered) in done
    ensures n in e.registered && n != e.source && n in InAccount(states[i + 1].candidates, push.account)
    ensures push.account in states[i + 1].truths && Carries(p, push, states[i + 1].truths[push.account])
    ensures Genuine(p, messages[..i + 1], e.source, push.account, push.fingerprint, push.rawB64)
  {
    i, e := PassBehind(p, states, messages, done, n, push);
    SourceReported(p, states, messages, i, push.account, e);
    Shows(p, states, messages, done, i, push.account, e, Tried(n, push));
    Shows(p, states, messages, done, i, push.account, e, Answered(e.registered));
  }

  lemma SourceReported(p: Profile, states: seq<State>, messages: seq<Message>, i: nat, a: Account, e: Event)
    requires IsRun(p, states, messages) && i < |messages| && Adds(states[i], states[i + 1], a, e) && e.PushPass?
    ensures Genuine(p, messages[..i + 1], e.source, a, e.push.fingerprint, e.push.rawB64)
  {
    Provenance(p, states, messages, i + 1, a);
    assert e in states[i + 1].EventsOf(a);
  }

  lemma Shows(p: Profile, states: seq<State>, messages: seq<Message>, done: multiset<Effect>, i: nat, a: Account,
              e: Event, x: Effect)
    requires IsRun(p, states, messages) && Accounted(states[|messages|].history, done)
    requires i < |messages| && Adds(states[i], states[i + 1], a, e) && x in EffectsOf(e)
    ensures x in done
  {
    WorldSeesTheSteps(p, states, messages, done, x);
    assert StepDoes(states, i, a, e, x);
  }

  lemma PassBehind(p: Profile, states: seq<State>, messages: seq<Message>, done: multiset<Effect>, n: NodeId,
                   push: Push)
    returns (i: nat, e: Event)
    requires IsRun(p, states, messages) && Accounted(states[|messages|].history, done)
    requires Tried(n, push) in done || Sent(n, push) in done
    ensures i < |messages| && Adds(states[i], states[i + 1], push.account, e) && e.PushPass? && e.push == push
    ensures n in e.targets && Tried(n, push) in EffectsOf(e) && Answered(e.registered) in EffectsOf(e)
    ensures n in e.registered && n != e.source && n in InAccount(states[i + 1].candidates, push.account)
    ensures push.account in states[i + 1].truths && Carries(p, push, states[i + 1].truths[push.account])
  {
    var x := if Tried(n, push) in done then Tried(n, push) else Sent(n, push);
    WorldSeesTheSteps(p, states, messages, done, x);
    var a: Account;
    i, a, e :| i < |messages| && StepDoes(states, i, a, e, x);
    OnlyPassesSend(e, n, push, x);
    Routing(p, states, messages, i, a, e);
  }

  lemma OnlyPassesSend(e: Event, n: NodeId, push: Push, x: Effect)
    requires x in EffectsOf(e) && (x == Tried(n, push) || x == Sent(n, push))
    ensures e.PushPass? && e.push == push && Answered(e.registered) in EffectsOf(e)
    ensures n in e.targets || n in e.sent
    ensures n in e.targets ==> Tried(n, push) in EffectsOf(e)
  {
  }
}
