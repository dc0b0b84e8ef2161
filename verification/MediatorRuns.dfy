/** What holds along every run of the mediator, whatever order its channels are served in,
    whatever order its maps are iterated in and whatever its sends return. */
module MediatorRuns {
  import opened Formats
  import opened Listing
  import opened MediatorSpec

  /** `states[i + 1]` follows from `states[i]` by handling `messages[i]`. */
  ghost predicate IsRun(p: Profile, states: seq<State>, messages: seq<Message>) {
    && |states| == |messages| + 1
    && Init(states[0])
    && forall i | 0 <= i < |messages| :: Next(p, states[i], messages[i], states[i + 1])
  }

  // -------------------------------------------------------------- provenance

  /** Node `n` reported these bytes under account `a`. */
  ghost predicate ReportedBy(past: seq<Message>, n: NodeId, a: Account, raw: Bytes) {
    exists m <- past :: m.Report? && m.node == n && m.account == a && Decoded(m.rawB64) == Some(raw)
  }

  /** The encoded bytes decode, parse, hash to the fingerprint, and `n` reported them under `a`. */
  ghost predicate Genuine(p: Profile, past: seq<Message>, n: NodeId, a: Account, fp: Fingerprint, b64: Base64) {
    && b64.Text?
    && fp == Sha256(b64.bytes)
    && p.parse(b64.bytes).Some?
    && ReportedBy(past, n, a, b64.bytes)
  }

  ghost predicate GenuineCandidate(p: Profile, past: seq<Message>, n: NodeId, c: Candidate) {
    c.snap.Some? ==>
      && Genuine(p, past, n, c.account, c.fingerprint, Text(c.snap.value.raw))
      && p.parse(c.snap.value.raw) == Some(c.snap.value.times)
  }

  ghost predicate GenuineTruth(p: Profile, past: seq<Message>, clock: Time, a: Account, t: Truth) {
    && t.account == a
    && t.issuedAt == t.pushedAt <= clock
    && exists n: NodeId :: Genuine(p, past, n, a, t.fingerprint, t.rawB64)
  }

  ghost predicate GenuineEvent(p: Profile, past: seq<Message>, a: Account, e: Event) {
    match e
    case Selected(t, source) => t.account == a && Genuine(p, past, source, a, t.fingerprint, t.rawB64)
    case PushPass(push, source, _, targets, sent) =>
      push.account == a && sent <= targets && Genuine(p, past, source, a, push.fingerprint, push.rawB64)
    case _ => true
  }

  // ------------------------------------------------- histories of one account

  /** The truth left by an event, given the one before it. */
  function After(t: Option<Truth>, e: Event): Option<Truth> {
    match e
    case Selected(t', _) => Some(t')
    case Lost(_) => None
    case _ => t
  }

  /** The truth that a history leaves. */
  function Replay(h: seq<Event>): Option<Truth> {
    if h == [] then None else After(Replay(h[..|h| - 1]), h[|h| - 1])
  }

  /** The truth notices of a history: true for "restored", false for "lost". */
  function Notices(h: seq<Event>): seq<bool> {
    if h == [] then []
    else Notices(h[..|h| - 1]) + NoticeOf(h[|h| - 1])
  }

  function NoticeOf(e: Event): seq<bool> {
    if e.RestoredNotice? then [true] else if e.LostNotice? then [false] else []
  }

  /** Restored first, then lost and restored in turn. */
  ghost predicate Alternating(ns: seq<bool>) {
    forall i | 0 <= i < |ns| :: ns[i] == (i % 2 == 0)
  }

  /** Restored and lost in turn, ending with restored exactly when there is a truth. */
  ghost predicate Balanced(ns: seq<bool>, live: bool) {
    Alternating(ns) && (live <==> |ns| % 2 == 1)
  }

  /** No truth was lost strictly between two points of a history. */
  ghost predicate Unbroken(h: seq<Event>, i: int, j: int) {
    forall k | i < k < j && 0 <= k < |h| :: !h[k].Lost?
  }

  /** Selections with no loss between them are at least `cooldown` apart. */
  ghost predicate Spaced(h: seq<Event>, cooldown: Time) {
    forall i, j | 0 <= i < j < |h| && h[i].Selected? && h[j].Selected? && Unbroken(h, i, j) ::
      h[j].truth.pushedAt - h[i].truth.pushedAt >= cooldown
  }

  /** The current truth is the youngest selection since the last loss. */
  ghost predicate Youngest(h: seq<Event>, current: Option<Truth>) {
    forall i | 0 <= i < |h| && h[i].Selected? && Unbroken(h, i, |h|) ::
      current.Some? && h[i].truth.pushedAt <= current.value.pushedAt
  }

  /** A history and the truth it leaves. */
  ghost predicate Paced(p: Profile, t: Option<Truth>, h: seq<Event>) {
    && Replay(h) == t
    && (p.notifies ==> Balanced(Notices(h), t.Some?))
    && Spaced(h, p.cooldown)
    && Youngest(h, t)
  }

  ghost predicate AccountInv(p: Profile, past: seq<Message>, clock: Time, a: Account, t: Option<Truth>, h: seq<Event>) {
    && (t.Some? ==> GenuineTruth(p, past, clock, a, t.value))
    && (forall e <- h :: GenuineEvent(p, past, a, e))
    && Paced(p, t, h)
  }

  lemma {:induction false} NoticesAppend(h: seq<Event>, g: seq<Event>)
    ensures Notices(h + g) == Notices(h) + Notices(g)
    decreases |g|
  {
    if g == [] {
      assert h + g == h;
    } else {
      var g', e := g[..|g| - 1], g[|g| - 1];
      assert (h + g)[..|h + g| - 1] == h + g';
      NoticesAppend(h, g');
      assert Notices(h) + Notices(g') + NoticeOf(e) == Notices(h) + (Notices(g') + NoticeOf(e));
    }
  }

  lemma {:induction false} ReplayQuiet(h: seq<Event>, g: seq<Event>)
    requires forall e <- g :: !e.Selected? && !e.Lost?
    ensures Replay(h + g) == Replay(h)
    decreases |g|
  {
    if g == [] {
      assert h + g == h;
    } else {
      assert (h + g)[..|h + g| - 1] == h + g[..|g| - 1];
      assert (h + g)[|h + g| - 1] in g;
      ReplayQuiet(h, g[..|g| - 1]);
    }
  }

  /** Appending events that neither select nor lose a truth. */
  lemma QuietAppend(h: seq<Event>, g: seq<Event>, t: Option<Truth>, cooldown: Time)
    requires forall e <- g :: !e.Selected? && !e.Lost?
    requires Spaced(h, cooldown) && Youngest(h, t)
    ensures Spaced(h + g, cooldown) && Youngest(h + g, t)
    ensures Replay(h + g) == Replay(h)
  {
    ReplayQuiet(h, g);
    var hg := h + g;
    assert forall k | |h| <= k < |hg| :: hg[k] in g;
    forall i, j | 0 <= i < j < |hg| && hg[i].Selected? && hg[j].Selected? && Unbroken(hg, i, j)
      ensures hg[j].truth.pushedAt - hg[i].truth.pushedAt >= cooldown
    {
      assert forall k | i < k < j :: h[k] == hg[k];
      assert Unbroken(h, i, j);
    }
    forall i | 0 <= i < |hg| && hg[i].Selected? && Unbroken(hg, i, |hg|)
      ensures t.Some? && hg[i].truth.pushedAt <= t.value.pushedAt
    {
      assert forall k | i < k < |h| :: h[k] == hg[k];
      assert Unbroken(h, i, |h|);
    }
  }

  /** Appending a selection that keeps the cooldown, or a loss. */
  lemma LoudAppend(h: seq<Event>, e: Event, t: Option<Truth>, cooldown: Time)
    requires e.Selected? || e.Lost?
    requires Spaced(h, cooldown) && Youngest(h, t)
    requires e.Selected? && t.Some? ==> e.truth.pushedAt - t.value.pushedAt >= cooldown
    requires e.Selected? && t.Some? ==> e.truth.pushedAt >= t.value.pushedAt
    ensures Spaced(h + [e], cooldown) && Youngest(h + [e], After(t, e))
    ensures Replay(h + [e]) == After(Replay(h), e)
  {
    var he := h + [e];
    assert he[..|he| - 1] == h;
    forall i, j | 0 <= i < j < |he| && he[i].Selected? && he[j].Selected? && Unbroken(he, i, j)
      ensures he[j].truth.pushedAt - he[i].truth.pushedAt >= cooldown
    {
      assert forall k | i < k < j :: h[k] == he[k];
      assert Unbroken(h, i, j);
    }
    forall i | 0 <= i < |he| && he[i].Selected? && Unbroken(he, i, |he|)
      ensures After(t, e).Some? && he[i].truth.pushedAt <= After(t, e).value.pushedAt
    {
      if i < |h| {
        assert !he[|h|].Lost?;
        assert forall k | i < k < |h| :: h[k] == he[k];
        assert Unbroken(h, i, |h|);
      }
    }
  }

  // ---------------------------------------------------------- one reselect step

  lemma LossesKeep(p: Profile, cands: map<NodeId, Candidate>, a: Account, prev: Option<Truth>, h: seq<Event>)
    requires Paced(p, prev, h)
    ensures Paced(p, None, h + Losses(p, cands, a, prev))
  {
    var g := Losses(p, cands, a, prev);
    if prev.None? {
      assert h + g == h;
    } else {
      LoudAppend(h, g[0], prev, p.cooldown);
      QuietAppend(h + [g[0]], g[1..], None, p.cooldown);
      assert h + [g[0]] + g[1..] == h + g;
      NoticesAppend(h, g);
      NoticesOfPair(g);
      if p.notifies { BalancedPush(Notices(h), true); }
    }
  }

  lemma NoticesOfPair(g: seq<Event>)
    requires 0 < |g| <= 2 && (g[0].Selected? || g[0].Lost?)
    ensures Notices(g) == if |g| == 1 then [] else NoticeOf(g[1])
  {
  }

  /** The truth and events of a decision come from the best candidate's report. */
  lemma DecisionGenuine(p: Profile, past: seq<Message>, cands: map<NodeId, Candidate>, formatName: string, lo: Time,
                        hi: Time,
                        a: Account, prev: Option<Truth>, next: Option<Truth>, events: seq<Event>, c: Choice)
    requires forall n <- cands :: GenuineCandidate(p, past, n, cands[n])
    requires prev.Some? ==> GenuineTruth(p, past, lo, a, prev.value)
    requires Decides(p, cands, formatName, lo, hi, a, prev, next, events, c)
    ensures next.Some? && GenuineTruth(p, past, hi, a, next.value)
    ensures forall e <- events :: GenuineEvent(p, past, a, e)
  {
  }

  ghost predicate IsPropagation(g: seq<Event>) {
    forall e <- g :: e.PushPass? || e.PropagatedNotice?
  }

  lemma QuietKeeps(p: Profile, t: Option<Truth>, h: seq<Event>, prop: seq<Event>)
    requires Paced(p, t, h)
    requires IsPropagation(prop)
    ensures Paced(p, t, h + prop)
  {
    QuietAppend(h, prop, t, p.cooldown);
    NoticesAppend(h, prop);
    NoticesOfTail([], prop);
    assert [] + prop == prop;
  }

  lemma SelectionKeeps(p: Profile, prev: Option<Truth>, h: seq<Event>, e: Event, notice: seq<Event>, prop: seq<Event>)
    requires Paced(p, prev, h)
    requires e.Selected?
    requires prev.Some? ==>
               e.truth.pushedAt - prev.value.pushedAt >= p.cooldown
               && e.truth.pushedAt >= prev.value.pushedAt
    requires |notice| == (if prev.None? && p.notifies then 1 else 0) && forall n <- notice :: n.RestoredNotice?
    requires IsPropagation(prop)
    ensures Paced(p, Some(e.truth), h + [e] + (notice + prop))
  {
    var full := h + [e] + (notice + prop);
    LoudAppend(h, e, prev, p.cooldown);
    QuietAppend(h + [e], notice + prop, Some(e.truth), p.cooldown);
    SelectionNotices(h, e, notice + prop);
    NoticesOfTail(notice, prop);
    if p.notifies {
      BalancedPush(Notices(h), prev.Some?);
      assert Notices(full) == if prev.None? then Notices(h) + [true] else Notices(h);
    }
  }

  lemma SelectionNotices(h: seq<Event>, e: Event, rest: seq<Event>)
    requires e.Selected? || e.Lost?
    ensures Notices(h + [e] + rest) == Notices(h) + Notices(rest)
  {
    var he := h + [e];
    assert he[..|he| - 1] == h;
    assert Notices(he) == Notices(h) + [];
    NoticesAppend(he, rest);
  }

  lemma BalancedPush(ns: seq<bool>, live: bool)
    requires Balanced(ns, live)
    ensures Balanced(ns + [!live], !live)
  {
  }

  lemma DecisionKeeps(p: Profile, cands: map<NodeId, Candidate>, formatName: string, lo: Time, hi: Time,
                      a: Account, prev: Option<Truth>, next: Option<Truth>, events: seq<Event>, c: Choice,
                          h: seq<Event>)
    requires prev.Some? ==> prev.value.pushedAt <= lo
    requires Paced(p, prev, h)
    requires Decides(p, cands, formatName, lo, hi, a, prev, next, events, c)
    ensures Paced(p, next, h + events)
  {
    if Suppressed(p, prev, cands[c.best], c.since) {
      assert h + events == h;
    } else {
      var prop := Propagation(p, cands, prev, next.value, c);
      if Changes(prev, cands[c.best]) {
        var ann := Announcements(p, cands, prev, next.value, c.best);
        SelectionKeeps(p, prev, h, ann[0], ann[1..], prop);
        assert h + events == h + [ann[0]] + (ann[1..] + prop);
      } else {
        assert events == prop;
        QuietKeeps(p, prev, h, prop);
      }
    }
  }

  lemma {:induction false} NoticesOfTail(notice: seq<Event>, prop: seq<Event>)
    requires |notice| <= 1 && forall e <- notice :: e.RestoredNotice?
    requires forall e <- prop :: e.PushPass? || e.PropagatedNotice?
    ensures Notices(notice + prop) == if notice == [] then [] else [true]
    decreases |prop|
  {
    if prop == [] {
      assert notice + prop == notice && (notice != [] ==> notice[..0] == [] && notice[0] in notice);
    } else {
      assert prop[|prop| - 1] in prop;
      assert (notice + prop)[..|notice + prop| - 1] == notice + prop[..|prop| - 1];
      NoticesOfTail(notice, prop[..|prop| - 1]);
    }
  }

  lemma ReconciledKeeps(p: Profile, past: seq<Message>, cands: map<NodeId, Candidate>, formatName: string, lo: Time,
                        hi: Time,
                        a: Account, prev: Option<Truth>, next: Option<Truth>, events: seq<Event>, h: seq<Event>)
    requires lo <= hi
    requires forall n <- cands :: GenuineCandidate(p, past, n, cands[n])
    requires AccountInv(p, past, lo, a, prev, h)
    requires Reconciled(p, cands, formatName, lo, hi, a, prev, next, events)
    ensures AccountInv(p, past, hi, a, next, h + events)
    ensures ViableNodes(cands, a) != {} <==> next.Some?
  {
    if ViableNodes(cands, a) == {} {
      LossesKeep(p, cands, a, prev, h);
    } else {
      var c :| Decides(p, cands, formatName, lo, hi, a, prev, next, events, c);
      DecisionGenuine(p, past, cands, formatName, lo, hi, a, prev, next, events, c);
      DecisionKeeps(p, cands, formatName, lo, hi, a, prev, next, events, c, h);
    }
  }

  // ------------------------------------------------------------ whole states

  ghost predicate MirrorsTruths(s: State) {
    s.mirror.Keys == s.truths.Keys && forall a <- s.truths :: s.mirror[a].truth == s.truths[a]
  }

  ghost predicate AccountsInv(p: Profile, past: seq<Message>, s: State) {
    forall a: Account :: AccountInv(p, past, s.clock, a, s.TruthOf(a), s.EventsOf(a))
  }

  ghost predicate Inv(p: Profile, past: seq<Message>, s: State) {
    && (forall n <- s.candidates :: GenuineCandidate(p, past, n, s.candidates[n]))
    && AccountsInv(p, past, s)
    && (forall a: Account :: ViableNodes(s.candidates, a) != {} ==> a in s.truths)
    && MirrorsTruths(s)
  }

  /** Provenance is not lost as time passes and messages arrive. */
  lemma ReportedByMore(past: seq<Message>, m: Message, n: NodeId, a: Account, raw: Bytes)
    requires ReportedBy(past, n, a, raw)
    ensures ReportedBy(past + [m], n, a, raw)
  {
  }

  lemma AccountInvMore(p: Profile, past: seq<Message>, m: Message, lo: Time, hi: Time, a: Account, t: Option<Truth>,
                       h: seq<Event>)
    requires AccountInv(p, past, lo, a, t, h) && lo <= hi
    ensures AccountInv(p, past + [m], hi, a, t, h)
  {
    if t.Some? {
      var n :| Genuine(p, past, n, a, t.value.fingerprint, t.value.rawB64);
      ReportedByMore(past, m, n, a, t.value.rawB64.bytes);
      assert Genuine(p, past + [m], n, a, t.value.fingerprint, t.value.rawB64);
    }
    forall e <- h
      ensures GenuineEvent(p, past + [m], a, e)
    {
      assert GenuineEvent(p, past, a, e);
      match e
      case Selected(t, source) => ReportedByMore(past, m, source, a, t.rawB64.bytes);
      case PushPass(push, source, _, _, _) => ReportedByMore(past, m, source, a, push.rawB64.bytes);
      case _ =>
    }
  }

  lemma CandidatesMore(p: Profile, past: seq<Message>, m: Message, cands: map<NodeId, Candidate>)
    requires forall n <- cands :: GenuineCandidate(p, past, n, cands[n])
    ensures forall n <- cands :: GenuineCandidate(p, past + [m], n, cands[n])
  {
  }

  lemma AccountReselected(p: Profile, past: seq<Message>, formatName: string, s: State, s': State, a: Account)
    requires s.clock <= s'.clock && AccountStep(p, formatName, s.clock, s, s', a)
    requires forall n <- s'.candidates :: GenuineCandidate(p, past, n, s'.candidates[n])
    requires AccountInv(p, past, s.clock, a, s.TruthOf(a), s.EventsOf(a))
    ensures AccountInv(p, past, s'.clock, a, s'.TruthOf(a), s'.EventsOf(a))
    ensures ViableNodes(s'.candidates, a) != {} <==> s'.TruthOf(a).Some?
  {
    ReconciledKeeps(p, past, s'.candidates, formatName, s.clock, s'.clock, a, s.TruthOf(a), s'.TruthOf(a),
                    NewEvents(s, s', a), s.EventsOf(a));
    assert s.EventsOf(a) + NewEvents(s, s', a) == s'.EventsOf(a);
  }

  lemma ReselectKeeps(p: Profile, past: seq<Message>, formatName: string, cands: map<NodeId, Candidate>, s: State,
                      s': State)
    requires forall n <- cands :: GenuineCandidate(p, past, n, cands[n])
    requires AccountsInv(p, past, s)
    requires Reselect(p, formatName, cands, s, s')
    ensures Inv(p, past, s')
    ensures forall a: Account :: ViableNodes(cands, a) != {} <==> a in s'.truths
  {
    forall a: Account
      ensures AccountInv(p, past, s'.clock, a, s'.TruthOf(a), s'.EventsOf(a))
      ensures ViableNodes(cands, a) != {} <==> a in s'.truths
    {
      assert AccountStep(p, formatName, s.clock, s, s', a);
      assert AccountInv(p, past, s.clock, a, s.TruthOf(a), s.EventsOf(a));
      AccountReselected(p, past, formatName, s, s', a);
    }
  }

  lemma OnlyCandidatesKeeps(p: Profile, past: seq<Message>, s: State, s': State, cands: map<NodeId, Candidate>)
    requires forall n <- cands :: GenuineCandidate(p, past, n, cands[n])
    requires AccountsInv(p, past, s) && MirrorsTruths(s)
    requires forall a: Account :: ViableNodes(cands, a) != {} ==> a in s.truths
    requires OnlyCandidates(s, s', cands)
    ensures Inv(p, past, s')
  {
    forall a: Account
      ensures AccountInv(p, past, s'.clock, a, s'.TruthOf(a), s'.EventsOf(a))
    {
      assert AccountInv(p, past, s.clock, a, s.TruthOf(a), s.EventsOf(a));
      assert s'.TruthOf(a) == s.TruthOf(a) && s'.EventsOf(a) == s.EventsOf(a);
    }
  }

  /** Every message keeps the invariant. */
  lemma NextKeeps(p: Profile, past: seq<Message>, s: State, m: Message, s': State)
    requires Inv(p, past, s) && Next(p, s, m, s')
    ensures Inv(p, past + [m], s')
  {
    var past' := past + [m];
    assert m in past';
    CandidatesMore(p, past, m, s.candidates);
    forall a: Account
      ensures AccountInv(p, past', s.clock, a, s.TruthOf(a), s.EventsOf(a))
    {
      AccountInvMore(p, past, m, s.clock, s.clock, a, s.TruthOf(a), s.EventsOf(a));
    }
    match m
    case Report(n, a, fmt, b64, live, _) =>
      if b64 == Garbled || b64 == Text([]) {
        OnlyCandidatesKeeps(p, past', s, s', s.candidates);
      } else if p.parse(Decoded(b64).value).None? {
        var cands := s.candidates[n := Rejected(m)];
        NoMoreViable(s.candidates, cands, n);
        OnlyCandidatesKeeps(p, past', s, s', cands);
      } else {
        var raw := Decoded(b64).value;
        var snap := Snapshot(p.parse(raw).value, raw);
        var t: Time :| ValidatedAt(p, s, m, snap, s', t);
        var c := Reported(m, snap, ReportedStatus(Validate(p.format, snap, t), live));
        assert ReportedBy(past', n, a, snap.raw);
        assert GenuineCandidate(p, past', n, c);
        ReselectKeeps(p, past', fmt, s.candidates[n := c], s, s');
      }
    case Absent(n, a) =>
      ReselectKeeps(p, past', p.formatName, s.candidates[n := Missing(a)], s, s');
    case Ack(n, a, _, _) =>
      var c := AckedCandidate(s.candidates, m);
      var cands := s.candidates[n := c];
      if n in s.candidates { assert GenuineCandidate(p, past', n, s.candidates[n]); }
      NoMoreViable(s.candidates, cands, n);
      OnlyCandidatesKeeps(p, past', s, s', cands);
    case Disconnect(n) =>
      ReselectKeeps(p, past', p.formatName, s.candidates - {n}, s, s');
  }

  /** Replacing one candidate by one that is viable only if the old one was, under the same
      account, gives no account a new viable candidate. */
  lemma NoMoreViable(cands: map<NodeId, Candidate>, cands': map<NodeId, Candidate>, n: NodeId)
    requires n in cands' && cands' == cands[n := cands'[n]]
    requires IsViable(cands'[n]) ==> n in cands && IsViable(cands[n]) && cands[n].account == cands'[n].account
    ensures forall a: Account :: ViableNodes(cands', a) != {} ==> ViableNodes(cands, a) != {}
  {
  }

  lemma {:induction false} RunKeeps(p: Profile, states: seq<State>, messages: seq<Message>, i: nat)
    requires IsRun(p, states, messages) && i <= |messages|
    ensures Inv(p, messages[..i], states[i])
  {
    if i == 0 {
      assert forall a: Account :: states[0].TruthOf(a) == None && states[0].EventsOf(a) == [];
    } else {
      RunKeeps(p, states, messages, i - 1);
      assert messages[..i] == messages[..i - 1] + [messages[i - 1]];
      NextKeeps(p, messages[..i - 1], states[i - 1], messages[i - 1], states[i]);
    }
  }
}
