/** What messages make of candidates, and what truths, pushes and notices then contain. */
module MediatorContents {
  import opened Formats
  import opened Listing
  import opened MediatorSpec
  import opened MediatorRuns
  import opened MediatorJournal
  import opened MediatorLaws

  // ------------------------------------------------------------- candidates

  /** How long before its expiry a credential of this format is no longer handed around. */
  function Margin(f: Format): Time {
    match f
    case Claude => 0
    case Codex => 300_000_000_000
    case Gemini => 300_000_000_000
  }

  /** A live check can take a report out of the competition. */
  predicate LiveRejected(liveCheck: Option<Status>) {
    liveCheck == Some(Expired) || liveCheck == Some(Revoked)
  }

  /** Whether a parsed report competes for truth. One without a recorded expiry (Go's zero
      time) does so for Codex only. Any other does if and only if it is good for the format's
      margin at the clock reading of the validation, which lies between the two states', and
      no live check speaks against it. */
  lemma ReportDecidesViability(p: Profile, s: State, m: Message, s': State)
    requires Next(p, s, m, s') && m.Report? && Triggers(p, m)
    ensures m.node in s'.candidates
    ensures var c, exp := s'.candidates[m.node], p.parse(Decoded(m.rawB64).value).value.exp;
            if exp == -62_135_596_800_000_000_000 then IsViable(c) <==> p.format == Codex
            else
              && (IsViable(c) ==> s.clock + Margin(p.format) < exp && !LiveRejected(m.liveCheck))
              && (s'.clock + Margin(p.format) < exp && !LiveRejected(m.liveCheck) ==> IsViable(c))
  {
    var raw := Decoded(m.rawB64).value;
    var snap := Snapshot(p.parse(raw).value, raw);
    var t: Time :| ValidatedAt(p, s, m, snap, s', t);
    ViableReport(p.format, m, snap, t);
  }

  lemma ViableReport(f: Format, m: Message, snap: Snapshot, t: Time)
    requires m.Report?
    ensures IsViable(Reported(m, snap, ReportedStatus(Validate(f, snap, t), m.liveCheck))) <==>
            if snap.times.exp == -62_135_596_800_000_000_000 then f == Codex
            else t + Margin(f) < snap.times.exp && !LiveRejected(m.liveCheck)
  {
  }

  /** A message changes its own node's candidate at most. A parsed report is stored as it came,
      under the account it names; an unparsable or absent file leaves nothing to compete with;
      an ack records what was applied, if it was, and alters nothing else; and a disconnected
      node has no candidate. */
  lemma CandidateAfter(p: Profile, s: State, m: Message, s': State)
    requires Next(p, s, m, s')
    ensures forall n: NodeId | n != m.node ::
              && (n in s'.candidates <==> n in s.candidates)
              && (n in s.candidates ==> s'.candidates[n] == s.candidates[n])
    ensures m.Report? && (m.rawB64 == Garbled || m.rawB64 == Text([])) ==> s'.candidates == s.candidates
    ensures m.Report? && m.rawB64 != Garbled && m.rawB64 != Text([]) ==>
              && m.node in s'.candidates
              && var c, raw := s'.candidates[m.node], Decoded(m.rawB64).value;
                 && c.account == m.account && !c.absent
                 && if p.parse(raw).None? then c.snap == None && c.fingerprint == NoFingerprint
                    else c.snap == Some(Snapshot(p.parse(raw).value, raw)) && c.fingerprint == Sha256(raw)
                         && c.summary == m.summary
    ensures m.Absent? ==>
              && m.node in s'.candidates
              && var c := s'.candidates[m.node]; c.account == m.account && c.absent && c.snap == None
    ensures m.Ack? ==>
              && m.node in s'.candidates
              && var c := s'.candidates[m.node];
                 && (m.ok ==> c.lastApplied == m.fingerprint)
                 && if m.node in s.candidates
                    then s.candidates[m.node] == c.(lastApplied := s.candidates[m.node].lastApplied)
                         && (!m.ok ==> c == s.candidates[m.node])
                    else c.account == m.account && c.absent && c.snap == None
    ensures m.Disconnect? ==> m.node !in s'.candidates
  {
    if m.Report? && Triggers(p, m) {
      var raw := Decoded(m.rawB64).value;
      var t: Time :| ValidatedAt(p, s, m, Snapshot(p.parse(raw).value, raw), s', t);
    }
  }

  // --------------------------------------------------------- truths selected

  /** Along every run, what a selection makes the truth is the report of a viable candidate
      with the latest times of the account, dated by the clock, under the format name that
      came with the message; and the account had no truth, or one with other bytes. */
  lemma SelectionCarries(p: Profile, states: seq<State>, messages: seq<Message>, i: nat, a: Account, e: Event)
    requires IsRun(p, states, messages) && i < |messages|
    requires Adds(states[i], states[i + 1], a, e) && e.Selected?
    ensures var s, s', m := states[i], states[i + 1], messages[i];
            && s'.TruthOf(a) == Some(e.truth)
            && (a in s.truths ==> s.truths[a].fingerprint != e.truth.fingerprint)
            && Latest(p.format, s'.candidates, a, e.source)
            && e.truth.account == a
            && e.truth.fingerprint == s'.candidates[e.source].fingerprint
            && e.truth.rawB64 == Text(s'.candidates[e.source].snap.value.raw)
            && e.truth.summary == s'.candidates[e.source].summary
            && e.truth.format == (if m.Report? then m.format else p.formatName)
            && s.clock <= e.truth.issuedAt == e.truth.pushedAt <= s'.clock
  {
    var s, s' := states[i], states[i + 1];
    OnlyTriggersSelect(p, s, messages[i], s');
    assert AccountStep(p, FormatNameOf(p, messages[i]), s.clock, s, s', a);
    Selection(p, s'.candidates, FormatNameOf(p, messages[i]), s.clock, s'.clock, a, s.TruthOf(a), s'.TruthOf(a),
              NewEvents(s, s', a), e);
  }

  lemma Selection(p: Profile, cands: map<NodeId, Candidate>, formatName: string, lo: Time, hi: Time, a: Account,
                  prev: Option<Truth>, next: Option<Truth>, events: seq<Event>, e: Event)
    requires Reconciled(p, cands, formatName, lo, hi, a, prev, next, events)
    requires e in events && e.Selected?
    ensures next == Some(e.truth) && (prev.Some? ==> prev.value.fingerprint != e.truth.fingerprint)
    ensures Latest(p.format, cands, a, e.source)
    ensures lo <= e.truth.issuedAt <= hi
    ensures var c := cands[e.source];
            e.truth == Truth(a, c.fingerprint, e.truth.issuedAt, c.summary, Text(c.snap.value.raw), formatName,
                             e.truth.issuedAt)
  {
    assert ViableNodes(cands, a) != {};
    var c :| Decides(p, cands, formatName, lo, hi, a, prev, next, events, c);
    BestIsLatest(p.format, cands, a, c.best);
    SelectedByDecision(p, cands, formatName, lo, hi, a, prev, next, events, e, c);
  }

  lemma SelectedByDecision(p: Profile, cands: map<NodeId, Candidate>, formatName: string, lo: Time, hi: Time,
                           a: Account, prev: Option<Truth>, next: Option<Truth>, events: seq<Event>, e: Event,
                           c: Choice)
    requires Decides(p, cands, formatName, lo, hi, a, prev, next, events, c)
    requires e in events && e.Selected?
    ensures Changes(prev, cands[c.best]) && e.source == c.best
    ensures next == Some(NewTruth(a, formatName, cands[c.best], c.now)) && e.truth == next.value
  {
    assert e in Announcements(p, cands, prev, next.value, c.best);
  }

  // ------------------------------------------------------------------ notices

  /** Along every run, each notice tells what happened in its step: which truth was lost or
      restored, or which truth replaced which at the nodes that a push pass reached; and it
      lists the account's nodes in order. */
  lemma NoticesTell(p: Profile, states: seq<State>, messages: seq<Message>, i: nat, a: Account, e: Event)
    requires IsRun(p, states, messages) && i < |messages|
    requires Adds(states[i], states[i + 1], a, e) && IsNotice(e)
    ensures p.notifies && Lists(e.nodes, InAccount(states[i + 1].candidates, a))
    ensures var prev, next := states[i].TruthOf(a), states[i + 1].TruthOf(a);
            match e
            case LostNotice(t, _) => prev == Some(t) && next == None
            case RestoredNotice(t, source, _) =>
              prev == None && next == Some(t) && source in ViableNodes(states[i + 1].candidates, a)
            case PropagatedNotice(t, prevSummary, source, sentTo, _) =>
              && next == Some(t) && prevSummary == (if prev.Some? then prev.value.summary else "")
              && sentTo != []
              && exists pass: Event :: Adds(states[i], states[i + 1], a, pass) && pass.PushPass?
                                       && pass.source == source && Lists(sentTo, pass.sent)
            case _ => true
  {
    var s, s' := states[i], states[i + 1];
    OnlyTriggersSelect(p, s, messages[i], s');
    TruthsNameAccount(p, states, messages, i, a);
    assert AccountStep(p, FormatNameOf(p, messages[i]), s.clock, s, s', a);
    if ViableNodes(s'.candidates, a) != {} {
      var pass := NoticeOfSelection(p, s'.candidates, FormatNameOf(p, messages[i]), s.clock, s'.clock, a,
                                    s.TruthOf(a), s'.TruthOf(a), NewEvents(s, s', a), e);
    }
  }

  lemma NoticeOfSelection(p: Profile, cands: map<NodeId, Candidate>, formatName: string, lo: Time, hi: Time,
                          a: Account, prev: Option<Truth>, next: Option<Truth>, events: seq<Event>, e: Event)
    returns (pass: Event)
    requires Reconciled(p, cands, formatName, lo, hi, a, prev, next, events) && ViableNodes(cands, a) != {}
    requires prev.Some? ==> prev.value.account == a
    requires e in events && IsNotice(e)
    ensures p.notifies && Lists(e.nodes, InAccount(cands, a))
    ensures e.RestoredNotice? || e.PropagatedNotice?
    ensures e.RestoredNotice? ==> prev == None && next == Some(e.truth) && e.source in ViableNodes(cands, a)
    ensures e.PropagatedNotice? ==>
              && next == Some(e.truth) && e.prevSummary == (if prev.Some? then prev.value.summary else "")
              && pass in events && pass.PushPass? && pass.source == e.source && Lists(e.sentTo, pass.sent)
              && e.sentTo != []
  {
    var c :| Decides(p, cands, formatName, lo, hi, a, prev, next, events, c);
    pass := PassOf(p, cands, formatName, lo, hi, a, prev, next, events, c);
    EmptyListing(Sorted(c.sent), c.sent);
  }

  /** With a notifier, every pass that reached a node is announced. */
  lemma PropagationIsAnnounced(p: Profile, states: seq<State>, messages: seq<Message>, i: nat, a: Account, e: Event)
    returns (notice: Event)
    requires IsRun(p, states, messages) && i < |messages|
    requires Adds(states[i], states[i + 1], a, e) && e.PushPass? && e.sent != {} && p.notifies
    ensures Adds(states[i], states[i + 1], a, notice) && notice.PropagatedNotice?
    ensures notice.source == e.source && Lists(notice.sentTo, e.sent)
  {
    var s, s' := states[i], states[i + 1];
    OnlyTriggersSelect(p, s, messages[i], s');
    assert AccountStep(p, FormatNameOf(p, messages[i]), s.clock, s, s', a);
    var c := PassIn(p, s'.candidates, FormatNameOf(p, messages[i]), s.clock, s'.clock, a, s.TruthOf(a), s'.TruthOf(a),
                    NewEvents(s, s', a), e);
    var events := NewEvents(s, s', a);
    notice := events[|events| - 1];
  }

  /** Every target of a pass was handed the push, and every notice was given. */
  lemma NothingIsWithheld(p: Profile, states: seq<State>, messages: seq<Message>, done: multiset<Effect>, i: nat,
                          a: Account, e: Event)
    requires IsRun(p, states, messages) && Accounted(states[|messages|].history, done)
    requires i < |messages| && Adds(states[i], states[i + 1], a, e)
    ensures e.PushPass? ==>
              && (forall n <- e.targets :: Tried(n, e.push) in done)
              && (forall n <- e.sent :: Sent(n, e.push) in done)
    ensures e.LostNotice? || e.RestoredNotice? || e.PropagatedNotice? ==> Notified(e) in done
  {
    forall x: Effect | x in EffectsOf(e)
      ensures x in done
    {
      Shows(p, states, messages, done, i, a, e, x);
    }
  }
}
