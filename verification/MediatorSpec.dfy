/** What one mediator event may do to the per-profile decision state. The state is keyed by
    account, and each account's truth and history change independently of the others, so
    the step relation is stated one account at a time. */
module MediatorSpec {
  import opened Formats
  import opened Listing

  type NodeId = string
  type Account = string
  type Summary = string

  /** The hex SHA-256 of some bytes, taken to be collision-free, or the empty string. */
  datatype Fingerprint = NoFingerprint | Sha256(of: Bytes)

  /** The raw_b64 field: text that does not decode, text of nothing but line breaks, which
      the decoder skips, or text that decodes to some bytes. `Text([])` is the empty string. */
  datatype Base64 = Garbled | LineBreaks | Text(bytes: Bytes)

  function Decoded(b64: Base64): Option<Bytes> {
    match b64
    case Garbled => None
    case LineBreaks => Some([])
    case Text(bytes) => Some(bytes)
  }

  /** The configuration of a profile. `parse` is the format's decoder: the expiry fields it
      reads from some bytes, or nothing when it rejects them. */
  datatype Profile = Profile(
    name: string,
    formatName: string,
    format: Format,
    targetPath: string,
    cooldown: Time,
    pushToAll: bool,
    notifies: bool,
    parse: Bytes -> Option<Times>)

  /** The latest view of one node. */
  datatype Candidate = Candidate(
    account: Account,
    snap: Option<Snapshot>,
    fingerprint: Fingerprint,
    status: Status,
    absent: bool,
    summary: Summary,
    lastApplied: Fingerprint)

  datatype Truth = Truth(
    account: Account,
    fingerprint: Fingerprint,
    issuedAt: Time,
    summary: Summary,
    rawB64: Base64,
    format: string,
    pushedAt: Time)

  /** The read-side copy of one account's truth. */
  datatype Mirrored = Mirrored(truth: Truth, nodes: seq<NodeId>)

  datatype Push = Push(
    profile: string,
    account: Account,
    format: string,
    fingerprint: Fingerprint,
    rawB64: Base64,
    targetPath: string,
    issuedAt: Time,
    summary: Summary)

  /** What the mediator receives on its four channels. `liveCheck` is the result of a live
      check the client performed, if it did. */
  datatype Message =
    | Report(node: NodeId, account: Account, format: string, rawB64: Base64,
             liveCheck: Option<Status>, summary: Summary)
    | Absent(node: NodeId, account: Account)
    | Ack(node: NodeId, account: Account, ok: bool, fingerprint: Fingerprint)
    | Disconnect(node: NodeId)

  /** What the mediator does for one account, in order: truths selected and lost, the
      notifications emitted for them, and one push pass with the sessions it found
      registered, the targets it chose and the nodes whose send succeeded. */
  datatype Event =
    | Selected(truth: Truth, source: NodeId)
    | Lost(truth: Truth)
    | LostNotice(truth: Truth, nodes: seq<NodeId>)
    | RestoredNotice(truth: Truth, source: NodeId, nodes: seq<NodeId>)
    | PushPass(push: Push, source: NodeId, registered: set<NodeId>, targets: set<NodeId>, sent: set<NodeId>)
    | PropagatedNotice(truth: Truth, prevSummary: Summary, source: NodeId, sentTo: seq<NodeId>, nodes: seq<NodeId>)

  datatype State = State(
    candidates: map<NodeId, Candidate>,
    truths: map<Account, Truth>,
    mirror: map<Account, Mirrored>,
    history: map<Account, seq<Event>>,
    clock: Time)
  {
    function TruthOf(a: Account): Option<Truth> {
      if a in truths then Some(truths[a]) else None
    }

    function EventsOf(a: Account): seq<Event> {
      if a in history then history[a] else []
    }
  }

  ghost predicate Init(s: State) {
    s.candidates == map[] && s.truths == map[] && s.mirror == map[] && s.history == map[]
  }

  // ------------------------------------------------------------- candidates

  predicate IsViable(c: Candidate) {
    !c.absent && c.snap.Some? && ViableStatus(c.status)
  }

  function InAccount(cands: map<NodeId, Candidate>, a: Account): set<NodeId> {
    set n | n in cands && cands[n].account == a
  }

  function ViableNodes(cands: map<NodeId, Candidate>, a: Account): set<NodeId> {
    set n | n in cands && cands[n].account == a && IsViable(cands[n])
  }

  /** No viable candidate of the account beats the one at `n`. */
  ghost predicate IsBest(f: Format, cands: map<NodeId, Candidate>, a: Account, n: NodeId) {
    && n in ViableNodes(cands, a)
    && forall m <- ViableNodes(cands, a) :: Compare(f, cands[m].snap.value, cands[n].snap.value) <= 0
  }

  /** A performed live check can only downgrade a snapshot that is valid locally. */
  function ReportedStatus(local: Status, liveCheck: Option<Status>): Status {
    if local == OK && liveCheck.Some? && liveCheck.value in {Expired, Revoked, Unreachable}
    then liveCheck.value
    else local
  }

  function Reported(m: Message, s: Snapshot, status: Status): Candidate
    requires m.Report?
  {
    Candidate(m.account, Some(s), Sha256(s.raw), status, false, m.summary, NoFingerprint)
  }

  function Rejected(m: Message): Candidate
    requires m.Report?
  {
    Candidate(m.account, None, NoFingerprint, ParseError, false, "", NoFingerprint)
  }

  function Missing(account: Account): Candidate {
    Candidate(account, None, NoFingerprint, Unset, true, "", NoFingerprint)
  }

  // --------------------------------------------------------------- selection

  /** The nodes a push pass addresses. */
  function Targets(p: Profile, cands: map<NodeId, Candidate>, t: Truth, source: NodeId,
                   registered: set<NodeId>): set<NodeId> {
    set n | n in registered && n != source && n in cands && cands[n].account == t.account
            && (p.pushToAll || cands[n].absent || cands[n].fingerprint != t.fingerprint)
  }

  function PushOf(p: Profile, t: Truth): Push {
    Push(p.name, t.account, t.format, t.fingerprint, t.rawB64, p.targetPath, t.issuedAt, t.summary)
  }

  function SummaryOf(t: Option<Truth>): Summary {
    if t.Some? then t.value.summary else ""
  }

  /** How the nondeterminism of one account's selection is resolved: the viable candidate
      that the fold over a map keeps, the two clock readings, the sessions registered when
      the push pass looks, and the sends that succeed. */
  datatype Choice = Choice(best: NodeId, since: Time, now: Time, registered: set<NodeId>, sent: set<NodeId>)

  predicate Changes(prev: Option<Truth>, best: Candidate) {
    prev.None? || prev.value.fingerprint != best.fingerprint
  }

  predicate Suppressed(p: Profile, prev: Option<Truth>, best: Candidate, since: Time) {
    Changes(prev, best) && prev.Some? && p.cooldown > 0 && since - prev.value.pushedAt < p.cooldown
  }

  function NewTruth(a: Account, formatName: string, best: Candidate, now: Time): Truth
    requires best.snap.Some?
  {
    Truth(a, best.fingerprint, now, best.summary, Text(best.snap.value.raw), formatName, now)
  }

  function TruthAfter(p: Profile, formatName: string, a: Account, prev: Option<Truth>, best: Candidate,
                      c: Choice): Option<Truth>
    requires best.snap.Some?
  {
    if Suppressed(p, prev, best, c.since) || !Changes(prev, best) then prev
    else Some(NewTruth(a, formatName, best, c.now))
  }

  ghost function Announcements(p: Profile, cands: map<NodeId, Candidate>, prev: Option<Truth>, t: Truth,
                               source: NodeId): (events: seq<Event>)
    requires source in cands
    ensures forall e <- events :: e.Selected? || e.RestoredNotice?
  {
    if !Changes(prev, cands[source]) then []
    else [Selected(t, source)]
         + if prev.None? && p.notifies then [RestoredNotice(t, source, Sorted(InAccount(cands, t.account)))] else []
  }

  ghost function Propagation(p: Profile, cands: map<NodeId, Candidate>, prev: Option<Truth>, t: Truth,
                             c: Choice): (events: seq<Event>)
    ensures events != [] && events[0].PushPass?
    ensures forall e <- events :: e == events[0] || e.PropagatedNotice?
  {
    [PushPass(PushOf(p, t), c.best, c.registered, Targets(p, cands, t, c.best, c.registered), c.sent)]
    + if c.sent != {} && p.notifies
      then [PropagatedNotice(t, SummaryOf(prev), c.best, Sorted(c.sent), Sorted(InAccount(cands, t.account)))]
      else []
  }

  /** One account that has a viable candidate. */
  ghost predicate Decides(p: Profile, cands: map<NodeId, Candidate>, formatName: string, lo: Time, hi: Time,
                          a: Account, prev: Option<Truth>, next: Option<Truth>, events: seq<Event>, c: Choice)
  {
    && IsBest(p.format, cands, a, c.best)
    && lo <= c.since <= c.now <= hi
    && next == TruthAfter(p, formatName, a, prev, cands[c.best], c)
    && if Suppressed(p, prev, cands[c.best], c.since) then events == []
       else
         && c.sent <= Targets(p, cands, next.value, c.best, c.registered)
         && events == Announcements(p, cands, prev, next.value, c.best) + Propagation(p, cands, prev, next.value, c)
  }

  /** One account that has none: its truth is dropped. */
  ghost function Losses(p: Profile, cands: map<NodeId, Candidate>, a: Account,
                        prev: Option<Truth>): (events: seq<Event>)
    ensures forall e <- events :: e.Lost? || e.LostNotice?
  {
    if prev.None? then []
    else [Lost(prev.value)] + if p.notifies then [LostNotice(prev.value, Sorted(InAccount(cands, a)))] else []
  }

  /** What a reselect that starts at clock reading `lo` and ends at `hi` does to account `a`. */
  ghost predicate Reconciled(p: Profile, cands: map<NodeId, Candidate>, formatName: string, lo: Time, hi: Time,
                             a: Account, prev: Option<Truth>, next: Option<Truth>, events: seq<Event>)
  {
    if ViableNodes(cands, a) == {}
    then next == None && events == Losses(p, cands, a, prev)
    else exists c: Choice :: Decides(p, cands, formatName, lo, hi, a, prev, next, events, c)
  }

  /** The mirror holds every truth and, per account, the sorted nodes of that account. */
  ghost function MirrorOf(truths: map<Account, Truth>, cands: map<NodeId, Candidate>): map<Account, Mirrored> {
    map a | a in truths :: Mirrored(truths[a], Sorted(InAccount(cands, a)))
  }

  function NewEvents(s: State, s': State, a: Account): seq<Event>
    requires |s.EventsOf(a)| <= |s'.EventsOf(a)|
  {
    s'.EventsOf(a)[|s.EventsOf(a)|..]
  }

  ghost predicate AccountStep(p: Profile, formatName: string, lo: Time, s: State, s': State, a: Account) {
    && s.EventsOf(a) <= s'.EventsOf(a)
    && Reconciled(p, s'.candidates, formatName, lo, s'.clock, a, s.TruthOf(a), s'.TruthOf(a), NewEvents(s, s', a))
  }

  /** A reselect over candidates `cands`, started in state `s`. */
  ghost predicate Reselect(p: Profile, formatName: string, cands: map<NodeId, Candidate>, s: State, s': State) {
    && s.clock <= s'.clock
    && s'.candidates == cands
    && s'.mirror == MirrorOf(s'.truths, cands)
    && forall a: Account :: AccountStep(p, formatName, s.clock, s, s', a)
  }

  /** Nothing but the clock and the candidates may differ. */
  ghost predicate OnlyCandidates(s: State, s': State, cands: map<NodeId, Candidate>) {
    s.clock <= s'.clock && s' == s.(candidates := cands, clock := s'.clock)
  }

  ghost predicate ReportStep(p: Profile, s: State, m: Message, s': State)
    requires m.Report?
  {
    if m.rawB64 == Garbled || m.rawB64 == Text([]) then OnlyCandidates(s, s', s.candidates)
    else match p.parse(Decoded(m.rawB64).value)
      case None => OnlyCandidates(s, s', s.candidates[m.node := Rejected(m)])
      case Some(times) =>
        exists t: Time :: ValidatedAt(p, s, m, Snapshot(times, Decoded(m.rawB64).value), s', t)
  }

  ghost predicate ValidatedAt(p: Profile, s: State, m: Message, snap: Snapshot, s': State, t: Time)
    requires m.Report?
  {
    var status := ReportedStatus(Validate(p.format, snap, t), m.liveCheck);
    && s.clock <= t <= s'.clock
    && Reselect(p, m.format, s.candidates[m.node := Reported(m, snap, status)], s, s')
  }

  /** An ack from a node without a candidate creates an absent one. */
  function AckedCandidate(cands: map<NodeId, Candidate>, m: Message): Candidate
    requires m.Ack?
  {
    var c := if m.node in cands then cands[m.node] else Missing(m.account);
    if m.ok then c.(lastApplied := m.fingerprint) else c
  }

  /** The mediator in state `s` may handle `m` and end in state `s'`. */
  ghost predicate Next(p: Profile, s: State, m: Message, s': State) {
    match m
    case Report(_, _, _, _, _, _) => ReportStep(p, s, m, s')
    case Absent(n, a) => Reselect(p, p.formatName, s.candidates[n := Missing(a)], s, s')
    case Ack(n, _, _, _) => OnlyCandidates(s, s', s.candidates[n := AckedCandidate(s.candidates, m)])
    case Disconnect(n) => Reselect(p, p.formatName, s.candidates - {n}, s, s')
  }
}
