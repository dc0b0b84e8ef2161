/** What the mediator does to the world outside, and how it follows from the history that the
    specification speaks of. */
module MediatorJournal {
  import opened Formats
  import opened MediatorSpec

  /** The hub's answer about the registered sessions, a push handed to a node's connection, a
      send that succeeded, and a notification. A push whose send fails may still arrive. */
  datatype Effect =
    | Answered(registered: set<NodeId>)
    | Tried(to: NodeId, push: Push)
    | Sent(to: NodeId, push: Push)
    | Notified(notice: Event)

  predicate IsNotice(e: Event) {
    e.LostNotice? || e.RestoredNotice? || e.PropagatedNotice?
  }

  /** What an event of a history means for the world. */
  function EffectsOf(e: Event): set<Effect> {
    match e
    case PushPass(push, _, registered, targets, sent) =>
      {Answered(registered)} + PushEffects(targets, sent, push)
    case _ => if IsNotice(e) then {Notified(e)} else {}
  }

  function PushEffects(tried: set<NodeId>, sent: set<NodeId>, push: Push): set<Effect> {
    (set n | n in tried :: Tried(n, push)) + (set n | n in sent :: Sent(n, push))
  }

  /** What a series of events adds to what was done before. */
  function Recorded(done: multiset<Effect>, events: seq<Event>): multiset<Effect> {
    if events == [] then done
    else Recorded(done, events[..|events| - 1]) + multiset(EffectsOf(events[|events| - 1]))
  }

  lemma RecordedMore(done: multiset<Effect>, events: seq<Event>, e: Event)
    ensures Recorded(done, events + [e]) == Recorded(done, events) + multiset(EffectsOf(e))
  {
    assert (events + [e])[..|events|] == events;
  }

  /** An event, and perhaps a notice after it. */
  lemma RecordedPair(done: multiset<Effect>, e: Event, notice: Event)
    requires IsNotice(notice)
    ensures Recorded(done, [e]) == done + multiset(EffectsOf(e))
    ensures Recorded(done, [e, notice]) == done + multiset(EffectsOf(e)) + multiset{Notified(notice)}
  {
    RecordedMore(done, [], e);
    RecordedMore(done, [e], notice);
    assert [] + [e] == [e] && [e] + [notice] == [e, notice];
  }

  lemma {:induction false} RecordedApart(done: multiset<Effect>, a: seq<Event>, b: seq<Event>, all: seq<Event>)
    requires all == a + b
    ensures Recorded(done, all) == Recorded(Recorded(done, a), b)
    decreases |b|
  {
    if b == [] {
      assert all == a;
    } else {
      var n := |b| - 1;
      RecordedApart(done, a, b[..n], all[..|a| + n]);
    }
  }

  /** One more attempt of a push pass. */
  lemma PushEffectsMore(tried: set<NodeId>, sent: set<NodeId>, push: Push, n: NodeId, ok: bool)
    requires sent <= tried && n !in tried
    ensures multiset(PushEffects(tried + {n}, if ok then sent + {n} else sent, push)) ==
            multiset(PushEffects(tried, sent, push)) + multiset{Tried(n, push)}
            + if ok then multiset{Sent(n, push)} else multiset{}
  {
    var before := PushEffects(tried, sent, push);
    var new_ := {Tried(n, push)} + if ok then {Sent(n, push)} else {};
    assert PushEffects(tried + {n}, if ok then sent + {n} else sent, push) == before + new_;
    assert before !! new_;
  }

  lemma PassEffects(push: Push, source: NodeId, registered: set<NodeId>, targets: set<NodeId>, sent: set<NodeId>)
    ensures multiset(EffectsOf(PushPass(push, source, registered, targets, sent))) ==
            multiset{Answered(registered)} + multiset(PushEffects(targets, sent, push))
  {
    assert Answered(registered) !in PushEffects(targets, sent, push);
  }

  // ------------------------------------------------------------- whole histories

  predicate Did(history: map<Account, seq<Event>>, a: Account, e: Event) {
    a in history && e in history[a]
  }

  predicate Causes(history: map<Account, seq<Event>>, a: Account, e: Event, x: Effect) {
    Did(history, a, e) && x in EffectsOf(e)
  }

  /** The world has seen what the history says, and nothing else. */
  ghost predicate Accounted(history: map<Account, seq<Event>>, done: multiset<Effect>) {
    forall x: Effect :: x in done <==> exists a: Account, e: Event :: Causes(history, a, e, x)
  }

  function EventsIn(history: map<Account, seq<Event>>, a: Account): seq<Event> {
    if a in history then history[a] else []
  }

  /** These events were appended for `a`, and the world has seen them. */
  ghost predicate Happened(history: map<Account, seq<Event>>, done: multiset<Effect>, a: Account, events: seq<Event>,
                           history': map<Account, seq<Event>>, done': multiset<Effect>)
  {
    history' == history[a := EventsIn(history, a) + events] && done' == Recorded(done, events)
  }

  lemma AppendedTwice(h: seq<Event>, e1: seq<Event>, e2: seq<Event>)
    ensures h + e1 + e2 == h + (e1 + e2)
  {
  }

  lemma HappenedBoth(h0: map<Account, seq<Event>>, d0: multiset<Effect>, a: Account, e1: seq<Event>,
                     h1: map<Account, seq<Event>>, d1: multiset<Effect>, e2: seq<Event>,
                     h2: map<Account, seq<Event>>, d2: multiset<Effect>)
    requires Happened(h0, d0, a, e1, h1, d1) && Happened(h1, d1, a, e2, h2, d2)
    ensures Happened(h0, d0, a, e1 + e2, h2, d2)
  {
    RecordedApart(d0, e1, e2, e1 + e2);
    AppendedTwice(EventsIn(h0, a), e1, e2);
  }

  /** Only the history of `a` differs, by these events. */
  ghost predicate Grows(history: map<Account, seq<Event>>, history': map<Account, seq<Event>>, a: Account,
                        events: seq<Event>)
  {
    && (forall e: Event :: Did(history', a, e) <==> Did(history, a, e) || e in events)
    && (forall b: Account, e: Event | b != a :: Did(history', b, e) <==> Did(history, b, e))
  }

  lemma HappenedGrows(history: map<Account, seq<Event>>, done: multiset<Effect>, a: Account, events: seq<Event>,
                      history': map<Account, seq<Event>>, done': multiset<Effect>)
    requires Happened(history, done, a, events, history', done')
    ensures Grows(history, history', a, events)
  {
  }

  lemma {:induction false} RecordedIn(done: multiset<Effect>, events: seq<Event>, x: Effect)
    ensures x in Recorded(done, events) <==> x in done || exists e :: e in events && x in EffectsOf(e)
    decreases |events|
  {
    if events != [] {
      var n := |events| - 1;
      RecordedIn(done, events[..n], x);
      assert events == events[..n] + [events[n]];
    }
  }

  lemma StaysAccounted(history: map<Account, seq<Event>>, history': map<Account, seq<Event>>, a: Account,
                       events: seq<Event>, done: multiset<Effect>)
    requires Accounted(history, done) && Grows(history, history', a, events)
    ensures Accounted(history', Recorded(done, events))
  {
    forall x: Effect
      ensures x in Recorded(done, events) <==> exists b: Account, e: Event :: Causes(history', b, e, x)
    {
      RecordedIn(done, events, x);
      if x in done {
        var b: Account, e: Event :| Causes(history, b, e, x);
        assert Causes(history', b, e, x);
      }
      if e :| e in events && x in EffectsOf(e) {
        assert Causes(history', a, e, x);
      }
      if b: Account, e: Event :| Causes(history', b, e, x) {
        assert b != a || e !in events ==> Causes(history, b, e, x);
      }
    }
  }
}
