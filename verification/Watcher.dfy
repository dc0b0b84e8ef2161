/** The file watcher: raw notifications are debounced, and a change is reported only once the
    file's size and modification time have held still for a while. */
module Watcher {
  import opened Formats
  import opened Queue

  type Path = string

  /** What `stat` shows of a path. */
  datatype Stat = Gone | Present(size: int, modTime: Time)

  datatype Event = Event(path: Path, stat: Stat)

  datatype Options = Options(debounce: Time, window: Time)

  const DEFAULTS := Options(50_000_000, 200_000_000)

  /** A stat result and the clock reading it was first seen at. */
  datatype Sample = Sample(since: Time, stat: Stat)

  /** What the loop sees: a raw notification for some name, or a tick of its timer with the
      stat results it would find. */
  datatype Input = Raw(now: Time, name: Path) | Tick(now: Time, stats: Path -> Stat)

  // ------------------------------------------------------------- one path

  /** What the loop keeps for one path: the last raw notification it has not answered, and
      the sample it waits on. */
  datatype Track = Track(pending: Option<Time>, stable: Option<Sample>)

  const IDLE := Track(None, None)

  predicate Due(o: Options, t: Track, now: Time) {
    t.pending.Some? && now - t.pending.value >= o.debounce
  }

  predicate Settled(o: Options, t: Track, now: Time, stat: Stat) {
    Due(o, t, now) && t.stable.Some? && t.stable.value.stat == stat && now - t.stable.value.since >= o.window
  }

  function Next(o: Options, p: Path, t: Track, input: Input): Track {
    match input
    case Raw(now, name) => if name == p then Track(Some(now), None) else t
    case Tick(now, stats) =>
      if !Due(o, t, now) then t
      else if Settled(o, t, now, stats(p)) then IDLE
      else if t.stable.Some? && t.stable.value.stat == stats(p) then t
      else t.(stable := Some(Sample(now, stats(p))))
  }

  function After(o: Options, p: Path, inputs: seq<Input>): Track {
    if inputs == [] then IDLE
    else Next(o, p, After(o, p, inputs[..|inputs| - 1]), inputs[|inputs| - 1])
  }

  /** Whether the loop reports the path on the input at `i`. */
  predicate Emits(o: Options, p: Path, inputs: seq<Input>, i: nat)
    requires i < |inputs|
  {
    inputs[i].Tick? && Settled(o, After(o, p, inputs[..i]), inputs[i].now, inputs[i].stats(p))
  }

  /** The reports for one path, in order. */
  function Reports(o: Options, p: Path, inputs: seq<Input>): seq<Event> {
    if inputs == [] then []
    else
      var n := |inputs| - 1;
      Reports(o, p, inputs[..n]) + if Emits(o, p, inputs, n) then [Event(p, inputs[n].stats(p))] else []
  }

  // ------------------------------------------------------------ the theorems

  ghost predicate Monotone(inputs: seq<Input>) {
    forall i, j | 0 <= i <= j < |inputs| :: inputs[i].now <= inputs[j].now
  }

  predicate IsRaw(p: Path, input: Input) {
    input.Raw? && input.name == p
  }

  /** The last raw notification for `p` before `i` is the one at `r`. */
  ghost predicate LastRaw(p: Path, inputs: seq<Input>, r: nat, i: nat) {
    && r < i <= |inputs| && IsRaw(p, inputs[r])
    && forall j | r < j < i :: !IsRaw(p, inputs[j])
  }

  lemma LastRawUnique(p: Path, inputs: seq<Input>, r: nat, r': nat, i: nat)
    requires LastRaw(p, inputs, r, i) && LastRaw(p, inputs, r', i)
    ensures r == r'
  {
  }

  /** The tick at `j` samples the path, given that its last raw notification was at `r`. */
  predicate Samples(o: Options, inputs: seq<Input>, r: nat, j: nat)
    requires r < |inputs| && j < |inputs|
  {
    inputs[j].Tick? && inputs[j].now - inputs[r].now >= o.debounce
  }

  ghost predicate Unchanging(o: Options, p: Path, inputs: seq<Input>, r: nat, from: nat, to: nat, stat: Stat)
    requires r < |inputs| && to <= |inputs|
  {
    forall j | from <= j < to && Samples(o, inputs, r, j) :: inputs[j].stats(p) == stat
  }

  ghost predicate Silent(o: Options, p: Path, inputs: seq<Input>, from: nat, to: nat)
    requires to <= |inputs|
  {
    forall j | from <= j < to :: !Emits(o, p, inputs, j)
  }

  /** Where the state of a path comes from. */
  ghost predicate Explained(o: Options, p: Path, inputs: seq<Input>, i: nat, t: Track, r: nat, k: nat)
    requires i <= |inputs|
  {
    && (t.stable.Some? ==> t.pending.Some?)
    && (t.pending.Some? ==> LastRaw(p, inputs, r, i) && inputs[r].now == t.pending.value && Silent(o, p, inputs, r, i))
    && (t.stable.Some? ==>
          && r < k < i && Samples(o, inputs, r, k)
          && t.stable.value == Sample(inputs[k].now, inputs[k].stats(p))
          && Unchanging(o, p, inputs, r, k, i, t.stable.value.stat))
  }

  lemma {:induction false} StateExplained(o: Options, p: Path, inputs: seq<Input>, i: nat) returns (r: nat, k: nat)
    requires i <= |inputs|
    ensures Explained(o, p, inputs, i, After(o, p, inputs[..i]), r, k)
    decreases i
  {
    if i == 0 { return 0, 0; }
    var n := i - 1;
    assert inputs[..i][..n] == inputs[..n];
    r, k := StateExplained(o, p, inputs, n);
    var t := After(o, p, inputs[..n]);
    if IsRaw(p, inputs[n]) {
      r := n;
    } else if inputs[n].Tick? && Due(o, t, inputs[n].now)
        && !(t.stable.Some? && t.stable.value.stat == inputs[n].stats(p)) {
      k := n;
    }
  }

  /** Debounce safety. A report comes at least the debounce time plus the stable window after
      the last raw notification for its path, nothing was reported in between, and every
      sample taken since the one it waited on was equal to it. */
  lemma ReportsAreStable(o: Options, p: Path, inputs: seq<Input>, i: nat) returns (r: nat, k: nat)
    requires i < |inputs| && Emits(o, p, inputs, i)
    ensures LastRaw(p, inputs, r, i) && Silent(o, p, inputs, r, i)
    ensures r < k < i && Samples(o, inputs, r, k) && Unchanging(o, p, inputs, r, k, i + 1, inputs[i].stats(p))
    ensures inputs[i].now >= inputs[k].now + o.window >= inputs[r].now + o.debounce + o.window
  {
    r, k := StateExplained(o, p, inputs, i);
  }

  /** With the default limits: a quarter of a second after the last raw notification at the
      earliest, with equal samples over the last fifth of a second. */
  lemma DefaultReportsAreStable(o: Options, p: Path, inputs: seq<Input>, i: nat) returns (r: nat, k: nat)
    requires o.debounce == 50_000_000 && o.window == 200_000_000
    requires i < |inputs| && Emits(o, p, inputs, i)
    ensures LastRaw(p, inputs, r, i) && Silent(o, p, inputs, r, i)
    ensures r < k < i && inputs[k].Tick? && inputs[i].now - inputs[k].now >= 200_000_000
    ensures inputs[i].now - inputs[r].now >= 250_000_000
    ensures forall j | k <= j <= i && inputs[j].Tick? && inputs[j].now - inputs[r].now >= 50_000_000 ::
              inputs[j].stats(p) == inputs[i].stats(p)
  {
    r, k := ReportsAreStable(o, p, inputs, i);
    forall j | k <= j <= i && inputs[j].Tick? && inputs[j].now - inputs[r].now >= 50_000_000
      ensures inputs[j].stats(p) == inputs[i].stats(p)
    {
      assert Samples(o, inputs, r, j);
    }
  }

  /** What is reported is what the tick found, and nothing else is. */
  lemma {:induction false} ReportedExactly(o: Options, p: Path, inputs: seq<Input>, e: Event)
    ensures e in Reports(o, p, inputs) <==>
            exists i: nat :: i < |inputs| && ReportsAt(o, p, inputs, e, i)
    decreases |inputs|
  {
    if inputs != [] {
      var n := |inputs| - 1;
      ReportedExactly(o, p, inputs[..n], e);
      forall i: nat | i < n
        ensures ReportsAt(o, p, inputs[..n], e, i) <==> ReportsAt(o, p, inputs, e, i)
      {
        assert inputs[..n][..i] == inputs[..i];
      }
      assert e in Reports(o, p, inputs) <==> e in Reports(o, p, inputs[..n]) || ReportsAt(o, p, inputs, e, n);
    }
  }

  predicate ReportsAt(o: Options, p: Path, inputs: seq<Input>, e: Event, i: nat)
    requires i < |inputs|
  {
    Emits(o, p, inputs, i) && e.path == p && e.stat == inputs[i].stats(p)
  }

  /** Once a raw notification is handled the path stays pending until it is reported. */
  lemma {:induction false} StaysPending(o: Options, p: Path, inputs: seq<Input>, r: nat, i: nat)
    requires r < i <= |inputs| && IsRaw(p, inputs[r]) && Silent(o, p, inputs, r, i)
    ensures After(o, p, inputs[..i]).pending.Some?
    decreases i
  {
    var n := i - 1;
    assert inputs[..i][..n] == inputs[..n] && !Emits(o, p, inputs, n);
    if r < n { StaysPending(o, p, inputs, r, n); }
  }

  /** From the raw notification at `r` on, with no other one, the loop waits for the first
      eligible tick at `e` and then holds on to the sample it took there. */
  lemma {:induction false} HoldsSample(o: Options, p: Path, inputs: seq<Input>, r: nat, e: nat, i: nat)
    requires r < e < |inputs| && r < i <= |inputs| && LastRaw(p, inputs, r, i) && Silent(o, p, inputs, r, i)
    requires Samples(o, inputs, r, e) && forall j | r < j < e :: !Samples(o, inputs, r, j)
    requires Unchanging(o, p, inputs, r, e, i, inputs[e].stats(p))
    ensures After(o, p, inputs[..i]) == Track(Some(inputs[r].now),
                                              if i <= e then None else Some(Sample(inputs[e].now, inputs[e].stats(p))))
    decreases i
  {
    var n := i - 1;
    assert inputs[..i][..n] == inputs[..n] && !Emits(o, p, inputs, n);
    if r < n {
      HoldsSample(o, p, inputs, r, e, n);
      assert !IsRaw(p, inputs[n]);
      assert Samples(o, inputs, r, n) <==> inputs[n].Tick? && Due(o, After(o, p, inputs[..n]), inputs[n].now);
    }
  }

  /** No lost change. If no other raw notification comes and every sample equals the first
      one, taken at `e`, then the change has been reported by any tick that comes the stable
      window or more after `e`. */
  lemma ChangeIsReported(o: Options, p: Path, inputs: seq<Input>, r: nat, e: nat, i: nat) returns (m: nat)
    requires Monotone(inputs) && r < e < i < |inputs| && LastRaw(p, inputs, r, i)
    requires Samples(o, inputs, r, e) && forall j | r < j < e :: !Samples(o, inputs, r, j)
    requires Unchanging(o, p, inputs, r, e, i + 1, inputs[e].stats(p))
    requires inputs[i].Tick? && inputs[i].now >= inputs[e].now + o.window
    ensures e < m <= i && Emits(o, p, inputs, m) && inputs[m].stats(p) == inputs[e].stats(p)
  {
    if Silent(o, p, inputs, r, i) {
      HoldsSample(o, p, inputs, r, e, i);
      m := i;
    } else {
      m :| r <= m < i && Emits(o, p, inputs, m);
      assert m != r;
      var r', k := StateExplained(o, p, inputs, m);
      LastRawUnique(p, inputs, r, r', m);
    }
  }

  // ------------------------------------------------------------- the watcher

  function EventsFor(events: seq<Event>, p: Path): seq<Event> {
    if events == [] then []
    else
      var n := |events| - 1;
      EventsFor(events[..n], p) + if events[n].path == p then [events[n]] else []
  }

  lemma EventsForMore(events: seq<Event>, more: seq<Event>, e: Event, p: Path)
    requires more == events + [e]
    ensures EventsFor(more, p) == EventsFor(events, p) + if e.path == p then [e] else []
  {
  }

  lemma {:induction false} EventsForHas(events: seq<Event>, e: Event)
    ensures e in EventsFor(events, e.path) <==> e in events
    decreases |events|
  {
    if events != [] {
      var n := |events| - 1;
      EventsForHas(events[..n], e);
      assert events == events[..n] + [events[n]];
    }
  }

  function TrackIn(pending: map<Path, Time>, stable: map<Path, Sample>, p: Path): Track {
    Track(if p in pending then Some(pending[p]) else None, if p in stable then Some(stable[p]) else None)
  }

  /** What a tick makes the loop publish for one path. */
  function Report(o: Options, p: Path, t: Track, input: Input): seq<Event>
    requires input.Tick?
  {
    if Settled(o, t, input.now, input.stats(p)) then [Event(p, input.stats(p))] else []
  }

  /** A tick has been handled for every path outside `due`, and for none inside. */
  ghost predicate Progress(o: Options, input: Input, due: set<Path>, pending0: map<Path, Time>,
                           stable0: map<Path, Sample>,
                           pending: map<Path, Time>, stable: map<Path, Sample>, published: seq<Event>)
    requires input.Tick?
  {
    forall p: Path :: PathProgress(o, input, p, due, TrackIn(pending0, stable0, p), TrackIn(pending, stable, p),
                                   EventsFor(published, p))
  }

  predicate PathProgress(o: Options, input: Input, p: Path, due: set<Path>, before: Track, after: Track,
                         published: seq<Event>)
    requires input.Tick?
  {
    if p in due then after == before && published == []
    else after == Next(o, p, before, input) && published == Report(o, p, before, input)
  }

  lemma OneSampled(o: Options, input: Input, due: set<Path>, pending0: map<Path, Time>, stable0: map<Path, Sample>,
                   pending: map<Path, Time>, stable: map<Path, Sample>, published: seq<Event>, p: Path,
                   pending': map<Path, Time>, stable': map<Path, Sample>)
    requires input.Tick? && p in due && Progress(o, input, due, pending0, stable0, pending, stable, published)
    requires TrackIn(pending', stable', p) == Next(o, p, TrackIn(pending, stable, p), input)
    requires forall q: Path | q != p :: TrackIn(pending', stable', q) == TrackIn(pending, stable, q)
    ensures Progress(o, input, due - {p}, pending0, stable0, pending', stable',
                     published + Report(o, p, TrackIn(pending, stable, p), input))
  {
    var before := TrackIn(pending0, stable0, p);
    assert PathProgress(o, input, p, due, before, TrackIn(pending, stable, p), EventsFor(published, p));
    var more := published + Report(o, p, before, input);
    forall q: Path
      ensures PathProgress(o, input, q, due - {p}, TrackIn(pending0, stable0, q), TrackIn(pending', stable', q),
                           EventsFor(more, q))
    {
      assert PathProgress(o, input, q, due, TrackIn(pending0, stable0, q), TrackIn(pending, stable, q),
                          EventsFor(published, q));
      if Report(o, p, before, input) == [] {
        assert more == published;
      } else {
        EventsForMore(published, more, Event(p, input.stats(p)), q);
      }
    }
  }

  ghost predicate AllFor(events: seq<Event>, paths: seq<Path>) {
    forall e <- events :: e.path in paths
  }

  /** The loop keeps something for these paths only. */
  ghost predicate TrackedIn(paths: seq<Path>, pending: map<Path, Time>, stable: map<Path, Sample>) {
    forall p: Path | TrackIn(pending, stable, p) != IDLE :: p in paths
  }

  /** The paths in `due` are due at clock reading `now`. */
  ghost predicate AllDue(o: Options, paths: seq<Path>, due: set<Path>, pending: map<Path, Time>,
                         stable: map<Path, Sample>, now: Time)
  {
    TrackedIn(paths, pending, stable) && forall p <- due :: Due(o, TrackIn(pending, stable, p), now)
  }

  lemma StillDue(o: Options, paths: seq<Path>, due: set<Path>, pending: map<Path, Time>, stable: map<Path, Sample>,
                 now: Time, p: Path, pending': map<Path, Time>, stable': map<Path, Sample>)
    requires AllDue(o, paths, due, pending, stable, now) && p in due
    requires forall q: Path | q != p :: TrackIn(pending', stable', q) == TrackIn(pending, stable, q)
    ensures AllDue(o, paths, due - {p}, pending', stable', now)
  {
  }

  /** Nothing is published for a path that the loop keeps nothing for. */
  lemma OnlyTracked(o: Options, input: Input, paths: seq<Path>, pending0: map<Path, Time>, stable0: map<Path, Sample>,
                    pending: map<Path, Time>, stable: map<Path, Sample>, sofar: seq<Event>, published: seq<Event>)
    requires input.Tick? && Progress(o, input, {}, pending0, stable0, pending, stable, published)
    requires TrackedIn(paths, pending0, stable0)
    requires AllFor(sofar, paths)
    ensures AllFor(sofar + published, paths)
  {
    forall e <- published
      ensures e.path in paths
    {
      EventsForHas(published, e);
      assert PathProgress(o, input, e.path, {}, TrackIn(pending0, stable0, e.path), TrackIn(pending, stable, e.path),
                          EventsFor(published, e.path));
    }
  }

  lemma {:induction false} EventsForAppended(xs: seq<Event>, ys: seq<Event>, all: seq<Event>, p: Path)
    requires all == xs + ys
    ensures EventsFor(all, p) == EventsFor(xs, p) + EventsFor(ys, p)
    decreases |ys|
  {
    if ys == [] {
      assert all == xs;
    } else {
      var n := |ys| - 1;
      var ys', all' := ys[..n], all[..|xs| + n];
      assert all' == xs + ys' && all == all' + [ys[n]] && ys == ys' + [ys[n]];
      EventsForAppended(xs, ys', all', p);
      EventsForMore(all', all, ys[n], p);
      EventsForMore(ys', ys, ys[n], p);
    }
  }

  class FsWatcher {
    const paths: seq<Path>
    const opts: Options
    const events: BoundedQueue<Event>
    var pending: map<Path, Time>
    var stable: map<Path, Sample>
    /** The inputs handled so far, and how many events were published before the first. */
    ghost var inputs: seq<Input>
    ghost var initial: nat

    ghost predicate Tracked()
      reads this`pending, this`stable
    {
      TrackedIn(paths, pending, stable)
    }

    /** The loop keeps every path as if it were the only one. */
    ghost predicate Valid()
      reads this, events
    {
      && events.Valid() && initial <= |events.delivered|
      && Tracked()
      && (forall p <- paths :: TrackIn(pending, stable, p) == After(opts, p, inputs))
      && (forall p <- paths :: EventsFor(events.delivered[initial..], p) == Reports(opts, p, inputs))
      && AllFor(events.delivered[initial..], paths)
    }

    /** After the initial ones, the events published are exactly the reports of the paths. */
    lemma PublishedExactly(e: Event)
      requires Valid()
      ensures e in events.delivered[initial..] <==>
              e.path in paths && exists i: nat :: i < |inputs| && ReportsAt(opts, e.path, inputs, e, i)
    {
      EventsForHas(events.delivered[initial..], e);
      if e.path in paths { ReportedExactly(opts, e.path, inputs, e); }
    }

    /** Starting publishes the present state of every path. Options of zero or less select the
        defaults. */
    constructor (paths: seq<Path>, debounce: Time, window: Time, maxQueue: int, stats: Path -> Stat)
      ensures Valid() && fresh(events) && this.paths == paths && inputs == []
      ensures opts.debounce == if debounce > 0 then debounce else 50_000_000
      ensures opts.window == if window > 0 then window else 200_000_000
      ensures events.cap == if maxQueue > 0 then maxQueue else 64
      ensures initial == |paths| && events.delivered
              == seq(|paths|, i requires 0 <= i < |paths| => Event(paths[i], stats(paths[i])))
    {
      this.paths := paths;
      opts := Options(if debounce <= 0 then DEFAULTS.debounce else debounce,
                      if window <= 0 then DEFAULTS.window else window);
      var queue := new BoundedQueue<Event>(maxQueue, WATCHER_DEFAULT_QUEUE);
      events := queue;
      pending, stable, inputs, initial := map[], map[], [], |paths|;
      new;
      for i := 0 to |paths|
        invariant events.Valid() && fresh(events) && pending == map[] && stable == map[] && inputs == []
                  && initial == |paths|
        invariant events.delivered == seq(i, j requires 0 <= j < i => Event(paths[j], stats(paths[j])))
      {
        events.Publish(Event(paths[i], stats(paths[i])));
      }
      assert events.delivered[initial..] == [];
    }

    method RawEvent(name: Path, now: Time)
      requires Valid()
      modifies this
      ensures Valid() && inputs == old(inputs) + [Raw(now, name)] && initial == old(initial)
    {
      var tracked := false;
      for i := 0 to |paths|
        invariant tracked == (name in paths[..i])
        invariant inputs == old(inputs) && initial == old(initial)
        invariant pending == if tracked then old(pending)[name := now] else old(pending)
        invariant stable == if tracked then old(stable) - {name} else old(stable)
      {
        if name == paths[i] {
          pending, stable, tracked := pending[name := now], stable - {name}, true;
        }
      }
      ghost var input := Raw(now, name);
      inputs := inputs + [input];
      assert inputs[..|inputs| - 1] == old(inputs);
    }

    /** Samples one path that is due. */
    method Poll(p: Path, now: Time, stats: Path -> Stat)
      requires events.Valid() && p in pending && Due(opts, TrackIn(pending, stable, p), now)
      modifies this`pending, this`stable, events
      ensures events.Valid()
      ensures var input, t := Tick(now, stats), old(TrackIn(pending, stable, p));
              && TrackIn(pending, stable, p) == Next(opts, p, t, input)
              && events.delivered == old(events.delivered) + Report(opts, p, t, input)
      ensures forall q: Path | q != p :: TrackIn(pending, stable, q) == TrackIn(old(pending), old(stable), q)
    {
      var stat := stats(p);
      var sameSample := p in stable && stable[p].stat == stat;
      if sameSample && now - stable[p].since >= opts.window {
        events.Publish(Event(p, stat));
        stable, pending := stable - {p}, pending - {p};
      } else if !sameSample {
        stable := stable[p := Sample(now, stat)];
      }
    }

    /** Samples the paths that are due, in whatever order the map yields them. */
    method PollAll(now: Time, stats: Path -> Stat) returns (ghost published: seq<Event>)
      requires events.Valid() && Tracked()
      modifies this`pending, this`stable, events
      ensures events.Valid() && events.delivered == old(events.delivered) + published
      ensures Progress(opts, Tick(now, stats), {}, old(pending), old(stable), pending, stable, published)
      ensures Tracked()
    {
      ghost var input := Tick(now, stats);
      var due := set p | p in pending && now - pending[p] >= opts.debounce;
      published := [];
      while due != {}
        invariant events.Valid() && events.delivered == old(events.delivered) + published
        invariant AllDue(opts, paths, due, pending, stable, now)
        invariant Progress(opts, input, due, old(pending), old(stable), pending, stable, published)
      {
        var p :| p in due;
        ghost var pending1, stable1 := pending, stable;
        ghost var before := TrackIn(pending, stable, p);
        Poll(p, now, stats);
        StillDue(opts, paths, due, pending1, stable1, now, p, pending, stable);
        OneSampled(opts, input, due, old(pending), old(stable), pending1, stable1, published, p, pending, stable);
        due, published := due - {p}, published + Report(opts, p, before, input);
      }
    }

    method OnTick(now: Time, stats: Path -> Stat)
      requires Valid()
      modifies this, events
      ensures Valid() && inputs == old(inputs) + [Tick(now, stats)] && initial == old(initial)
    {
      ghost var input, sofar, pending0, stable0 := Tick(now, stats), events.delivered, pending, stable;
      ghost var published := PollAll(now, stats);
      inputs := inputs + [input];
      assert inputs[..|inputs| - 1] == old(inputs);
      assert events.delivered[initial..] == sofar[initial..] + published;
      OnlyTracked(opts, input, paths, pending0, stable0, pending, stable, sofar[initial..], published);
      forall p <- paths
        ensures TrackIn(pending, stable, p) == After(opts, p, inputs)
        ensures EventsFor(events.delivered[initial..], p) == Reports(opts, p, inputs)
      {
        assert PathProgress(opts, input, p, {}, TrackIn(pending0, stable0, p), TrackIn(pending, stable, p),
                            EventsFor(published, p));
        EventsForAppended(sofar[initial..], published, events.delivered[initial..], p);
      }
    }
  }
}
