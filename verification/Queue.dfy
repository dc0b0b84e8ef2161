/** The bounded queues between a producer that must not block and its consumer: the events
    channel of the watcher and the receive channel of a connection. */
module Queue {

  const WATCHER_DEFAULT_QUEUE := 64

  /** The elements with a given fate, in order. */
  function Picked<T>(xs: seq<T>, fates: seq<bool>, fate: bool): seq<T>
    requires |xs| == |fates|
  {
    if xs == [] then []
    else
      var n := |xs| - 1;
      Picked(xs[..n], fates[..n], fate) + if fates[n] == fate then [xs[n]] else []
  }

  lemma PickedMore<T>(xs: seq<T>, fates: seq<bool>, more: seq<T>, x: T, b: bool, fate: bool)
    requires |xs| == |fates| && more == xs + [x]
    ensures Picked(more, fates + [b], fate) == Picked(xs, fates, fate) + if b == fate then [x] else []
  {
  }

  lemma {:induction false} PickedTaken<T>(xs: seq<T>, fates: seq<bool>, taken: seq<T>)
    requires |xs| == |fates|
    ensures |fates + seq(|taken|, _ => true)| == |xs + taken|
    ensures Picked(xs + taken, fates + seq(|taken|, _ => true), true) == Picked(xs, fates, true) + taken
    ensures Picked(xs + taken, fates + seq(|taken|, _ => true), false) == Picked(xs, fates, false)
    decreases |taken|
  {
    if taken == [] {
      assert xs + taken == xs && fates + seq(|taken|, _ => true) == fates;
    } else {
      var n := |taken| - 1;
      PickedTaken(xs, fates, taken[..n]);
      var fs := fates + seq(n, _ => true);
      assert xs + taken == (xs + taken[..n]) + [taken[n]];
      assert fates + seq(|taken|, _ => true) == fs + [true];
      PickedMore(xs + taken[..n], fs, xs + taken, taken[n], true, true);
      PickedMore(xs + taken[..n], fs, xs + taken, taken[n], true, false);
      assert taken == taken[..n] + [taken[n]];
    }
  }

  /** Where in `xs` the elements of `ys` are found, in order. */
  ghost predicate Embeds<T>(at: seq<nat>, ys: seq<T>, xs: seq<T>) {
    && |at| == |ys|
    && (forall i, j | 0 <= i < j < |at| :: at[i] < at[j])
    && (forall i | 0 <= i < |at| :: at[i] < |xs| && xs[at[i]] == ys[i])
  }

  /** Elements picked by fate form a subsequence. */
  lemma {:induction false} PickedInOrder<T>(xs: seq<T>, fates: seq<bool>, fate: bool) returns (at: seq<nat>)
    requires |xs| == |fates|
    ensures Embeds(at, Picked(xs, fates, fate), xs)
    decreases |xs|
  {
    at := [];
    if xs != [] {
      var n := |xs| - 1;
      at := PickedInOrder(xs[..n], fates[..n], fate);
      if fates[n] == fate { at := at + [n]; }
    }
  }

  /** Every element has one fate: none is lost, none is doubled. */
  ghost predicate Conserved<T>(xs: seq<T>, fates: seq<bool>)
    requires |xs| == |fates|
  {
    multiset(Picked(xs, fates, true)) + multiset(Picked(xs, fates, false)) == multiset(xs)
  }

  lemma OneMore<T>(got: seq<T>, lost: seq<T>, all: seq<T>, x: T)
    requires multiset(got) + multiset(lost) == multiset(all)
    ensures multiset(got + [x]) + multiset(lost) == multiset(all + [x])
    ensures multiset(got) + multiset(lost + [x]) == multiset(all + [x])
  {
  }

  lemma ConservedMore<T>(xs: seq<T>, fates: seq<bool>, x: T, b: bool)
    requires |xs| == |fates| && Conserved(xs, fates)
    ensures Conserved(xs + [x], fates + [b])
  {
  }

  lemma PickedConserves<T>(xs: seq<T>, fates: seq<bool>)
    requires |xs| == |fates|
    ensures Conserved(xs, fates)
  {
    var i := 0;
    while i < |xs|
      invariant i <= |xs| && Conserved(xs[..i], fates[..i])
    {
      ConservedMore(xs[..i], fates[..i], xs[i], fates[i]);
      assert xs[..i + 1] == xs[..i] + [xs[i]] && fates[..i + 1] == fates[..i] + [fates[i]];
      i := i + 1;
    }
    assert xs[..i] == xs && fates[..i] == fates;
  }

  /** A buffered channel with one producer. The consumer may take elements at any point; the
      producer's operations let it run between any two of their steps. */
  class BoundedQueue<T> {
    const cap: nat
    var buf: seq<T>
    var received: seq<T>
    /** Everything the producer ever put in, and what became of all but the elements still
        queued: whether the consumer got it. */
    ghost var delivered: seq<T>
    ghost var fates: seq<bool>

    ghost predicate Valid()
      reads this
    {
      && 0 < cap && |buf| <= cap
      && |fates| + |buf| == |delivered| && delivered[|fates|..] == buf
      && received == Picked(delivered[..|fates|], fates, true)
    }

    ghost function Dropped(): seq<T>
      requires Valid()
      reads this
    {
      Picked(delivered[..|fates|], fates, false)
    }

    /** A size of zero or less selects the default. */
    constructor (size: int, default_: nat)
      requires 0 < default_
      ensures Valid() && buf == received == delivered == []
      ensures cap == if size <= 0 then default_ else size
    {
      cap := if size <= 0 then default_ else size;
      buf, received, delivered, fates := [], [], [], [];
    }

    /** The consumer takes some elements from the front. */
    method Consume(k: nat)
      requires Valid() && k <= |buf|
      modifies this`buf, this`received, this`fates
      ensures Valid() && buf == old(buf)[k..] && received == old(received) + old(buf)[..k]
      ensures Dropped() == old(Dropped())
    {
      PickedTaken(delivered[..|fates|], fates, buf[..k]);
      assert delivered[..|fates| + k] == delivered[..|fates|] + buf[..k];
      received, buf, fates := received + buf[..k], buf[k..], fates + seq(k, _ => true);
    }

    method DropOldest()
      requires Valid() && buf != []
      modifies this`buf, this`fates
      ensures Valid() && buf == old(buf)[1..]
      ensures Dropped() == old(Dropped()) + [old(buf)[0]]
    {
      ghost var before := delivered[..|fates|];
      assert delivered[..|fates| + 1] == before + [buf[0]];
      PickedMore(before, fates, delivered[..|fates| + 1], buf[0], false, true);
      PickedMore(before, fates, delivered[..|fates| + 1], buf[0], false, false);
      buf, fates := buf[1..], fates + [false];
    }

    /** The consumer runs. */
    method Race()
      requires Valid()
      modifies this`buf, this`received, this`fates
      ensures Valid() && |buf| <= old(|buf|) && old(received) <= received && Dropped() == old(Dropped())
    {
      var k: nat :| k <= |buf|;
      Consume(k);
    }

    /** Drops the oldest element, unless the consumer has drained the queue meanwhile. */
    method MakeRoom()
      requires Valid()
      modifies this`buf, this`received, this`fates
      ensures Valid() && |buf| <= old(|buf|) && (old(buf) != [] ==> |buf| < old(|buf|))
      ensures old(received) <= received && old(Dropped()) <= Dropped() && |Dropped()| <= |old(Dropped())| + 1
    {
      Race();
      if buf != [] { DropOldest(); }
    }

    /** A non-blocking send. */
    method TrySend(x: T) returns (ok: bool)
      requires Valid()
      modifies this`buf, this`delivered
      ensures Valid() && ok == (|old(buf)| < cap)
      ensures buf == (if ok then old(buf) + [x] else old(buf)) && delivered == if ok then old(delivered) + [x]
              else old(delivered)
      ensures Dropped() == old(Dropped())
    {
      ok := |buf| < cap;
      if ok {
        assert (delivered + [x])[..|fates|] == delivered[..|fates|];
        buf, delivered := buf + [x], delivered + [x];
      }
    }

    /** What both kinds of delivery promise: the new element is the last one queued, at most
        one old element was dropped, and none if there was room. */
    twostate predicate Delivered(x: T)
      requires old(Valid()) && Valid()
      reads this
    {
      && delivered == old(delivered) + [x]
      && buf != [] && buf[|buf| - 1] == x
      && old(received) <= received
      && old(Dropped()) <= Dropped() && |Dropped()| <= |old(Dropped())| + 1
      && (old(|buf|) < cap ==> Dropped() == old(Dropped()))
    }

    /** How a connection queues an envelope. */
    method Deliver(x: T)
      requires Valid()
      modifies this
      ensures Valid() && Delivered(x)
    {
      var sent := false;
      while !sent
        invariant Valid()
        invariant sent ==> Delivered(x)
        invariant !sent ==> delivered == old(delivered) && old(received) <= received && |buf| <= |old(buf)|
        invariant !sent ==> old(Dropped()) <= Dropped() && |Dropped()| <= |old(Dropped())| + 1
        invariant !sent && Dropped() != old(Dropped()) ==> old(|buf|) == cap && |buf| < cap
        decreases !sent, |buf|
      {
        Race();
        sent := TrySend(x);
        if !sent { MakeRoom(); }
      }
    }

    /** How the watcher publishes an event. */
    method Publish(x: T)
      requires Valid()
      modifies this
      ensures Valid() && Delivered(x)
    {
      var sent := TrySend(x);
      while !sent
        invariant Valid()
        invariant sent ==> Delivered(x)
        invariant !sent ==> delivered == old(delivered) && old(received) <= received && |buf| == old(|buf|) == cap
        invariant !sent ==> Dropped() == old(Dropped())
        decreases !sent
      {
        MakeRoom();
        Race();
        sent := TrySend(x);
      }
    }

    /** Whatever the interleaving was, the consumer received an in-order subsequence of what
        was delivered, followed by what is still queued; the rest was dropped. */
    lemma ReceivedInOrder() returns (at: seq<nat>)
      requires Valid()
      ensures Embeds(at, received + buf, delivered)
      ensures multiset(received) + multiset(buf) + multiset(Dropped()) == multiset(delivered)
    {
      var fs := fates + seq(|buf|, _ => true);
      PickedTaken(delivered[..|fates|], fates, buf);
      assert delivered == delivered[..|fates|] + buf;
      at := PickedInOrder(delivered, fs, true);
      PickedConserves(delivered, fs);
    }
  }
}
