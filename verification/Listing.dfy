/** Sorted, duplicate-free listings of sets of names: what collecting the keys of a map,
    `sort.Strings` and `slices.Compact` yield together. */
module Listing {

  /** The order `sort.Strings` sorts by: by code point, a proper prefix first. */
  predicate Less(a: string, b: string)
    decreases |a|
  {
    b != [] && (a == [] || a[0] < b[0] || (a[0] == b[0] && Less(a[1..], b[1..])))
  }

  lemma {:induction false} LessTotal(a: string, b: string)
    ensures Less(a, b) || a == b || Less(b, a)
    ensures !(Less(a, b) && (a == b || Less(b, a)))
    decreases |a|
  {
    if a != [] && b != [] {
      LessTotal(a[1..], b[1..]);
      assert a == [a[0]] + a[1..] && b == [b[0]] + b[1..];
    }
  }

  lemma {:induction false} LessTransitive(a: string, b: string, c: string)
    requires Less(a, b) && Less(b, c)
    ensures Less(a, c)
    decreases |a|
  {
    if a != [] && a[0] == b[0] == c[0] {
      LessTransitive(a[1..], b[1..], c[1..]);
    }
  }

  /** The two agree up to `k`, where `a` ends or continues with the smaller code point. */
  predicate FirstSmaller(a: string, b: string, k: nat) {
    k <= |a| && k < |b| && a[..k] == b[..k] && (k == |a| || a[k] < b[k])
  }

  lemma {:induction false} LessIsLexicographic(a: string, b: string)
    ensures Less(a, b) <==> exists k: nat :: FirstSmaller(a, b, k)
    decreases |a|
  {
    if a == [] || b == [] || a[0] != b[0] {
      if b != [] { assert FirstSmaller(a, b, 0) <==> Less(a, b); }
    } else {
      var a', b' := a[1..], b[1..];
      LessIsLexicographic(a', b');
      assert a == [a[0]] + a' && b == [a[0]] + b';
      if k: nat :| FirstSmaller(a', b', k) {
        assert a[..k + 1] == [a[0]] + a'[..k] && b[..k + 1] == [a[0]] + b'[..k];
        assert FirstSmaller(a, b, k + 1);
      }
      if k: nat :| FirstSmaller(a, b, k) {
        assert a'[..k - 1] == a[..k][1..] && b'[..k - 1] == b[..k][1..];
        assert FirstSmaller(a', b', k - 1);
      }
    }
  }

  ghost predicate Ascending(xs: seq<string>) {
    forall i, j | 0 <= i < j < |xs| :: Less(xs[i], xs[j])
  }

  ghost predicate Lists(xs: seq<string>, names: set<string>) {
    Ascending(xs) && forall x :: x in xs <==> x in names
  }

  lemma EmptyListing(xs: seq<string>, names: set<string>)
    requires Lists(xs, names)
    ensures xs == [] <==> names == {}
  {
    if xs != [] { assert xs[0] in names; }
  }

  /** A set has only one listing. */
  lemma {:induction false} ListingUnique(xs: seq<string>, ys: seq<string>, names: set<string>)
    requires Lists(xs, names) && Lists(ys, names)
    ensures xs == ys
    decreases |xs|
  {
    EmptyListing(xs, names);
    EmptyListing(ys, names);
    if xs != [] {
      assert xs[0] in names && xs[0] in ys;
      assert ys[0] in names && ys[0] in xs;
      LessTotal(xs[0], ys[0]);
      assert xs[0] == ys[0];
      LessTotal(xs[0], xs[0]);
      forall x
        ensures x in xs[1..] <==> x in names - {xs[0]}
        ensures x in ys[1..] <==> x in names - {xs[0]}
      {
        assert x in xs <==> x == xs[0] || x in xs[1..];
        assert x in ys <==> x == ys[0] || x in ys[1..];
      }
      ListingUnique(xs[1..], ys[1..], names - {xs[0]});
      assert xs == [xs[0]] + xs[1..] && ys == [ys[0]] + ys[1..];
    }
  }

  function Insert(xs: seq<string>, x: string): seq<string> {
    if xs == [] then [x]
    else if Less(x, xs[0]) then [x] + xs
    else [xs[0]] + Insert(xs[1..], x)
  }

  lemma {:induction false} InsertLists(xs: seq<string>, x: string, names: set<string>)
    requires Lists(xs, names) && x !in names
    ensures Lists(Insert(xs, x), names + {x})
    decreases |xs|
  {
    if xs == [] {
    } else if Less(x, xs[0]) {
      forall j | 0 <= j < |xs|
        ensures Less(x, xs[j])
      {
        if j > 0 { LessTransitive(x, xs[0], xs[j]); }
      }
    } else {
      var rest := names - {xs[0]};
      assert xs[0] in names;
      LessTotal(x, xs[0]);
      LessTotal(xs[0], xs[0]);
      forall y
        ensures y in xs[1..] <==> y in rest
      {
        assert y in xs <==> y == xs[0] || y in xs[1..];
      }
      InsertLists(xs[1..], x, rest);
      var tail := Insert(xs[1..], x);
      forall j | 0 <= j < |tail|
        ensures Less(xs[0], tail[j])
      {
        assert tail[j] in tail;
        assert tail[j] == x || tail[j] in xs[1..];
      }
    }
  }

  /** The listing of a set. */
  ghost function Sorted(names: set<string>): (xs: seq<string>)
    ensures Lists(xs, names)
  {
    if names == {} then []
    else
      var x :| x in names;
      var rest := Sorted(names - {x});
      InsertLists(rest, x, names - {x});
      assert names - {x} + {x} == names;
      Insert(rest, x)
  }

  /** Collects the names in whatever order a map iteration yields them, keeping the slice
      sorted. */
  method SortNames(names: set<string>) returns (xs: seq<string>)
    ensures xs == Sorted(names)
  {
    xs := [];
    var todo := names;
    while todo != {}
      invariant todo <= names
      invariant Lists(xs, names - todo)
      decreases todo
    {
      var x :| x in todo;
      InsertLists(xs, x, names - todo);
      assert names - todo + {x} == names - (todo - {x});
      xs, todo := Insert(xs, x), todo - {x};
    }
    assert names - todo == names;
    ListingUnique(xs, Sorted(names), names);
  }
}
