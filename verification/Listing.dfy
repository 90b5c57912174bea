/** Sets of numbers listed in increasing order: the iteration order of an ordered map, the turns of a loop. */
module Listing {

  lemma {:induction false} HasLeast(s: set<nat>, x: nat)
    requires x in s
    ensures exists m :: m in s && forall y :: y in s ==> m <= y
    decreases x
  {
    if y: nat :| y in s && y < x {
      HasLeast(s, y);
    }
  }

  function Least(s: set<nat>): (m: nat)
    requires s != {}
    ensures m in s && forall x :: x in s ==> m <= x
  {
    HasLeast(s, var x :| x in s; x);
    var m :| m in s && forall x :: x in s ==> m <= x;
    m
  }

  ghost predicate Increasing(ks: seq<nat>) {
    forall i, j :: 0 <= i < j < |ks| ==> ks[i] < ks[j]
  }

  /** `ks` lists the elements of `s` in increasing order. */
  ghost predicate Lists(ks: seq<nat>, s: set<nat>) {
    && Increasing(ks) && |ks| == |s|
    && forall x :: x in ks <==> x in s
  }

  lemma {:induction false} CanList(s: set<nat>) returns (ks: seq<nat>)
    ensures Lists(ks, s)
  {
    if s == {} {
      ks := [];
    } else {
      var m := Least(s);
      var rest := CanList(s - {m});
      ks := [m] + rest;
      forall i, j | 0 <= i < j < |ks| ensures ks[i] < ks[j] {
        assert ks[j] == rest[j - 1] && rest[j - 1] in s - {m};
        if i > 0 {
          assert ks[i] == rest[i - 1];
        }
      }
      assert forall x :: x in s <==> x == m || x in s - {m};
    }
  }

  lemma {:induction false} ListingIsUnique(a: seq<nat>, b: seq<nat>, s: set<nat>)
    requires Lists(a, s) && Lists(b, s)
    ensures a == b
    decreases |a|
  {
    if a != [] {
      assert a[0] in b && b[0] in a;
      assert a[0] == b[0];
      assert Lists(a[1..], s - {a[0]}) && Lists(b[1..], s - {a[0]}) by {
        TailLists(a, s);
        TailLists(b, s);
      }
      ListingIsUnique(a[1..], b[1..], s - {a[0]});
      assert a == [a[0]] + a[1..] && b == [b[0]] + b[1..];
    }
  }

  lemma TailLists(ks: seq<nat>, s: set<nat>)
    requires Lists(ks, s) && ks != []
    ensures Lists(ks[1..], s - {ks[0]})
  {
    assert ks == [ks[0]] + ks[1..];
    assert ks[0] in s;
    assert ks[0] !in ks[1..];
  }

  lemma HasListing(s: set<nat>)
    ensures exists ks :: Lists(ks, s)
  {
    var ks := CanList(s);
  }

  /** The keys of an ordered map, in the order its iterator yields them. */
  ghost function InOrder(s: set<nat>): (ks: seq<nat>)
    ensures Lists(ks, s)
  {
    HasListing(s);
    var ks :| Lists(ks, s);
    ks
  }

  lemma InOrderEmpty()
    ensures InOrder({}) == []
  {}

  /** A new greatest element is listed last. */
  lemma InOrderSnoc(s: set<nat>, n: nat, t: set<nat>)
    requires (forall x :: x in s ==> x < n) && t == s + {n}
    ensures InOrder(t) == InOrder(s) + [n]
  {
    var ks := InOrder(s);
    forall i | 0 <= i < |ks| ensures ks[i] < n {
      assert ks[i] in ks;
    }
    assert n !in s;
    ListingIsUnique(InOrder(t), ks + [n], t);
  }
}
