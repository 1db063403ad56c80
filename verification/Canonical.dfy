/** Canonical block lists: no two blocks overlap and no two are the halves of one
    block. Such a list is determined by the addresses it covers and is the shortest
    list of blocks that covers them. */
module Canonical {
  import opened Cidr

  ghost predicate Covers(s: set<Network>, x: int) {
    exists n :: n in s && Has(n, x)
  }

  /** The addresses some block of a list covers. */
  ghost predicate Covered(ns: seq<Network>, x: int) {
    exists i :: 0 <= i < |ns| && Has(ns[i], x)
  }

  ghost predicate Apart(s: set<Network>) {
    forall a, b :: a in s && b in s && a != b ==> !Overlaps(a, b)
  }

  /** The same for a list: no two entries overlap, so none is repeated. */
  ghost predicate Separate(ns: seq<Network>) {
    forall i, j :: 0 <= i < |ns| && 0 <= j < |ns| && i != j ==> !Overlaps(ns[i], ns[j])
  }

  ghost predicate NoSiblings(s: set<Network>) {
    forall a, b :: a in s && b in s && a != b && a.len == b.len > 0 ==> Supernet(a) != Supernet(b)
  }

  ghost predicate IsCanonical(s: set<Network>) { Apart(s) && NoSiblings(s) }

  ghost predicate SameAddresses(s: set<Network>, t: set<Network>) {
    forall x :: Covers(s, x) <==> Covers(t, x)
  }

  ghost predicate CoversBlock(s: set<Network>, b: Network) {
    forall x :: Has(b, x) ==> Covers(s, x)
  }

  /** Address order, the shorter prefix first. */
  predicate Before(a: Network, b: Network) {
    Base(a) < Base(b) || (Base(a) == Base(b) && a.len < b.len)
  }

  ghost predicate Sorted(ns: seq<Network>) {
    forall i, j :: 0 <= i < j < |ns| ==> Before(ns[i], ns[j])
  }

  function Elements(ns: seq<Network>): set<Network> { set n | n in ns }

  lemma CoveredElements(ns: seq<Network>)
    ensures forall x :: Covered(ns, x) <==> Covers(Elements(ns), x)
  {
    forall x ensures Covered(ns, x) <==> Covers(Elements(ns), x) {
      if Covers(Elements(ns), x) {
        var n :| n in Elements(ns) && Has(n, x);
        var i :| 0 <= i < |ns| && ns[i] == n;
      }
      if Covered(ns, x) {
        var i :| 0 <= i < |ns| && Has(ns[i], x);
        assert ns[i] in Elements(ns);
      }
    }
  }

  /** In a canonical set, whatever covers a block covers it with one block. */
  lemma {:induction false} OneBlockCovers(s: set<Network>, b: Network) returns (n: Network)
    requires IsCanonical(s) && CoversBlock(s, b)
    ensures n in s && SubnetOf(b, n)
    decreases 32 - b.len
  {
    if b.len == 32 {
      assert Has(b, Base(b));
      n :| n in s && Has(n, Base(b));
    } else {
      HalvesCover(b);
      var lo := OneBlockCovers(s, Lower(b));
      var hi := OneBlockCovers(s, Upper(b));
      if lo.len <= b.len {
        OverlapsIff(b, lo);
        n := lo;
      } else {
        n := hi;
        HalfOrMore(lo, b, Lower(b));
        if hi.len <= b.len {
          OverlapsIff(b, hi);
        } else {
          HalfOrMore(hi, b, Upper(b));
          assert false;
        }
      }
    }
  }

  lemma HalfOrMore(n: Network, b: Network, half: Network)
    requires b.len < 32 && (half == Lower(b) || half == Upper(b))
    requires SubnetOf(half, n) && n.len > b.len
    ensures n == half
  {
    OverlapsIff(half, n);
    SameBlock(half, n);
  }

  /** Canonical sets with the same addresses have the same blocks. */
  lemma Unique(s: set<Network>, t: set<Network>)
    requires IsCanonical(s) && IsCanonical(t) && SameAddresses(s, t)
    ensures s == t
  {
    forall n ensures n in s <==> n in t {
      if n in s { UniqueHalf(s, t, n); }
      if n in t { UniqueHalf(t, s, n); }
    }
  }

  lemma UniqueHalf(s: set<Network>, t: set<Network>, n: Network)
    requires IsCanonical(s) && IsCanonical(t) && SameAddresses(s, t) && n in s
    ensures n in t
  {
    assert CoversBlock(t, n) by {
      forall x | Has(n, x) ensures Covers(t, x) { assert Covers(s, x); }
    }
    var m := OneBlockCovers(t, n);
    assert CoversBlock(s, m) by {
      forall x | Has(m, x) ensures Covers(s, x) { assert Covers(t, x); }
    }
    var n' := OneBlockCovers(s, m);
    OverlapsIff(n, n');
    MutualSubnets(n, m);
  }

  /** Sorted lists with the same blocks are the same list. */
  lemma {:induction false} SortedUnique(a: seq<Network>, b: seq<Network>)
    requires Sorted(a) && Sorted(b) && Elements(a) == Elements(b)
    ensures a == b
  {
    if a == [] {
      assert forall i :: 0 <= i < |b| ==> b[i] in Elements(b);
    } else {
      assert a[0] in Elements(b);
      var j :| 0 <= j < |b| && b[j] == a[0];
      assert b[0] in Elements(a);
      var i :| 0 <= i < |a| && a[i] == b[0];
      assert i == 0 && j == 0;
      ElementsTail(a);
      ElementsTail(b);
      SortedUnique(a[1..], b[1..]);
      assert a == [a[0]] + a[1..] && b == [b[0]] + b[1..];
    }
  }

  lemma ElementsTail(a: seq<Network>)
    requires a != [] && Sorted(a)
    ensures Elements(a[1..]) == Elements(a) - {a[0]}
    ensures Sorted(a[1..])
  {
    assert a == [a[0]] + a[1..];
    forall n | n in Elements(a[1..]) ensures n != a[0] {
      var i :| 0 <= i < |a[1..]| && a[1..][i] == n;
      assert a[i + 1] == n;
    }
  }

  /** A canonical set is the smallest: any list of blocks for the same addresses has
      at least as many entries. */
  lemma Shortest(s: set<Network>, ns: seq<Network>)
    requires IsCanonical(s) && forall x :: Covers(s, x) <==> Covered(ns, x)
    ensures |s| <= |ns|
  {
    var hosts := Hosts(s, ns);
    forall n | n in s ensures n in Elements(hosts) {
      assert Has(n, Base(n)) && Covers(s, Base(n));
      var i :| 0 <= i < |ns| && Has(ns[i], Base(n));
      assert Has(hosts[i], Base(n));
      OverlapsIff(n, hosts[i]);
    }
    ElementsBound(hosts);
    SubsetSize(s, Elements(hosts));
  }

  /** The block of `s` that contains each entry of `ns`. */
  lemma {:induction false} Hosts(s: set<Network>, ns: seq<Network>) returns (hosts: seq<Network>)
    requires IsCanonical(s) && forall i, x :: 0 <= i < |ns| && Has(ns[i], x) ==> Covers(s, x)
    ensures |hosts| == |ns|
    ensures forall i :: 0 <= i < |ns| ==> hosts[i] in s && SubnetOf(ns[i], hosts[i])
  {
    hosts := [];
    if ns != [] {
      var last := |ns| - 1;
      hosts := Hosts(s, ns[..last]);
      var h := OneBlockCovers(s, ns[last]);
      hosts := hosts + [h];
    }
  }

  lemma {:induction false} ElementsBound(ns: seq<Network>)
    ensures |Elements(ns)| <= |ns|
  {
    if ns != [] {
      var rest := ns[..|ns| - 1];
      assert ns == rest + [ns[|ns| - 1]];
      assert Elements(ns) == Elements(rest) + {ns[|ns| - 1]};
      ElementsBound(rest);
    }
  }

  lemma {:induction false} SubsetSize(a: set<Network>, b: set<Network>)
    requires a <= b
    ensures |a| <= |b|
  {
    if a != {} {
      var x :| x in a;
      SubsetSize(a - {x}, b - {x});
    }
  }

  /** A sorted list has as many entries as blocks. */
  lemma {:induction false} SortedCount(ns: seq<Network>)
    requires Sorted(ns)
    ensures |ns| == |Elements(ns)|
  {
    if ns != [] {
      ElementsTail(ns);
      SortedCount(ns[1..]);
      assert ns[0] in Elements(ns);
    }
  }
}
