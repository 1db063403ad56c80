/** `ipaddress.collapse_addresses` and `IPv4Network.address_exclude` of the Python standard
    library. */
module Collapse {
  import opened Cidr
  import opened Canonical

  // --- sorting ---------------------------------------------------------------------

  lemma {:induction false} LeastBlock(s: set<Network>) returns (m: Network)
    requires s != {}
    ensures m in s && forall n :: n in s && n != m ==> Before(m, n)
  {
    var x :| x in s;
    if s == {x} {
      m := x;
    } else {
      m := LeastBlock(s - {x});
      var m' := m;
      if Before(x, m) { m := x; } else { Total(x, m); }
      forall n | n in s && n != m ensures Before(m, n) {
        assert n == x || n in s - {x};
        assert n == m' || n == x || Before(m', n);
      }
    }
  }

  lemma Total(a: Network, b: Network)
    requires a != b
    ensures Before(a, b) || Before(b, a)
  {
    if a.len == b.len && Base(a) == Base(b) {
      SameBlock(a, b);
    }
  }

  /** `sorted` on distinct networks: repeatedly take the least. */
  method SortedBlocks(s: set<Network>) returns (r: seq<Network>)
    ensures Sorted(r) && Elements(r) == s
  {
    r := [];
    var rest := s;
    while rest != {}
      invariant Sorted(r)
      invariant Elements(r) + rest == s
      invariant forall i, n :: 0 <= i < |r| && n in rest ==> Before(r[i], n)
    {
      ghost var least := LeastBlock(rest);
      var m :| m in rest && forall n :: n in rest && n != m ==> Before(m, n);
      assert Elements(r + [m]) == Elements(r) + {m};
      r := r + [m];
      rest := rest - {m};
    }
  }

  // --- collapse_addresses -------------------------------------------------------------

  /** The `subnets` dictionary holds at most one child of each supernet. */
  ghost predicate Keyed(subnets: map<Network, Network>) {
    forall k :: k in subnets ==> Supernet(subnets[k]) == k
  }

  /** Two different blocks with one supernet cover that supernet together. */
  lemma MergeCovers(a: Network, b: Network)
    requires a != b && Supernet(a) == Supernet(b)
    ensures forall x :: Has(Supernet(a), x) <==> Has(a, x) || Has(b, x)
  {
    var p := Supernet(a);
    if a.len > 0 { SupernetHalves(a); }
    if b.len > 0 { SupernetHalves(b); }
    if p.len < 32 { HalvesCover(p); }
    if a.len > 0 && b.len > 0 {
      assert {a, b} == {Lower(p), Upper(p)};
    }
  }

  lemma CoveredLast(ns: seq<Network>)
    requires ns != []
    ensures forall x :: Covered(ns, x) <==> Covered(ns[..|ns| - 1], x) || Has(ns[|ns| - 1], x)
  {
    var last := |ns| - 1;
    forall x ensures Covered(ns, x) <==> Covered(ns[..last], x) || Has(ns[last], x) {
      if Covered(ns[..last], x) {
        var i :| 0 <= i < last && Has(ns[..last][i], x);
        assert Has(ns[i], x);
      }
      if Covered(ns, x) {
        var i :| 0 <= i < |ns| && Has(ns[i], x);
        if i < last { assert Has(ns[..last][i], x); }
      }
    }
  }

  lemma PutCovers(subnets: map<Network, Network>, net: Network)
    requires Supernet(net) !in subnets
    ensures forall x ::
      Covers(subnets[Supernet(net) := net].Values, x) <==> Covers(subnets.Values, x) || Has(net, x)
  {
    var after := subnets[Supernet(net) := net];
    assert after.Values == subnets.Values + {net} by {
      forall k | k in subnets ensures subnets[k] in after.Values { assert after[k] == subnets[k]; }
      assert after[Supernet(net)] == net;
    }
  }

  lemma RemoveCovers(subnets: map<Network, Network>, k: Network)
    requires k in subnets
    ensures forall x ::
      Covers(subnets.Values, x) <==> Covers((subnets - {k}).Values, x) || Has(subnets[k], x)
  {
    var after := subnets - {k};
    forall x ensures Covers(subnets.Values, x) <==> Covers(after.Values, x) || Has(subnets[k], x) {
      if Covers(subnets.Values, x) && !Has(subnets[k], x) {
        var n :| n in subnets.Values && Has(n, x);
        var j :| j in subnets && subnets[j] == n;
        assert after[j] == n;
      }
    }
  }

  /** First merge siblings until none is left, then drop blocks inside another. The
      result is the canonical list of the addresses given. */
  method CollapseAddresses(nets: seq<Network>) returns (r: seq<Network>)
    ensures Sorted(r) && IsCanonical(Elements(r))
    ensures forall x :: Covered(r, x) <==> Covered(nets, x)
  {
    var toMerge := nets;
    var subnets: map<Network, Network> := map[];
    while toMerge != []
      invariant Keyed(subnets)
      invariant forall x :: Covered(nets, x) <==> Covered(toMerge, x) || Covers(subnets.Values, x)
      decreases 2 * |toMerge| + |subnets|
    {
      CoveredLast(toMerge);
      var net := toMerge[|toMerge| - 1];
      toMerge := toMerge[..|toMerge| - 1];
      var supernet := Supernet(net);
      if supernet !in subnets {
        PutCovers(subnets, net);
        subnets := subnets[supernet := net];
      } else if subnets[supernet] != net {
        MergeCovers(subnets[supernet], net);
        RemoveCovers(subnets, supernet);
        subnets := subnets - {supernet};
        assert (toMerge + [supernet])[..|toMerge|] == toMerge;
        CoveredLast(toMerge + [supernet]);
        toMerge := toMerge + [supernet];
      } else {
        assert subnets[supernet] in subnets.Values;
      }
    }
    var ordered := SortedBlocks(subnets.Values);
    CoveredElements(ordered);
    r := Subsume(ordered);
  }

  /** What the second pass keeps of the blocks seen: none meets another, and the last
      one kept ends last. */
  ghost predicate Kept(r: seq<Network>, seen: seq<Network>) {
    && Sorted(r) && Apart(Elements(r)) && (forall n :: n in r ==> n in seen)
    && (forall x :: Covered(r, x) <==> Covered(seen, x))
    && (seen != [] ==> r != [])
    && (forall n :: n in r ==> Broadcast(n) <= Broadcast(r[|r| - 1]))
  }

  /** The second pass: a block that ends no later than the last one kept is inside it. */
  method Subsume(ordered: seq<Network>) returns (r: seq<Network>)
    requires Sorted(ordered) && NoSiblings(Elements(ordered))
    ensures Sorted(r) && IsCanonical(Elements(r))
    ensures forall x :: Covered(r, x) <==> Covered(ordered, x)
  {
    hide Kept, Sorted, Covered, Broadcast;
    r := [];
    KeptNone();
    assert ordered[..0] == [];
    for i := 0 to |ordered|
      invariant Kept(r, ordered[..i])
    {
      var net := ordered[i];
      assert ordered[..i + 1] == ordered[..i] + [net];
      SortedPrefix(ordered, i + 1);
      if r != [] && Broadcast(r[|r| - 1]) >= Broadcast(net) {
        Skip(r, ordered[..i], net);
      } else {
        KeepBlock(r, ordered[..i], net);
        r := r + [net];
      }
    }
    assert ordered[..|ordered|] == ordered;
    KeptAll(r, ordered);
  }

  lemma KeptNone()
    ensures Kept([], [])
  {
  }

  lemma SortedPrefix(ns: seq<Network>, n: nat)
    requires Sorted(ns) && n <= |ns|
    ensures Sorted(ns[..n])
  {
  }

  lemma KeptAll(r: seq<Network>, seen: seq<Network>)
    requires Kept(r, seen) && NoSiblings(Elements(seen))
    ensures Sorted(r) && IsCanonical(Elements(r))
    ensures forall x :: Covered(r, x) <==> Covered(seen, x)
  {
    hide Covered, Sorted, Broadcast, Supernet;
  }

  lemma LastBefore(r: seq<Network>, seen: seq<Network>, net: Network)
    requires (forall n :: n in r ==> n in seen) && r != [] && Sorted(seen + [net])
    ensures Before(r[|r| - 1], net)
  {
    var last := r[|r| - 1];
    assert last in r;
    var i :| 0 <= i < |seen| && seen[i] == last;
    assert (seen + [net])[i] == last && (seen + [net])[|seen|] == net;
  }

  lemma Skip(r: seq<Network>, seen: seq<Network>, net: Network)
    requires Kept(r, seen) && r != [] && Sorted(seen + [net])
    requires Broadcast(r[|r| - 1]) >= Broadcast(net)
    ensures Kept(r, seen + [net])
  {
    LastBefore(r, seen, net);
    CoveredSnoc(seen, net);
    var last := r[|r| - 1];
    assert SubnetOf(net, last);
    forall x | Has(net, x) ensures Covered(r, x) { assert Has(last, x); }
  }

  lemma KeepBlock(r: seq<Network>, seen: seq<Network>, net: Network)
    requires Kept(r, seen) && Sorted(seen + [net])
    requires r == [] || Broadcast(r[|r| - 1]) < Broadcast(net)
    ensures Kept(r + [net], seen + [net])
  {
    if r != [] {
      LastBefore(r, seen, net);
      EndsBefore(r[|r| - 1], net);
    }
    CoveredSnoc(seen, net);
    AddLast(r, net);
  }

  lemma CoveredSnoc(ns: seq<Network>, n: Network)
    ensures forall x :: Covered(ns + [n], x) <==> Covered(ns, x) || Has(n, x)
  {
    assert (ns + [n])[..|ns|] == ns;
    CoveredLast(ns + [n]);
  }

  lemma EndsBefore(last: Network, net: Network)
    requires Before(last, net) && Broadcast(last) < Broadcast(net)
    ensures Broadcast(last) < Base(net)
  {
    OverlapsIff(last, net);
    OverlapsIff(net, last);
  }

  lemma AddLast(r: seq<Network>, net: Network)
    requires Sorted(r) && Apart(Elements(r))
    requires forall n :: n in r ==> Broadcast(n) < Base(net)
    ensures Sorted(r + [net]) && Apart(Elements(r + [net]))
    ensures Elements(r + [net]) == Elements(r) + {net}
    ensures forall x :: Covered(r + [net], x) <==> Covered(r, x) || Has(net, x)
  {
    CoveredSnoc(r, net);
    forall i | 0 <= i < |r| ensures Before((r + [net])[i], net) {
      assert r[i] in r;
    }
    forall n | n in r ensures !Overlaps(n, net) && !Overlaps(net, n) {
    }
  }

  // --- address_exclude ------------------------------------------------------------------

  /** `net.address_exclude(other)`: split `net` in halves, keep the half without
      `other`, and go on in the half with it. */
  method AddressExclude(net: Network, other: Network) returns (pieces: seq<Network>)
    requires SubnetOf(other, net)
    ensures |pieces| == other.len - net.len
    ensures forall x :: Covered(pieces, x) <==> Has(net, x) && !Has(other, x)
    ensures Separate(pieces)
    ensures forall p :: p in pieces ==> SubnetOf(p, net) && SubnetOf(other, Supernet(p))
  {
    pieces := [];
    Begin(net, other);
    if other == net { return; }
    var s1, s2 := Lower(net), Upper(net);
    while s1 != other && s2 != other
      invariant Excluding(pieces, net, other, s1, s2)
      decreases other.len - s1.len
    {
      if SubnetOf(other, s1) {
        Descend(pieces, net, other, s1, s2);
        pieces := pieces + [s2];
        s1, s2 := Lower(s1), Upper(s1);
      } else {
        Descend(pieces, net, other, s2, s1);
        pieces := pieces + [s1];
        s1, s2 := Lower(s2), Upper(s2);
      }
    }
    if s1 == other {
      Last(pieces, net, other, s1, s2);
      pieces := pieces + [s2];
    } else {
      Last(pieces, net, other, s2, s1);
      pieces := pieces + [s1];
    }
  }

  /** The loop's state: the halves at hand pair up and one of them holds `other`. */
  ghost predicate Excluding(pieces: seq<Network>, net: Network, other: Network, s1: Network, s2: Network) {
    && Siblings(s1, s2) && s1.len == |pieces| + net.len + 1 <= other.len
    && (SubnetOf(other, s1) || SubnetOf(other, s2))
    && SplitOff(pieces, net, other, Supernet(s1))
  }

  /** Whichever half holds `other`, the split so far is of both together. */
  lemma HalvesAtHand(pieces: seq<Network>, net: Network, other: Network, next: Network, kept: Network)
    requires Excluding(pieces, net, other, next, kept) || Excluding(pieces, net, other, kept, next)
    ensures Siblings(next, kept) || Siblings(kept, next)
    ensures next.len == |pieces| + net.len + 1 <= other.len
    ensures SplitOff(pieces, net, other, Supernet(next))
  {
    hide SplitOff, SubnetOf;
    if Siblings(next, kept) { SameParent(next, kept); } else { SameParent(kept, next); }
  }

  lemma SameParent(s1: Network, s2: Network)
    requires Siblings(s1, s2)
    ensures Supernet(s1) == Supernet(s2)
  {
  }

  lemma Descend(pieces: seq<Network>, net: Network, other: Network, next: Network, kept: Network)
    requires Excluding(pieces, net, other, next, kept) || Excluding(pieces, net, other, kept, next)
    requires SubnetOf(other, next) && other != next
    ensures next.len < other.len
    ensures Excluding(pieces + [kept], net, other, Lower(next), Upper(next))
  {
    hide SplitOff, SubnetOf, Excluding, Supernet, Siblings;
    HalvesAtHand(pieces, net, other, next, kept);
    KeepHalf(pieces, net, other, next, kept);
    Halves(next, other);
    Excludes(pieces + [kept], net, other, Lower(next), Upper(next));
  }

  lemma Excludes(pieces: seq<Network>, net: Network, other: Network, s1: Network, s2: Network)
    requires Siblings(s1, s2) && s1.len == |pieces| + net.len + 1 <= other.len
    requires SubnetOf(other, s1) || SubnetOf(other, s2)
    requires SplitOff(pieces, net, other, Supernet(s1))
    ensures Excluding(pieces, net, other, s1, s2)
  {
    hide SplitOff, SubnetOf, Supernet, Siblings;
  }

  lemma Last(pieces: seq<Network>, net: Network, other: Network, next: Network, kept: Network)
    requires Excluding(pieces, net, other, next, kept) || Excluding(pieces, net, other, kept, next)
    requires other == next && SubnetOf(other, next)
    ensures |pieces| + 1 == other.len - net.len
    ensures SplitOff(pieces + [kept], net, other, other)
    ensures forall x :: Covered(pieces + [kept], x) <==> Has(net, x) && !Has(other, x)
  {
    hide SplitOff, SubnetOf, Excluding, Supernet, Siblings, Covered, Has;
    HalvesAtHand(pieces, net, other, next, kept);
    KeepHalf(pieces, net, other, next, kept);
    Done(pieces + [kept], net, other);
  }

  /** The two halves of one block, in order. */
  predicate Siblings(s1: Network, s2: Network) {
    s1.len == s2.len > 0 && s1.bits % 2 == 0 && s2.bits == s1.bits + 1
  }

  /** The pieces kept so far and the block still to split make up `net`. */
  ghost predicate SplitOff(pieces: seq<Network>, net: Network, other: Network, rest: Network) {
    && SubnetOf(rest, net) && SubnetOf(other, rest)
    && Separate(pieces)
    && (forall x :: Has(net, x) <==> Covered(pieces, x) || Has(rest, x))
    && (forall p :: p in pieces ==> !Overlaps(p, rest) && SubnetOf(other, Supernet(p)) && SubnetOf(p, net))
  }

  lemma Done(pieces: seq<Network>, net: Network, other: Network)
    requires SplitOff(pieces, net, other, other)
    ensures forall x :: Covered(pieces, x) <==> Has(net, x) && !Has(other, x)
  {
    forall x | Covered(pieces, x) ensures !Has(other, x) {
      var i :| 0 <= i < |pieces| && Has(pieces[i], x);
      assert pieces[i] in pieces;
      OverlapsIff(pieces[i], other);
    }
  }

  lemma Halves(net: Network, other: Network)
    requires SubnetOf(other, net) && other != net
    ensures net.len < other.len
    ensures SubnetOf(other, Lower(net)) || SubnetOf(other, Upper(net))
    ensures Siblings(Lower(net), Upper(net)) && Supernet(Lower(net)) == net
  {
    OverlapsIff(other, net);
    if net.len == other.len { SameBlock(other, net); }
    HalvesCover(net);
    Laminar(other, Lower(net));
    Laminar(other, Upper(net));
  }

  lemma Begin(net: Network, other: Network)
    requires SubnetOf(other, net)
    ensures other != net ==> net.len < 32 && Excluding([], net, other, Lower(net), Upper(net))
    ensures other == net ==> forall x :: Covered([], x) <==> Has(net, x) && !Has(other, x)
  {
    if other != net { Halves(net, other); }
  }

  /** A block is made of any two halves that pair up. */
  lemma PairCovers(s1: Network, s2: Network)
    requires Siblings(s1, s2)
    ensures Supernet(s1) == Supernet(s2) && !Overlaps(s1, s2) && !Overlaps(s2, s1)
    ensures SubnetOf(s1, Supernet(s1)) && SubnetOf(s2, Supernet(s1))
    ensures forall x :: Has(Supernet(s1), x) <==> Has(s1, x) || Has(s2, x)
  {
    HalvesCover(Supernet(s1));
  }

  /** Keeping the half without `other` leaves the half with it to split. */
  lemma KeepHalf(pieces: seq<Network>, net: Network, other: Network, next: Network, kept: Network)
    requires Siblings(next, kept) || Siblings(kept, next)
    requires SplitOff(pieces, net, other, Supernet(next)) && SubnetOf(other, next)
    ensures SplitOff(pieces + [kept], net, other, next)
  {
    if Siblings(next, kept) { PairCovers(next, kept); } else { PairCovers(kept, next); }
    KeepCovers(pieces, net, next, kept);
    KeepApart(pieces, next, kept);
  }

  lemma KeepCovers(pieces: seq<Network>, net: Network, next: Network, kept: Network)
    requires forall x :: Has(net, x) <==> Covered(pieces, x) || Has(Supernet(next), x)
    requires forall x :: Has(Supernet(next), x) <==> Has(next, x) || Has(kept, x)
    ensures forall x :: Has(net, x) <==> Covered(pieces + [kept], x) || Has(next, x)
  {
    CoveredSnoc(pieces, kept);
  }

  lemma KeepApart(pieces: seq<Network>, next: Network, kept: Network)
    requires Separate(pieces) && !Overlaps(kept, next)
    requires forall p :: p in pieces ==> !Overlaps(p, Supernet(next))
    requires SubnetOf(next, Supernet(next)) && SubnetOf(kept, Supernet(next))
    ensures Separate(pieces + [kept])
    ensures forall p :: p in pieces + [kept] ==> !Overlaps(p, next)
  {
    forall q | q in pieces ensures !Overlaps(q, kept) && !Overlaps(kept, q) && !Overlaps(q, next) {
      Outside(q, Supernet(next), kept);
      Outside(q, Supernet(next), next);
    }
    forall i | 0 <= i < |pieces| ensures !Overlaps(pieces[i], kept) && !Overlaps(kept, pieces[i]) {
      assert pieces[i] in pieces;
    }
  }

  lemma Outside(q: Network, p: Network, inner: Network)
    requires !Overlaps(q, p) && SubnetOf(inner, p)
    ensures !Overlaps(q, inner) && !Overlaps(inner, q)
  {
    OverlapsIff(q, inner);
    OverlapsIff(q, p);
  }
}
