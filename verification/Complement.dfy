/** The regional split: `0.0.0.0/0` minus a list of blocks, as the route-table script
    computes it. */
module Complement {
  import opened Cidr
  import opened Canonical
  import opened Collapse

  /** What is left of the address space after the exclusions handled so far. */
  ghost predicate Remainder(remaining: seq<Network>, excluded: seq<Network>) {
    && Separate(remaining)
    && (forall x :: Covered(remaining, x) <==> Has(ROOT, x) && !Covered(excluded, x))
    && (forall n :: n in remaining ==> CutOff(n, excluded))
  }

  /** A remaining block is the whole space, or was cut off because its parent holds
      an exclusion. */
  ghost predicate CutOff(n: Network, excluded: seq<Network>) {
    n == ROOT || exists i :: 0 <= i < |excluded| && SubnetOf(excluded[i], Supernet(n))
  }

  /** An exclusion that meets a remaining block lies inside it: the defensive branch
      for a partial overlap is never taken. */
  lemma PartialOverlapUnreachable(net: Network, excl: Network, excluded: seq<Network>)
    requires CutOff(net, excluded) && Overlaps(net, excl)
    requires forall i :: 0 <= i < |excluded| ==> !Overlaps(excluded[i], excl)
    ensures SubnetOf(excl, net)
  {
    InRoot(excl);
    OverlapsIff(net, excl);
    OverlapsIff(excl, net);
    if net != ROOT && excl.len < net.len {
      var i :| 0 <= i < |excluded| && SubnetOf(excluded[i], Supernet(net));
      EarlierMeets(net, excl, excluded[i]);
    }
  }

  lemma EarlierMeets(net: Network, excl: Network, earlier: Network)
    requires SubnetOf(net, excl) && excl.len < net.len && SubnetOf(earlier, Supernet(net))
    ensures Overlaps(earlier, excl)
  {
    SupernetHalves(net);
    OverlapsIff(Supernet(net), excl);
  }

  /** The new list after the first `k` remaining blocks: their addresses without
      `excl`, in pieces inside those blocks. */
  ghost predicate Pieces(nxt: seq<Network>, done: seq<Network>, excl: Network, excluded: seq<Network>) {
    && Separate(nxt)
    && (forall x :: Covered(nxt, x) <==> Covered(done, x) && !Has(excl, x))
    && (forall n :: n in nxt ==> CutOff(n, excluded) && Inside(n, done))
  }

  /** Where `excl` was found so far, and how many pieces it cost. */
  ghost predicate Found(holder: int, count: nat, done: seq<Network>, excl: Network) {
    && -1 <= holder < |done|
    && if holder < 0 then count == |done| else count <= |done| + 31 && SubnetOf(excl, done[holder])
  }

  /** One pass of the outer loop's body: take `excl` out of every remaining block. */
  method Exclude(remaining: seq<Network>, excl: Network, ghost excluded: seq<Network>)
    returns (nxt: seq<Network>)
    requires Remainder(remaining, excluded)
    requires forall i :: 0 <= i < |excluded| ==> !Overlaps(excluded[i], excl)
    ensures Remainder(nxt, excluded + [excl])
    ensures |nxt| <= |remaining| + 31
  {
    hide Separate, Covered, Has, CutOff, Overlaps, SubnetOf, Pieces;
    nxt := [];
    ghost var holder: int := -1;
    NoPieces(remaining, excl, excluded + [excl]);
    for k := 0 to |remaining|
      invariant Pieces(nxt, remaining[..k], excl, excluded + [excl])
      invariant Found(holder, |nxt|, remaining[..k], excl)
    {
      var net := remaining[k];
      if !Overlaps(net, excl) {
        KeepWhole(nxt, remaining, k, excl, excluded);
        nxt := nxt + [net];
      } else {
        PartialOverlapUnreachable(net, excl, excluded);
        if SubnetOf(excl, net) {
          var pieces := AddressExclude(net, excl);
          CutPieces(pieces, excluded, excl);
          KeepPieces(nxt, pieces, remaining, k, excl, excluded + [excl]);
          FoundHere(holder, |nxt|, |pieces|, remaining, k, excl);
          holder := k;
          nxt := nxt + pieces;
        } else {
          assert false;
        }
      }
    }
    assert remaining[..|remaining|] == remaining;
    AllPieces(nxt, remaining, excl, excluded);
  }

  lemma NoPieces(remaining: seq<Network>, excl: Network, excluded: seq<Network>)
    ensures Pieces([], remaining[..0], excl, excluded)
  {
  }

  lemma AllPieces(nxt: seq<Network>, remaining: seq<Network>, excl: Network, excluded: seq<Network>)
    requires Remainder(remaining, excluded) && Pieces(nxt, remaining, excl, excluded + [excl])
    ensures Remainder(nxt, excluded + [excl])
  {
    CoveredAppend(excluded, [excl]);
    CoveredOne(excl);
  }

  lemma KeepWhole(nxt: seq<Network>, remaining: seq<Network>, k: nat, excl: Network, excluded: seq<Network>)
    requires k < |remaining| && Remainder(remaining, excluded) && !Overlaps(remaining[k], excl)
    requires Pieces(nxt, remaining[..k], excl, excluded + [excl])
    ensures Pieces(nxt + [remaining[k]], remaining[..k + 1], excl, excluded + [excl])
  {
    var net := remaining[k];
    CutOffMore(net, excluded, excl);
    CoveredOne(net);
    assert forall x :: Has(net, x) ==> !Has(excl, x) by { OverlapsIff(net, excl); }
    KeepPieces(nxt, [net], remaining, k, excl, excluded + [excl]);
  }

  lemma KeepPieces(nxt: seq<Network>, pieces: seq<Network>, remaining: seq<Network>, k: nat,
                   excl: Network, excluded: seq<Network>)
    requires k < |remaining| && Separate(remaining)
    requires Pieces(nxt, remaining[..k], excl, excluded)
    requires Separate(pieces)
    requires forall x :: Covered(pieces, x) <==> Has(remaining[k], x) && !Has(excl, x)
    requires forall p :: p in pieces ==> SubnetOf(p, remaining[k]) && CutOff(p, excluded)
    ensures Pieces(nxt + pieces, remaining[..k + 1], excl, excluded)
  {
    Append(nxt, pieces, remaining, k);
    assert remaining[..k + 1] == remaining[..k] + [remaining[k]];
    CoveredSnoc(remaining[..k], remaining[k]);
  }

  /** Each exclusion lies inside at most one remaining block, so it adds at most 31. */
  lemma FoundHere(holder: int, count: nat, pieces: nat, remaining: seq<Network>, k: nat, excl: Network)
    requires k < |remaining| && Separate(remaining) && SubnetOf(excl, remaining[k])
    requires Found(holder, count, remaining[..k], excl) && pieces == excl.len - remaining[k].len
    ensures Found(k, count + pieces, remaining[..k + 1], excl)
  {
    if holder >= 0 {
      HolderUnique(remaining, holder, k, excl);
    }
  }

  ghost predicate Inside(n: Network, ns: seq<Network>) {
    exists i :: 0 <= i < |ns| && SubnetOf(n, ns[i])
  }

  lemma CoveredOne(n: Network)
    ensures forall x :: Covered([n], x) <==> Has(n, x)
  {
    CoveredLast([n]);
    assert [n][..0] == [];
  }

  lemma CutOffMore(n: Network, excluded: seq<Network>, excl: Network)
    requires CutOff(n, excluded)
    ensures CutOff(n, excluded + [excl])
  {
    if n != ROOT {
      var i :| 0 <= i < |excluded| && SubnetOf(excluded[i], Supernet(n));
      assert (excluded + [excl])[i] == excluded[i];
    }
  }

  lemma CutPieces(pieces: seq<Network>, excluded: seq<Network>, excl: Network)
    requires forall p :: p in pieces ==> SubnetOf(excl, Supernet(p))
    ensures forall p :: p in pieces ==> CutOff(p, excluded + [excl])
  {
    assert (excluded + [excl])[|excluded|] == excl;
  }

  lemma CoveredAppend(a: seq<Network>, b: seq<Network>)
    ensures forall x :: Covered(a + b, x) <==> Covered(a, x) || Covered(b, x)
  {
    forall x ensures Covered(a + b, x) <==> Covered(a, x) || Covered(b, x) {
      if Covered(a, x) {
        var i :| 0 <= i < |a| && Has(a[i], x);
        assert Has((a + b)[i], x);
      }
      if Covered(b, x) {
        var i :| 0 <= i < |b| && Has(b[i], x);
        assert Has((a + b)[|a| + i], x);
      }
    }
  }

  /** Pieces of the next remaining block do not meet pieces of earlier ones. */
  lemma Append(nxt: seq<Network>, pieces: seq<Network>, remaining: seq<Network>, k: nat)
    requires k < |remaining| && Separate(remaining) && Separate(nxt) && Separate(pieces)
    requires forall n :: n in nxt ==> Inside(n, remaining[..k])
    requires forall p :: p in pieces ==> SubnetOf(p, remaining[k])
    ensures Separate(nxt + pieces)
    ensures forall n :: n in nxt + pieces ==> Inside(n, remaining[..k + 1])
    ensures forall x :: Covered(nxt + pieces, x) <==> Covered(nxt, x) || Covered(pieces, x)
  {
    CoveredAppend(nxt, pieces);
    forall n | n in nxt + pieces ensures Inside(n, remaining[..k + 1]) {
      if n in pieces {
        assert SubnetOf(n, remaining[..k + 1][k]);
      } else {
        var i :| 0 <= i < k && SubnetOf(n, remaining[..k][i]);
        assert SubnetOf(n, remaining[..k + 1][i]);
      }
    }
    forall n, p | n in nxt && p in pieces ensures !Overlaps(n, p) && !Overlaps(p, n) {
      var i :| 0 <= i < k && SubnetOf(n, remaining[..k][i]);
      Outside(remaining[i], remaining[k], p);
      Outside(p, remaining[i], n);
    }
    forall i, j | 0 <= i < |nxt| && 0 <= j < |pieces|
      ensures !Overlaps(nxt[i], pieces[j]) && !Overlaps(pieces[j], nxt[i])
    {
      assert nxt[i] in nxt && pieces[j] in pieces;
    }
    SeparateAppend(nxt, pieces);
  }

  lemma SeparateAppend(a: seq<Network>, b: seq<Network>)
    requires Separate(a) && Separate(b)
    requires forall i, j :: 0 <= i < |a| && 0 <= j < |b| ==> !Overlaps(a[i], b[j]) && !Overlaps(b[j], a[i])
    ensures Separate(a + b)
  {
  }

  /** While it meets no earlier one, an exclusion lies inside exactly one remaining block. */
  lemma HolderExists(remaining: seq<Network>, excluded: seq<Network>, excl: Network) returns (i: nat)
    requires Remainder(remaining, excluded)
    requires forall k :: 0 <= k < |excluded| ==> !Overlaps(excluded[k], excl)
    ensures i < |remaining| && SubnetOf(excl, remaining[i])
    ensures forall j :: 0 <= j < |remaining| && SubnetOf(excl, remaining[j]) ==> j == i
  {
    var x := Base(excl);
    InRoot(excl);
    assert Has(excl, x);
    forall k | 0 <= k < |excluded| ensures !Has(excluded[k], x) { OverlapsIff(excluded[k], excl); }
    assert Covered(remaining, x);
    i :| 0 <= i < |remaining| && Has(remaining[i], x);
    OverlapsIff(remaining[i], excl);
    PartialOverlapUnreachable(remaining[i], excl, excluded);
    forall j | 0 <= j < |remaining| && SubnetOf(excl, remaining[j]) ensures j == i {
      HolderUnique(remaining, i, j, excl);
    }
  }

  /** No exclusion lies inside two remaining blocks. */
  lemma HolderUnique(remaining: seq<Network>, i: nat, j: nat, excl: Network)
    requires i < |remaining| && j < |remaining| && Separate(remaining)
    requires SubnetOf(excl, remaining[i]) && SubnetOf(excl, remaining[j])
    ensures i == j
  {
    OverlapsIff(remaining[i], remaining[j]);
    assert Has(remaining[i], Base(excl)) && Has(remaining[j], Base(excl));
  }

  /** What remains is already canonical: were two siblings left, the exclusion that
      split their parent would be covered by them. */
  lemma RemainderCanonical(remaining: seq<Network>, excluded: seq<Network>)
    requires Remainder(remaining, excluded)
    ensures IsCanonical(Elements(remaining))
  {
    forall a, b | a in Elements(remaining) && b in Elements(remaining) && a != b
      ensures !Overlaps(a, b)
      ensures a.len == b.len > 0 ==> Supernet(a) != Supernet(b)
    {
      var i :| 0 <= i < |remaining| && remaining[i] == a;
      var j :| 0 <= j < |remaining| && remaining[j] == b;
      assert !Overlaps(a, b);
      if a.len == b.len > 0 && Supernet(a) == Supernet(b) {
        var e :| 0 <= e < |excluded| && SubnetOf(excluded[e], Supernet(a));
        ParentUncovered(remaining, excluded, a, b, e);
      }
    }
  }

  lemma ParentUncovered(remaining: seq<Network>, excluded: seq<Network>, a: Network, b: Network, e: nat)
    requires Remainder(remaining, excluded) && e < |excluded|
    requires a != b && Supernet(a) == Supernet(b) && SubnetOf(excluded[e], Supernet(a))
    ensures a !in remaining || b !in remaining
  {
    MergeCovers(a, b);
    var x := Base(excluded[e]);
    assert Has(excluded[e], x) && Has(Supernet(a), x) && !Covered(remaining, x);
  }

  /** The result the script promises: the canonical list of every address that no
      input block covers. */
  ghost predicate IsComplement(out: seq<Network>, nets: seq<Network>) {
    && Sorted(out) && IsCanonical(Elements(out))
    && forall x :: Covered(out, x) <==> Has(ROOT, x) && !Covered(nets, x)
  }

  /** The embedded Python of `compute_complement`. */
  method ComputeComplement(nets: seq<Network>) returns (out: seq<Network>)
    ensures IsComplement(out, nets)
    ensures |out| <= 1 + 31 * |nets|
  {
    var cn := CollapseAddresses(nets);
    CollapsedNoLonger(cn, nets);
    var remaining := ExcludeAll(cn);
    RemainderCanonical(remaining, cn);
    var collapsed := CollapseAddresses(remaining);
    OnlyReordered(remaining, collapsed);
    out := SortedBlocks(Elements(collapsed));
    SortedUnique(out, collapsed);
  }

  /** The outer loop, over the collapsed input. */
  method ExcludeAll(cn: seq<Network>) returns (remaining: seq<Network>)
    requires Sorted(cn) && Apart(Elements(cn))
    ensures Remainder(remaining, cn)
    ensures |remaining| <= 1 + 31 * |cn|
  {
    hide Remainder, Overlaps;
    ElementsApart(cn);
    remaining := [ROOT];
    StartRemainder();
    for i := 0 to |cn|
      invariant Remainder(remaining, cn[..i])
      invariant |remaining| <= 1 + 31 * i
    {
      remaining := Exclude(remaining, cn[i], cn[..i]);
      assert cn[..i] + [cn[i]] == cn[..i + 1];
    }
    assert cn[..|cn|] == cn;
  }

  lemma StartRemainder()
    ensures Remainder([ROOT], [])
  {
    CoveredOne(ROOT);
  }

  lemma ElementsApart(ns: seq<Network>)
    requires Sorted(ns) && Apart(Elements(ns))
    ensures Separate(ns)
  {
    forall i, j | 0 <= i < |ns| && 0 <= j < |ns| && i != j ensures !Overlaps(ns[i], ns[j]) {
      assert ns[i] in Elements(ns) && ns[j] in Elements(ns);
      assert Before(ns[i], ns[j]) || Before(ns[j], ns[i]);
    }
  }

  /** Collapsing never makes a list longer. */
  lemma CollapsedNoLonger(cn: seq<Network>, nets: seq<Network>)
    requires Sorted(cn) && IsCanonical(Elements(cn))
    requires forall x :: Covered(cn, x) <==> Covered(nets, x)
    ensures |cn| <= |nets|
  {
    CoveredElements(cn);
    Shortest(Elements(cn), nets);
    SortedCount(cn);
  }

  /** The final `collapse_addresses` keeps the very same blocks; only their order
      changes. */
  lemma OnlyReordered(remaining: seq<Network>, collapsed: seq<Network>)
    requires IsCanonical(Elements(remaining))
    requires Sorted(collapsed) && IsCanonical(Elements(collapsed))
    requires forall x :: Covered(collapsed, x) <==> Covered(remaining, x)
    ensures Elements(collapsed) == Elements(remaining)
    ensures |collapsed| <= |remaining|
  {
    CoveredElements(remaining);
    CoveredElements(collapsed);
    Unique(Elements(collapsed), Elements(remaining));
    CollapsedNoLonger(collapsed, remaining);
  }

  /** The complement depends only on the set of addresses excluded: order, overlap
      and repetition in the input do not matter. */
  lemma OnlyAddressesMatter(out: seq<Network>, nets: seq<Network>, out': seq<Network>, nets': seq<Network>)
    requires IsComplement(out, nets) && IsComplement(out', nets')
    requires forall x :: Covered(nets, x) <==> Covered(nets', x)
    ensures out == out'
  {
    CoveredElements(out);
    CoveredElements(out');
    Unique(Elements(out), Elements(out'));
    SortedUnique(out, out');
  }

  /** No list of blocks for the same addresses is shorter. */
  lemma ComplementShortest(out: seq<Network>, nets: seq<Network>, other: seq<Network>)
    requires IsComplement(out, nets)
    requires forall x :: Covered(other, x) <==> Has(ROOT, x) && !Covered(nets, x)
    ensures |out| <= |other|
  {
    CollapsedNoLonger(out, other);
  }

  /** Complementing twice gives the collapsed input. */
  lemma ComplementTwice(nets: seq<Network>, once: seq<Network>, twice: seq<Network>, collapsed: seq<Network>)
    requires IsComplement(once, nets) && IsComplement(twice, once)
    requires Sorted(collapsed) && IsCanonical(Elements(collapsed))
    requires forall x :: Covered(collapsed, x) <==> Covered(nets, x)
    ensures twice == collapsed
  {
    forall x ensures Covered(twice, x) <==> Covered(collapsed, x) {
      if Covered(nets, x) {
        var i :| 0 <= i < |nets| && Has(nets[i], x);
        InRoot(nets[i]);
      }
    }
    CoveredElements(twice);
    CoveredElements(collapsed);
    Unique(Elements(twice), Elements(collapsed));
    SortedUnique(twice, collapsed);
  }

  /** A canonical list is sorted by address with no overlap: each block ends before
      the next begins. */
  lemma ComplementOrdered(out: seq<Network>, nets: seq<Network>, i: nat, j: nat)
    requires IsComplement(out, nets) && i < j < |out|
    ensures Broadcast(out[i]) < Base(out[j])
  {
    ElementsApart(out);
    OverlapsIff(out[i], out[j]);
    Laminar(if out[i].len >= out[j].len then out[i] else out[j],
            if out[i].len >= out[j].len then out[j] else out[i]);
  }

  /** The address space has 2^32 addresses. */
  lemma RootSize()
    ensures forall x :: Has(ROOT, x) <==> 0 <= x < 0x1_0000_0000
  {
    SizeByte(24);
    SizeByte(16);
    SizeByte(8);
    SizeByte(0);
  }

  lemma SizeByte(len: nat)
    requires len + 8 <= 32
    ensures Size(len) == 0x100 * Size(len + 8)
  {
    assert Size(len) == 4 * Size(len + 2);
    assert Size(len + 2) == 4 * Size(len + 4);
    assert Size(len + 4) == 4 * Size(len + 6);
    assert Size(len + 6) == 4 * Size(len + 8);
  }
}
