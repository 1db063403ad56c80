/** IPv4 CIDR blocks (section 3.1 of RFC 4632) with the operations of Python's
    `ipaddress.IPv4Network` that the route-table script uses. A block is its
    prefix: the number the leading `len` bits spell, and `len` itself. Its network
    address is that number times the block's size, so it is always aligned. */
module Cidr {

  /** Number of addresses in a block with prefix length `len`: 2^(32 - len). */
  function Size(len: nat): (n: nat)
    requires len <= 32
    ensures n > 0
    decreases 32 - len
  {
    if len == 32 then 1 else 2 * Size(len + 1)
  }

  /** Number of blocks with prefix length `len`: 2^len. */
  function Count(len: nat): (n: nat)
    ensures n > 0
  {
    if len == 0 then 1 else 2 * Count(len - 1)
  }

  datatype Block = Net(bits: nat, len: nat)

  type Network = n: Block | n.len <= 32 && n.bits < Count(n.len) witness Net(0, 0)

  /** `0.0.0.0/0`. */
  const ROOT: Network := Net(0, 0)

  /** `n.network_address` and `n.broadcast_address`. */
  function Base(n: Network): nat { n.bits * Size(n.len) }

  function Broadcast(n: Network): nat { Base(n) + Size(n.len) - 1 }

  predicate Has(n: Network, x: int) { Base(n) <= x <= Broadcast(n) }

  /** `a.subnet_of(b)`. */
  predicate SubnetOf(a: Network, b: Network) {
    Base(b) <= Base(a) && Broadcast(a) <= Broadcast(b)
  }

  /** `a.overlaps(b)`, as the library tests it: an end of one lies in the other. */
  predicate Overlaps(a: Network, b: Network) {
    Has(a, Base(b)) || Has(a, Broadcast(b)) || Has(b, Base(a)) || Has(b, Broadcast(a))
  }

  /** `n.subnets()`: the two halves. */
  function Lower(n: Network): Network
    requires n.len < 32
  {
    Net(2 * n.bits, n.len + 1)
  }

  function Upper(n: Network): Network
    requires n.len < 32
  {
    Net(2 * n.bits + 1, n.len + 1)
  }

  /** `n.supernet()`; the whole space is its own supernet. */
  function Supernet(n: Network): Network {
    if n.len == 0 then n else Net(n.bits / 2, n.len - 1)
  }

  /** `IPv4Network("addr/len", strict=False)`: the host bits are dropped. */
  function Masked(addr: nat, len: nat): (n: Network)
    requires len <= 32 && Has(ROOT, addr)
    ensures n.len == len && Has(n, addr)
    decreases len
  {
    if len == 0 then ROOT
    else
      var p := Masked(addr, len - 1);
      HalvesCover(p);
      if addr < Base(Upper(p)) then Lower(p) else Upper(p)
  }

  /** The mask is the address with its low `32 - len` bits cleared. */
  lemma MaskedBits(addr: nat, len: nat)
    requires len <= 32 && Has(ROOT, addr)
    ensures Masked(addr, len).bits == addr / Size(len)
  {
    var n := Masked(addr, len);
    Quotient(addr, Size(len), n.bits);
  }

  lemma Quotient(x: nat, p: nat, k: nat)
    requires p > 0 && k * p <= x < k * p + p
    ensures x / p == k
  {
    var q := x / p;
    assert q * p <= x < q * p + p;
    if q < k { MultiplesApart(q, k, p); } else if k < q { MultiplesApart(k, q, p); }
  }

  lemma MultiplesApart(i: int, j: int, p: int)
    requires p > 0 && i < j
    ensures i * p + p <= j * p
  {
    assert j * p == i * p + p + (j - i - 1) * p;
    assert (j - i - 1) * p >= 0;
  }

  // --- the geometry of blocks -----------------------------------------------------

  /** The halves of a block cover it exactly and do not meet. */
  lemma HalvesCover(n: Network)
    requires n.len < 32
    ensures Base(Lower(n)) == Base(n) && Broadcast(Upper(n)) == Broadcast(n)
    ensures Broadcast(Lower(n)) + 1 == Base(Upper(n))
    ensures Supernet(Lower(n)) == n == Supernet(Upper(n))
  {
    var s := Size(n.len + 1);
    assert n.bits * (2 * s) == 2 * n.bits * s;
    assert (2 * n.bits + 1) * s == 2 * n.bits * s + s;
  }

  /** A block is one of its supernet's halves. */
  lemma SupernetHalves(n: Network)
    requires n.len > 0
    ensures n == Lower(Supernet(n)) || n == Upper(Supernet(n))
    ensures SubnetOf(n, Supernet(n))
  {
    HalvesCover(Supernet(n));
  }

  /** CIDR blocks are laminar: a longer prefix is inside a shorter one or apart
      from it. */
  lemma {:induction false} Laminar(a: Network, b: Network)
    requires a.len >= b.len
    ensures SubnetOf(a, b) || Broadcast(a) < Base(b) || Broadcast(b) < Base(a)
    decreases a.len
  {
    if a.len == b.len {
      if a.bits < b.bits {
        MultiplesApart(a.bits, b.bits, Size(a.len));
      } else if b.bits < a.bits {
        MultiplesApart(b.bits, a.bits, Size(a.len));
      }
    } else {
      SupernetHalves(a);
      Laminar(Supernet(a), b);
    }
  }

  lemma {:induction false} SizeMonotone(a: nat, b: nat)
    requires a < b <= 32
    ensures Size(b) < Size(a)
    decreases b - a
  {
    if a + 1 < b {
      SizeMonotone(a + 1, b);
    }
  }

  /** The library's four-corner test finds an overlap exactly when an address is
      shared, and then the block with the longer prefix is inside the other. */
  lemma OverlapsIff(a: Network, b: Network)
    ensures Overlaps(a, b) <==> exists x :: Has(a, x) && Has(b, x)
    ensures Overlaps(a, b) <==> SubnetOf(a, b) || SubnetOf(b, a)
    ensures Overlaps(a, b) == Overlaps(b, a)
    ensures Overlaps(a, b) ==> (SubnetOf(a, b) <==> a.len >= b.len)
  {
    assert Has(a, Base(a)) && Has(b, Base(b)) && Has(a, Broadcast(a)) && Has(b, Broadcast(b));
    if a.len >= b.len {
      Laminar(a, b);
    } else {
      Laminar(b, a);
      SizeMonotone(a.len, b.len);
    }
  }

  /** Blocks with one length that meet, or that contain each other, are one block. */
  lemma SameBlock(a: Network, b: Network)
    requires Overlaps(a, b) && a.len == b.len
    ensures a == b
  {
    if a.bits < b.bits {
      MultiplesApart(a.bits, b.bits, Size(a.len));
    } else if b.bits < a.bits {
      MultiplesApart(b.bits, a.bits, Size(a.len));
    }
  }

  lemma MutualSubnets(a: Network, b: Network)
    requires SubnetOf(a, b) && SubnetOf(b, a)
    ensures a == b
  {
    OverlapsIff(a, b);
    OverlapsIff(b, a);
    SameBlock(a, b);
  }

  /** Every block lies in the 32-bit address space. */
  lemma {:induction false} InRoot(n: Network)
    ensures SubnetOf(n, ROOT)
    decreases n.len
  {
    if n.len > 0 {
      SupernetHalves(n);
      InRoot(Supernet(n));
    }
  }
}
