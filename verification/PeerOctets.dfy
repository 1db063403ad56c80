/** Address allocation in the peer subnet: which host octets the config uses and the
    lowest free one. */
module PeerOctets {
  import opened Wrappers
  import opened Text

  const LAST := 254

  /** `subnetPrefix` of an IPv4 subnet with these leading bytes. */
  function SubnetPrefix(a: nat, b: nat, c: nat): string {
    Decimal(a) + (['.'] + (Decimal(b) + (['.'] + (Decimal(c) + ['.']))))
  }

  /** The octet one `AllowedIPs` element names, if it is in the subnet. */
  function OctetOf(cidr: string, prefix: string): Option<int> {
    var ip := Split(TrimSpace(cidr), '/')[0];
    if TrimSpace(cidr) == "" || !(prefix <= ip) then None else Atoi(TrimPrefix(ip, prefix))
  }

  function OctetsIn(parts: seq<string>, prefix: string): set<int> {
    if parts == [] then {}
    else
      var o := OctetOf(parts[|parts| - 1], prefix);
      OctetsIn(parts[..|parts| - 1], prefix) + if o.Some? then {o.value} else {}
  }

  /** The octets of one `AllowedIPs` value. */
  function Octets(allowed: string, prefix: string): set<int> { OctetsIn(Split(allowed, ','), prefix) }

  /** The octets of all peers, given as (key, address) pairs. */
  function UsedOctets(list: seq<(string, string)>, prefix: string): set<int> {
    if list == [] then {}
    else UsedOctets(list[..|list| - 1], prefix) + Octets(list[|list| - 1].1, prefix)
  }

  /** `usedOctets`. */
  method CollectOctets(list: seq<(string, string)>, prefix: string) returns (used: set<int>)
    ensures used == UsedOctets(list, prefix)
  {
    used := {};
    for i := 0 to |list|
      invariant used == UsedOctets(list[..i], prefix)
    {
      var parts := Split(list[i].1, ',');
      ghost var before := used;
      for k := 0 to |parts|
        invariant used == before + OctetsIn(parts[..k], prefix)
      {
        var o := OctetOf(parts[k], prefix);
        assert parts[..k + 1][..k] == parts[..k];
        if o.Some? { used := used + {o.value}; }
      }
      assert parts[..|parts|] == parts;
      assert list[..i + 1][..i] == list[..i];
    }
    assert list[..|list|] == list;
  }

  /** The lowest free octet from `start` to the last one. */
  ghost predicate LowestFree(used: set<int>, start: nat, r: Option<int>) {
    match r
    case Some(o) => start <= o <= LAST && o !in used && forall i :: start <= i < o ==> i in used
    case None => forall i :: start <= i <= LAST ==> i in used
  }

  /** `pickFreeOctet`: it fails exactly when the whole range is used. */
  method PickFreeOctet(list: seq<(string, string)>, prefix: string, start: nat) returns (r: Option<int>)
    ensures LowestFree(UsedOctets(list, prefix), start, r)
    ensures r.Some? ==> start <= r.value <= 254 && r.value !in UsedOctets(list, prefix)
    ensures r.None? <==> forall o :: start <= o <= 254 ==> o in UsedOctets(list, prefix)
  {
    hide UsedOctets;
    var used := CollectOctets(list, prefix);
    var i: int := start;
    while i <= LAST
      invariant start <= i
      invariant forall k :: start <= k < i ==> k in used
      decreases LAST - i
    {
      if i !in used { return Some(i); }
      i := i + 1;
    }
    return None;
  }

  lemma RoomIff(used: set<int>, start: nat, r: Option<int>)
    requires LowestFree(used, start, r)
    ensures r.Some? ==> start <= r.value <= 254 && r.value !in used
    ensures r.None? <==> forall o :: start <= o <= 254 ==> o in used
    ensures r.Some? <==> exists o :: start <= o <= 254 && o !in used
  {
  }

  /** At most one octet is the lowest free one. */
  lemma LowestUnique(used: set<int>, start: nat, r: Option<int>, r': Option<int>)
    requires LowestFree(used, start, r) && LowestFree(used, start, r')
    ensures r == r'
  {
  }

  // --- a new address and its octet -----------------------------------------------------------

  ghost predicate PlainPrefix(prefix: string) {
    prefix != "" && !IsSpace(prefix[0]) && Free(prefix, ',') && Free(prefix, '/') && Free(prefix, '\n')
  }

  lemma SubnetPrefixPlain(a: nat, b: nat, c: nat)
    ensures PlainPrefix(SubnetPrefix(a, b, c))
  {
    assert !IsDigit(',') && !IsDigit('/') && !IsDigit('\n');
    assert SubnetPrefix(a, b, c)[0] == Decimal(a)[0] && IsDigit(Decimal(a)[0]);
  }

  /** The prefix spells the subnet's three leading bytes, in order. */
  lemma SubnetPrefixParts(a: nat, b: nat, c: nat)
    ensures Split(SubnetPrefix(a, b, c), '.') == [Decimal(a), Decimal(b), Decimal(c), ""]
  {
    hide Decimal, Split, Free;
    DotFree(a);
    DotFree(b);
    DotFree(c);
    var last := Decimal(c) + ['.'] + "";
    var middle := Decimal(b) + ['.'] + last;
    SplitNone();
    SplitField(Decimal(c), "", '.');
    SplitField(Decimal(b), last, '.');
    SplitField(Decimal(a), middle, '.');
    assert last == Decimal(c) + ['.'] && middle == Decimal(b) + (['.'] + last);
    assert SubnetPrefix(a, b, c) == Decimal(a) + ['.'] + middle;
  }

  lemma SplitNone()
    ensures Split("", '.') == [""]
  {
  }

  lemma DotFree(n: nat)
    ensures Free(Decimal(n), '.')
  {
    assert !IsDigit('.');
  }

  /** The address given to octet `o`, as `appendPeer` writes it. */
  function Address(prefix: string, o: nat): string { prefix + Decimal(o) }

  /** Printing an address and parsing the config again finds its octet and no other. */
  lemma AddressOctet(prefix: string, o: nat)
    requires PlainPrefix(prefix) && o <= LAST
    ensures Octets(Address(prefix, o) + "/32", prefix) == {o as int}
  {
    var ip := Address(prefix, o);
    var allowed := ip + "/32";
    assert Free(Decimal(o), ',') && Free(Decimal(o), '/') by { assert !IsDigit(',') && !IsDigit('/'); }
    assert Free(allowed, ',');
    SplitFree(allowed, ',');
    assert Octets(allowed, prefix) == OctetsIn([allowed], prefix);
    AddressRead(prefix, o);
    assert [allowed][..0] == [];
  }

  lemma AddressRead(prefix: string, o: nat)
    requires PlainPrefix(prefix) && o <= LAST
    ensures OctetOf(Address(prefix, o) + "/32", prefix) == Some(o)
  {
    var ip := Address(prefix, o);
    var allowed := ip + "/32";
    assert allowed[0] == prefix[0] && allowed[|allowed| - 1] == '2';
    TrimKeeps(allowed, IsSpace);
    assert Free(ip, '/') by { assert !IsDigit('/'); }
    assert allowed == ip + ['/'] + "32";
    SplitField(ip, "32", '/');
    assert ip[|prefix|..] == Decimal(o);
    AtoiDecimal(o);
  }

  // --- which octets are used -----------------------------------------------------------------

  lemma {:induction false} InParts(parts: seq<string>, prefix: string, o: int)
    ensures o in OctetsIn(parts, prefix) <==> exists k :: 0 <= k < |parts| && OctetOf(parts[k], prefix) == Some(o)
  {
    hide OctetOf;
    if parts != [] {
      var n := |parts| - 1;
      InParts(parts[..n], prefix, o);
      if k :| 0 <= k < n && OctetOf(parts[..n][k], prefix) == Some(o) { assert OctetOf(parts[k], prefix) == Some(o); }
      if k :| 0 <= k < |parts| && OctetOf(parts[k], prefix) == Some(o) {
        if k < n { assert OctetOf(parts[..n][k], prefix) == Some(o); }
      }
    }
  }

  /** An octet is used exactly if an element of some peer's list names it. */
  lemma {:induction false} UsedIff(list: seq<(string, string)>, prefix: string, o: int)
    ensures o in UsedOctets(list, prefix) <==> exists i, k :: Names(list, prefix, o, i, k)
  {
    hide OctetOf, Split;
    if list != [] {
      var n := |list| - 1;
      UsedIff(list[..n], prefix, o);
      InParts(Split(list[n].1, ','), prefix, o);
      if i, k :| Names(list[..n], prefix, o, i, k) { assert Names(list, prefix, o, i, k); }
      if o in Octets(list[n].1, prefix) {
        var k :| 0 <= k < |Split(list[n].1, ',')| && OctetOf(Split(list[n].1, ',')[k], prefix) == Some(o);
        assert Names(list, prefix, o, n, k);
      }
      if i, k :| Names(list, prefix, o, i, k) {
        if i < n { assert Names(list[..n], prefix, o, i, k); }
      }
    }
  }

  ghost predicate Names(list: seq<(string, string)>, prefix: string, o: int, i: int, k: int) {
    0 <= i < |list| && 0 <= k < |Split(list[i].1, ',')| && OctetOf(Split(list[i].1, ',')[k], prefix) == Some(o)
  }
}
