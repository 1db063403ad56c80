/** The device list the handlers work from: each peer with the name its sidecar record or,
    failing that, its comment gives it. */
module PeerListing {
  import opened Wrappers
  import opened Text
  import opened ConfLines
  import opened PeerComment

  const UNMANAGED := "(unmanaged)"

  type Records = map<string, string>

  datatype Shown = Shown(key: string, name: string, ip: string)

  /** A comment that gives no name. */
  predicate Nameless(comment: string) {
    var m := MatchComment(comment);
    m.None? || m.value.name == ""
  }

  /** The name a peer is listed under: the sidecar's, else the one its comment carries. */
  function ListedName(e: Entry, sidecar: Records): string {
    if e.key in sidecar then sidecar[e.key]
    else if Nameless(e.comment) then UNMANAGED
    else MatchComment(e.comment).value.name
  }

  function ShownBy(e: Entry, sidecar: Records): Shown {
    Shown(e.key, ListedName(e, sidecar), Split(TrimSpace(e.allowed), '/')[0])
  }

  /** One turn of the listing's loop. Asking a store that could not be opened panics. */
  function Show(e: Entry, store: Option<Records>): Option<Shown> {
    if store.None? then None else Some(ShownBy(e, store.value))
  }

  /** `listPeersWithMeta` before it sorts; nothing when it panics. */
  function Listed(peers: seq<Entry>, store: Option<Records>): Option<seq<Shown>> {
    if peers == [] then Some([])
    else
      var n := |peers| - 1;
      var front, last := Listed(peers[..n], store), Show(peers[n], store);
      if front.None? || last.None? then None else Some(front.value + [last.value])
  }

  method ListPeers(peers: seq<Entry>, store: Option<Records>) returns (out: Option<seq<Shown>>)
    ensures out == Listed(peers, store)
  {
    var list: seq<Shown> := [];
    for i := 0 to |peers|
      invariant Listed(peers[..i], store) == Some(list)
    {
      assert peers[..i + 1][..i] == peers[..i];
      var p := Show(peers[i], store);
      if p.None? {
        PanicSpreads(peers, store, i + 1);
        return None;
      }
      list := list + [p.value];
    }
    assert peers[..|peers|] == peers;
    return Some(list);
  }

  lemma {:induction false} PanicSpreads(peers: seq<Entry>, store: Option<Records>, n: nat)
    requires n <= |peers| && Listed(peers[..n], store) == None
    ensures Listed(peers, store) == None
    decreases |peers|
  {
    if n < |peers| {
      assert peers[..|peers| - 1][..n] == peers[..n];
      PanicSpreads(peers[..|peers| - 1], store, n);
    } else {
      assert peers[..n] == peers;
    }
  }

  function ShownAll(peers: seq<Entry>, sidecar: Records): seq<Shown> {
    seq(|peers|, i requires 0 <= i < |peers| => ShownBy(peers[i], sidecar))
  }

  lemma {:induction false} ListedAll(peers: seq<Entry>, sidecar: Records)
    ensures Listed(peers, Some(sidecar)) == Some(ShownAll(peers, sidecar))
  {
    hide ShownBy;
    if peers == [] {
      assert ShownAll(peers, sidecar) == [];
    } else {
      var n := |peers| - 1;
      ListedAll(peers[..n], sidecar);
      assert ShownAll(peers, sidecar) == ShownAll(peers[..n], sidecar) + [ShownBy(peers[n], sidecar)];
    }
  }

  /** Without a store the listing panics exactly if there is a peer. */
  lemma {:induction false} ListedPanics(peers: seq<Entry>)
    ensures Listed(peers, None) == None <==> peers != []
  {
  }

  // --- searching the list --------------------------------------------------------------------

  predicate HasName(list: seq<Shown>, name: string) { exists p :: p in list && p.name == name }

  function KeysWithPrefix(list: seq<Shown>, prefix: string): set<string> {
    set p | p in list && prefix <= p.name :: p.key
  }

  /** The key of the peer of that name that comes first in the list sorted by address; peers
      with one address may come in any order. */
  predicate IsFirst(list: seq<Shown>, name: string, target: Option<string>) {
    match target
    case None => !HasName(list, name)
    case Some(key) =>
      exists p :: p in list && p.name == name && p.key == key
        && forall q :: q in list && q.name == name ==> Leq(p.ip, q.ip)
  }

  method FirstByAddress(list: seq<Shown>, name: string) returns (target: Option<string>)
    ensures IsFirst(list, name, target)
  {
    var best: Option<Shown> := None;
    for i := 0 to |list|
      invariant best.None? ==> forall q :: q in list[..i] ==> q.name != name
      invariant best.Some? ==> best.value in list && best.value.name == name
      invariant best.Some? ==> forall q :: q in list[..i] && q.name == name ==> Leq(best.value.ip, q.ip)
    {
      var p := list[i];
      assert list[..i + 1] == list[..i] + [p];
      LeqTotal(p.ip, p.ip);
      if p.name == name {
        if best.None? {
          best := Some(p);
        } else if !Leq(best.value.ip, p.ip) {
          LeqTotal(best.value.ip, p.ip);
          forall q | q in list[..i] && q.name == name ensures Leq(p.ip, q.ip) {
            LeqTransitive(p.ip, best.value.ip, q.ip);
          }
          best := Some(p);
        }
      }
    }
    assert list[..|list|] == list;
    return if best.None? then None else Some(best.value.key);
  }

  // --- names after a removal --------------------------------------------------------------------

  /** No two listed peers have one name, whether from the sidecar or from a comment. Any
      number may have none. */
  ghost predicate DistinctNames(peers: seq<Entry>, sidecar: Records) {
    forall i, j :: 0 <= i < j < |peers| && ListedName(peers[i], sidecar) != UNMANAGED ==>
      ListedName(peers[i], sidecar) != ListedName(peers[j], sidecar)
  }

  /** The name the `j`th peer will have once lines are dropped: its record's, or that of the
      comment its header then finds before it. */
  function NameAfter(lines: seq<Line>, drop: seq<bool>, j: nat, sidecar: Records): string
    requires |lines| == |drop| && j < |Peers(lines)|
  {
    var e := Peers(lines)[j];
    if e.start <= |lines| then ListedName(e.(comment := Heir(lines, drop, e.start)), sidecar) else ""
  }

  /** Those names differ for the peers that stay. */
  ghost predicate DistinctAfter(lines: seq<Line>, drop: seq<bool>, gone: set<nat>, sidecar: Records)
    requires |lines| == |drop|
  {
    forall j, k :: 0 <= j < k < |Peers(lines)| && j !in gone && k !in gone && NameAfter(lines, drop, j, sidecar) != UNMANAGED ==>
      NameAfter(lines, drop, j, sidecar) != NameAfter(lines, drop, k, sidecar)
  }

  /** The records of the peers that stay are untouched. */
  ghost predicate RecordsStay(peers: seq<Entry>, gone: set<nat>, was: Records, now: Records) {
    forall j :: 0 <= j < |peers| && j !in gone ==>
      (peers[j].key in was <==> peers[j].key in now) && (peers[j].key in was ==> was[peers[j].key] == now[peers[j].key])
  }

  lemma NameStays(lines: seq<Line>, drop: seq<bool>, gone: set<nat>, j: nat, now: Entry, sidecar: Records, after: Records)
    requires |lines| == |drop| && j < |Peers(lines)| && j !in gone && Stays(lines, drop, j, now)
    requires RecordsStay(Peers(lines), gone, sidecar, after)
    ensures ListedName(now, after) == NameAfter(lines, drop, j, sidecar)
  {
    hide MatchComment, Peers;
  }

  lemma {:induction false} PositionsAll(n: nat, gone: set<nat>, j: nat) returns (i: nat)
    requires j < n && j !in gone
    ensures i < |Positions(n, gone)| && Positions(n, gone)[i] == j
  {
    if j == n - 1 {
      i := |Positions(n - 1, gone)|;
    } else {
      i := PositionsAll(n - 1, gone, j);
    }
  }

  /** The names listed after a removal differ exactly if those the peers that stay will have
      differ. */
  lemma NamesStay(lines: seq<Line>, drop: seq<bool>, gone: set<nat>, now: seq<Entry>, sidecar: Records, after: Records)
    requires |lines| == |drop| && AllStay(lines, drop, gone, now) && RecordsStay(Peers(lines), gone, sidecar, after)
    ensures DistinctNames(now, after) <==> DistinctAfter(lines, drop, gone, sidecar)
  {
    hide ListedName, NameAfter, Stays, Peers, RecordsStay, Positions;
    var n := |Peers(lines)|;
    var pos := Positions(n, gone);
    forall i | 0 <= i < |now| ensures ListedName(now[i], after) == NameAfter(lines, drop, pos[i], sidecar) {
      NameStays(lines, drop, gone, pos[i], now[i], sidecar, after);
    }
    if DistinctNames(now, after) {
      forall j, k | 0 <= j < k < n && j !in gone && k !in gone && NameAfter(lines, drop, j, sidecar) != UNMANAGED
        ensures NameAfter(lines, drop, j, sidecar) != NameAfter(lines, drop, k, sidecar)
      {
        var i := PositionsAll(n, gone, j);
        var l := PositionsAll(n, gone, k);
        assert ListedName(now[i], after) != ListedName(now[l], after);
      }
    }
  }

  /** Every peer that stays has a sidecar record, or the block before it stays too, or the
      line it then finds above its header names nobody. */
  ghost predicate NamesSafe(lines: seq<Line>, drop: seq<bool>, gone: set<nat>, sidecar: Records)
    requires |lines| == |drop|
  {
    forall j :: 0 <= j < |Peers(lines)| && j !in gone ==>
      var e := Peers(lines)[j];
      e.key in sidecar || !Exposed(Peers(lines), gone, j) || (e.start <= |lines| && Nameless(Heir(lines, drop, e.start)))
  }

  /** Such a peer keeps its listed name or is listed without one. */
  lemma SafeName(lines: seq<Line>, drop: seq<bool>, gone: set<nat>, j: nat, sidecar: Records)
    requires Classified(lines) && |lines| == |drop| && MarksBlocks(lines, drop, gone)
    requires j < |Peers(lines)| && j !in gone && NamesSafe(lines, drop, gone, sidecar)
    ensures NameAfter(lines, drop, j, sidecar) in {ListedName(Peers(lines)[j], sidecar), UNMANAGED}
  {
    hide MatchComment, Peers, Classified, MarksBlocks, Exposed, Heir, Nameless;
    HeadersHoldPeers(lines, j);
    if !Exposed(Peers(lines), gone, j) { HeirUnlessExposed(lines, drop, gone, j); }
  }

  /** So a removal that spares them keeps all listed names apart. */
  lemma SafeStay(lines: seq<Line>, drop: seq<bool>, gone: set<nat>, sidecar: Records)
    requires Classified(lines) && |lines| == |drop| && MarksBlocks(lines, drop, gone)
    requires NamesSafe(lines, drop, gone, sidecar) && DistinctNames(Peers(lines), sidecar)
    ensures DistinctAfter(lines, drop, gone, sidecar)
  {
    hide ListedName, NameAfter, Peers, Classified, MarksBlocks, NamesSafe;
    forall j | 0 <= j < |Peers(lines)| && j !in gone
      ensures NameAfter(lines, drop, j, sidecar) in {ListedName(Peers(lines)[j], sidecar), UNMANAGED}
    {
      SafeName(lines, drop, gone, j, sidecar);
    }
  }

  // --- names after an append ----------------------------------------------------------------------

  lemma SameName(e: Entry, f: Entry, sidecar: Records, key: string, name: string)
    requires SameButEnd(e, f) && e.key != key
    ensures f.key == e.key
    ensures ListedName(f, sidecar[key := name]) == ListedName(f, sidecar) == ListedName(e, sidecar)
  {
    hide MatchComment;
  }

  lemma NewName(e: Entry, sidecar: Records, name: string)
    ensures ListedName(e, sidecar[e.key := name]) == name
  {
  }
}
