/** The peer handlers, each one step under the server's mutex: add a device, delete one,
    and drop every device of a deleted user. The state is the config file's text and the
    sidecar that maps public keys to names. */
module PeerServer {
  import opened Wrappers
  import opened Text
  import opened ConfLines
  import opened PeerConf
  import opened PeerEdit
  import opened PeerLaws
  import opened PeerListing
  import opened PeerOctets
  import opened PeerNames
  import Rfc3339

  // --- the state and its steps ----------------------------------------------------------------

  datatype State = State(conf: string, sidecar: Records)

  /** How the sidecar file behaves during a request. */
  datatype Sidecar = Works | WriteFails | Unreadable

  /** A request, with what it meets: the generated key and the time, and for a bulk removal
      the keys whose deletion from the sidecar reaches the disk. */
  datatype Action =
    | Add(user: string, tag: string, actor: string, now: Rfc3339.Instant, key: string, userExists: bool, side: Sidecar)
    | Delete(name: string, side: Sidecar)
    | RemoveUser(user: string, readable: bool, flushed: set<string>)

  datatype Outcome = Done | BadName | NoSuchUser | Duplicate | NoFreeOctet | NotFound | SidecarError | Panicked

  datatype Config = Config(prefix: string, start: nat)

  /** `newMetaStore`, whose error leaves the caller without a store. */
  function Opened(sidecar: Records, side: Sidecar): Option<Records> {
    if side.Unreadable? then None else Some(sidecar)
  }

  class Server {
    const cfg: Config
    var conf: string
    var sidecar: Records

    constructor (cfg: Config, conf: string, sidecar: Records)
      ensures this.cfg == cfg && View() == State(conf, sidecar)
    {
      this.cfg, this.conf, this.sidecar := cfg, conf, sidecar;
    }

    function View(): State
      reads this
    {
      State(conf, sidecar)
    }

    /** `handleAddPeer`, after the form is read. A store that could not be opened is noticed
        only after the listing and the append. */
    method AddPeer(a: Action) returns (outcome: Outcome)
      requires a.Add?
      modifies this
      ensures Added(cfg, old(View()), a, View(), outcome)
    {
      hide Peers, LinesOf, UsedOctets, LowestFree, Appended, HasName, PeerNameFor, Listed, Address;
      var name := PeerNameFor(a.user, a.tag);
      if name.None? { return BadName; }
      if !a.userExists { return NoSuchUser; }
      var pc := LoadConf(conf);
      var meta := Opened(sidecar, a.side);
      var listed := ListPeers(pc.peers, meta);
      if listed.None? { return Panicked; }
      if HasName(listed.value, name.value) { return Duplicate; }
      var octet := PickFreeOctet(Without(pc.peers, {}), cfg.prefix, cfg.start);
      if octet.None? {
        assert Allocates(cfg, View(), a, name.value, octet, View(), NoFreeOctet);
        return NoFreeOctet;
      }
      var p := NewPeer(name.value, a.actor, a.now, a.key, Address(cfg.prefix, octet.value));
      conf := Appended(conf, p);
      if meta.Some? && a.side.Works? { sidecar := sidecar[a.key := name.value]; }
      assert Allocates(cfg, old(View()), a, name.value, octet, View(), Done);
      return Done;
    }

    /** `handleDeletePeer`. */
    method DeletePeer(a: Action) returns (outcome: Outcome)
      requires a.Delete?
      modifies this
      ensures Deleted(old(View()), a, View(), outcome)
    {
      hide Cut, Peers, LinesOf, IsFirst, ShownBy, Listed;
      var pc := LoadConf(conf);
      if a.side.Unreadable? { return SidecarError; }
      var listed := ListPeers(pc.peers, Some(sidecar));
      ListedAll(pc.peers, sidecar);
      var target := FirstByAddress(listed.value, a.name);
      assert IsFirst(ListedIn(View()), a.name, target);
      if target.None? || target.value == "" {
        assert Drops(old(View()), a, target, View(), NotFound);
        return NotFound;
      }
      ListedKey(View(), a.name, target.value);
      var out := RemovePeerByPubkey(pc, target.value);
      conf := out.value;
      if a.side.Works? { sidecar := sidecar - {target.value}; }
      assert Drops(old(View()), a, target, View(), Done);
      return Done;
    }

    /** `removeUserPeers`. */
    method RemoveUserPeers(a: Action) returns (outcome: Outcome)
      requires a.RemoveUser?
      modifies this
      ensures Removed(old(View()), a, View(), outcome)
    {
      hide Cut, Peers, LinesOf, KeysWithPrefix, ShownBy, WithKeys;
      var pc := LoadConf(conf);
      if !a.readable { return SidecarError; }
      var listed := ListPeers(pc.peers, Some(sidecar));
      ListedAll(pc.peers, sidecar);
      var keys := KeysWithPrefix(listed.value, a.user + "-");
      if keys == {} { return Done; }
      conf := RemovePeersByPubkeys(pc, keys);
      sidecar := sidecar - keys * a.flushed;
      return Done;
    }
  }

  // --- what each step does -----------------------------------------------------------------------

  function PeersOf(s: State): seq<Entry> { Peers(LinesOf(s.conf)) }

  function ListedIn(s: State): seq<Shown> { ShownAll(PeersOf(s), s.sidecar) }

  /** A listed key is the key of some block. */
  lemma ListedKey(s: State, name: string, key: string)
    requires IsFirst(ListedIn(s), name, Some(key))
    ensures FirstWithKey(PeersOf(s), key) < |PeersOf(s)|
  {
    hide LinesOf, Peers, ListedName;
    var p :| p in ListedIn(s) && p.name == name && p.key == key;
    var i :| 0 <= i < |ListedIn(s)| && ListedIn(s)[i] == p;
    assert PeersOf(s)[i].key == key;
  }

  /** An add: refused without any change, or the lowest free address is appended. */
  ghost predicate Added(cfg: Config, s: State, a: Action, t: State, outcome: Outcome)
    requires a.Add?
  {
    var name := PeerNameFor(a.user, a.tag);
    if name.None? then t == s && outcome == BadName
    else if !a.userExists then t == s && outcome == NoSuchUser
    else
      var list := Listed(PeersOf(s), Opened(s.sidecar, a.side));
      if list.None? then t == s && outcome == Panicked
      else if HasName(list.value, name.value) then t == s && outcome == Duplicate
      else exists octet :: Allocates(cfg, s, a, name.value, octet, t, outcome)
  }

  function Device(cfg: Config, a: Action, name: string, o: nat): NewPeer
    requires a.Add?
  {
    NewPeer(name, a.actor, a.now, a.key, Address(cfg.prefix, o))
  }

  /** The lowest free octet goes to the new device; without one nothing changes. */
  ghost predicate Allocates(cfg: Config, s: State, a: Action, name: string, octet: Option<int>, t: State, outcome: Outcome)
    requires a.Add?
  {
    && LowestFree(UsedOctets(PeerList(s.conf), cfg.prefix), cfg.start, octet)
    && match octet
       case None => t == s && outcome == NoFreeOctet
       case Some(o) =>
         && o >= 0 && outcome == Done
         && t.conf == Appended(s.conf, Device(cfg, a, name, o))
         && t.sidecar == if a.side.Works? then s.sidecar[a.key := name] else s.sidecar
  }

  /** A delete: the first listed peer of that name goes, or nothing changes. */
  ghost predicate Deleted(s: State, a: Action, t: State, outcome: Outcome)
    requires a.Delete?
  {
    if a.side.Unreadable? then t == s && outcome == SidecarError
    else exists target :: IsFirst(ListedIn(s), a.name, target) && Drops(s, a, target, t, outcome)
  }

  ghost predicate Drops(s: State, a: Action, target: Option<string>, t: State, outcome: Outcome)
    requires a.Delete?
  {
    if target.None? || target.value == "" then t == s && outcome == NotFound
    else
      && outcome == Done
      && t.conf == OneRemoved(s.conf, target.value)
      && t.sidecar == if a.side.Works? then s.sidecar - {target.value} else s.sidecar
  }

  /** A user's peers all go in one rewrite; of their records, those that are flushed. */
  ghost predicate Removed(s: State, a: Action, t: State, outcome: Outcome)
    requires a.RemoveUser?
  {
    var keys := KeysWithPrefix(ListedIn(s), a.user + "-");
    if !a.readable then t == s && outcome == SidecarError
    else
      && outcome == Done
      && t.conf == BulkRemoved(s.conf, keys)
      && t.sidecar == s.sidecar - keys * a.flushed
  }

  ghost predicate Steps(cfg: Config, s: State, a: Action, t: State, outcome: Outcome) {
    match a
    case Add(_, _, _, _, _, _, _) => Added(cfg, s, a, t, outcome)
    case Delete(_, _) => Deleted(s, a, t, outcome)
    case RemoveUser(_, _, _) => Removed(s, a, t, outcome)
  }

  // --- a sidecar that cannot be opened ------------------------------------------------------------

  /** The form is valid, the user exists and the subnet has room. */
  predicate ValidAdd(cfg: Config, a: Action)
    requires a.Add?
  {
    PeerNameFor(a.user, a.tag).Some? && a.userExists && cfg.start <= LAST
  }

  /** The handler means to carry on without its store. A valid add does so exactly if the
      config has no peer yet; otherwise the listing panics and nothing is added. */
  lemma AddWithoutStore(cfg: Config, s: State, a: Action, t: State, outcome: Outcome)
    requires a.Add? && ValidAdd(cfg, a) && a.side.Unreadable? && Added(cfg, s, a, t, outcome)
    ensures outcome == Done <==> PeersOf(s) == []
    ensures outcome == Panicked <==> PeersOf(s) != []
  {
    hide LinesOf, Peers, Appended;
    ListedPanics(PeersOf(s));
    if PeersOf(s) == [] {
      var octet :| Allocates(cfg, s, a, PeerNameFor(a.user, a.tag).value, octet, t, outcome);
      assert PeerList(s.conf) == [];
      assert UsedOctets(PeerList(s.conf), cfg.prefix) == {};
      assert octet.None? ==> cfg.start as int in UsedOctets(PeerList(s.conf), cfg.prefix);
    }
  }

  lemma HeaderIsPeer()
    ensures Peers(LinesOf(HEADER)) != []
  {
    hide Classify, Split;
    assert Free(HEADER, '\n');
    SplitFree(HEADER, '\n');
    HeaderClass();
    var lines := LinesOf(HEADER);
    assert lines == [Classify(HEADER)];
    HeaderStep(START, lines, 0);
    assert ParseTo(lines, 1).cur.Some?;
  }

  /** One header line is enough for the panic. */
  lemma HeaderPanics(cfg: Config, sidecar: Records, a: Action, t: State, outcome: Outcome)
    requires a.Add? && ValidAdd(cfg, a) && a.side.Unreadable? && Added(cfg, State(HEADER, sidecar), a, t, outcome)
    ensures outcome == Panicked
  {
    hide Added, LinesOf, Peers;
    HeaderIsPeer();
    AddWithoutStore(cfg, State(HEADER, sidecar), a, t, outcome);
  }

  // --- what every run keeps --------------------------------------------------------------------

  ghost predicate HasKey(list: seq<(string, string)>, key: string) {
    exists i :: 0 <= i < |list| && list[i].0 == key
  }

  ghost predicate DistinctOctets(list: seq<(string, string)>, prefix: string) {
    forall i, j :: 0 <= i < j < |list| ==> Octets(list[i].1, prefix) !! Octets(list[j].1, prefix)
  }

  /** No two peers share a public key or an octet of the subnet. */
  ghost predicate NoClash(cfg: Config, s: State) {
    DistinctKeys(PeerList(s.conf)) && DistinctOctets(PeerList(s.conf), cfg.prefix)
  }

  /** A generated key is printable and new. */
  ghost predicate Legal(s: State, a: Action) {
    a.Add? ==> Printable(a.key) && !HasKey(PeerList(s.conf), a.key)
  }

  lemma {:induction false} UsedHas(list: seq<(string, string)>, prefix: string)
    ensures forall i :: 0 <= i < |list| ==> Octets(list[i].1, prefix) <= UsedOctets(list, prefix)
  {
    if list != [] {
      UsedHas(list[..|list| - 1], prefix);
    }
  }

  lemma UsedSnoc(list: seq<(string, string)>, x: (string, string), prefix: string)
    ensures UsedOctets(list + [x], prefix) == UsedOctets(list, prefix) + Octets(x.1, prefix)
  {
    assert (list + [x])[..|list|] == list;
  }

  /** Filtering keeps pairs apart. */
  lemma {:induction false} FilterOctets(list: seq<(string, string)>, keys: set<string>, prefix: string)
    requires DistinctOctets(list, prefix)
    ensures DistinctOctets(FilterKeys(list, keys), prefix)
  {
    hide Octets;
    if list != [] {
      var n := |list| - 1;
      FilterOctets(list[..n], keys, prefix);
      FilterMembers(list[..n], keys);
      var f := FilterKeys(list[..n], keys);
      forall i | 0 <= i < |f| ensures Octets(f[i].1, prefix) !! Octets(list[n].1, prefix) {
        assert f[i] in f;
        var k :| 0 <= k < n && list[..n][k] == f[i];
      }
    }
  }

  /** A successful add extends the list by the new key and the lowest free address, whose
      octet is then used and was not. */
  lemma AddExtends(cfg: Config, s: State, a: Action, name: string, o: nat, t: State)
    requires PlainPrefix(cfg.prefix) && a.Add? && Legal(s, a)
    requires Allocates(cfg, s, a, name, Some(o), t, Done)
    ensures var list := PeerList(s.conf);
            && PeerList(t.conf) == list + [(a.key, Address(cfg.prefix, o) + "/32")]
            && o !in UsedOctets(list, cfg.prefix)
            && UsedOctets(PeerList(t.conf), cfg.prefix) == UsedOctets(list, cfg.prefix) + {o as int}
            && (forall i :: cfg.start <= i < o ==> i in UsedOctets(list, cfg.prefix))
  {
    hide PeerList, Appended, Octets, UsedOctets;
    var p := Device(cfg, a, name, o);
    AddressPrintable(cfg.prefix, o);
    AppendList(s.conf, p);
    AddressOctet(cfg.prefix, o);
    UsedSnoc(PeerList(s.conf), (a.key, Allowed(p)), cfg.prefix);
  }

  lemma AddressPrintable(prefix: string, o: nat)
    requires PlainPrefix(prefix)
    ensures Printable(Address(prefix, o))
  {
    var ip := Address(prefix, o);
    var d := Decimal(o);
    assert ip[|ip| - 1] == d[|d| - 1] && IsDigit(d[|d| - 1]);
    assert !IsDigit('\n');
  }

  /** The peers left by a delete or a bulk removal are the others. */
  lemma RemovalFilters(cfg: Config, s: State, a: Action, t: State, outcome: Outcome) returns (keys: set<string>)
    requires !a.Add? && Steps(cfg, s, a, t, outcome) && DistinctKeys(PeerList(s.conf))
    ensures PeerList(t.conf) == FilterKeys(PeerList(s.conf), keys)
  {
    hide PeerList, OneRemoved, BulkRemoved, ListedIn, KeysWithPrefix, IsFirst;
    if t == s {
      keys := {};
      FilterNone(PeerList(s.conf), {});
    } else {
      match a
      case Delete(name, _) =>
        var target :| IsFirst(ListedIn(s), name, target) && Drops(s, a, target, t, outcome);
        keys := {target.value};
        OneTheorem(s.conf, target.value);
      case RemoveUser(user, _, _) =>
        keys := KeysWithPrefix(ListedIn(s), user + "-");
        BulkTheorem(s.conf, keys);
    }
  }

  /** Every step keeps keys and octets apart. */
  lemma StepKeepsApart(cfg: Config, s: State, a: Action, t: State, outcome: Outcome)
    requires PlainPrefix(cfg.prefix) && Legal(s, a) && Steps(cfg, s, a, t, outcome) && NoClash(cfg, s)
    ensures NoClash(cfg, t)
  {
    hide PeerList, Octets, UsedOctets, ListedIn, Listed, Appended, PeersOf;
    if a.Add? {
      if t != s {
        var octet :| Allocates(cfg, s, a, PeerNameFor(a.user, a.tag).value, octet, t, outcome);
        AddExtends(cfg, s, a, PeerNameFor(a.user, a.tag).value, octet.value, t);
        AddressOctet(cfg.prefix, octet.value);
        UsedHas(PeerList(s.conf), cfg.prefix);
      }
    } else {
      var keys := RemovalFilters(cfg, s, a, t, outcome);
      FilterDistinct(PeerList(s.conf), keys);
      FilterOctets(PeerList(s.conf), keys, cfg.prefix);
    }
  }

  // --- runs ------------------------------------------------------------------------------------

  datatype Event = Event(action: Action, outcome: Outcome, after: State)

  /** A run from `s`: each event's action was legal and took the state before it to its own. */
  ghost predicate IsRun(cfg: Config, s: State, run: seq<Event>)
    decreases |run|
  {
    run != [] ==>
      && Legal(s, run[0].action)
      && Steps(cfg, s, run[0].action, run[0].after, run[0].outcome)
      && IsRun(cfg, run[0].after, run[1..])
  }

  function Final(s: State, run: seq<Event>): State { if run == [] then s else run[|run| - 1].after }

  /** From a config whose peers share no key and no octet, every run of adds, deletes and
      user removals, with any sidecar failures, keeps it so. */
  lemma {:induction false} RunKeepsApart(cfg: Config, s: State, run: seq<Event>)
    requires PlainPrefix(cfg.prefix) && IsRun(cfg, s, run) && NoClash(cfg, s)
    ensures NoClash(cfg, Final(s, run))
    decreases |run|
  {
    hide NoClash, Legal, Steps;
    if run != [] {
      StepKeepsApart(cfg, s, run[0].action, run[0].after, run[0].outcome);
      RunKeepsApart(cfg, run[0].after, run[1..]);
    }
  }

  /** An add that gets as far as allocation fails exactly when every octet from the start
      to 254 is used. */
  lemma AddFullIff(cfg: Config, s: State, a: Action, t: State, outcome: Outcome)
    requires a.Add? && Added(cfg, s, a, t, outcome)
    requires outcome == Done || outcome == NoFreeOctet
    ensures outcome == NoFreeOctet <==>
              forall o :: cfg.start <= o <= 254 ==> o in UsedOctets(PeerList(s.conf), cfg.prefix)
  {
    hide PeerList, Listed, PeersOf, LowestFree, Appended, Device;
    var octet :| Allocates(cfg, s, a, PeerNameFor(a.user, a.tag).value, octet, t, outcome);
    RoomIff(UsedOctets(PeerList(s.conf), cfg.prefix), cfg.start, octet);
    assert octet.Some? ==> octet.value !in UsedOctets(PeerList(s.conf), cfg.prefix);
  }
}
