/** What removals mean in names: which peers a bulk removal takes and leaves, that it reaches
    every device recorded for its user, and that records and peers stay in step. */
module PeerRemoval {
  import opened Wrappers
  import opened Text
  import opened ConfLines
  import opened PeerConf
  import opened PeerEdit
  import opened PeerLaws
  import opened PeerListing
  import opened PeerOctets
  import opened PeerNames
  import opened PeerServer
  import opened PeerComment
  import opened PeerNaming
  import Rfc3339

  // --- a bulk removal, by name ------------------------------------------------------------------

  /** The peers whose listed name does not begin with `prefix`, in order. */
  function Spared(peers: seq<Entry>, sidecar: Records, prefix: string): seq<(string, string)> {
    if peers == [] then []
    else
      var n := |peers| - 1;
      Spared(peers[..n], sidecar, prefix) + if prefix <= ListedName(peers[n], sidecar) then [] else [Seen(peers[n])]
  }

  lemma {:induction false} FilterSpares(peers: seq<Entry>, sidecar: Records, prefix: string, keys: set<string>)
    requires forall i :: 0 <= i < |peers| ==> (peers[i].key in keys <==> prefix <= ListedName(peers[i], sidecar))
    ensures FilterKeys(Without(peers, {}), keys) == Spared(peers, sidecar, prefix)
  {
    hide ListedName;
    if peers != [] {
      var n := |peers| - 1;
      FilterSpares(peers[..n], sidecar, prefix, keys);
      FilterSnoc(Without(peers[..n], {}), Seen(peers[n]), keys);
      assert Without(peers, {}) == Without(peers[..n], {}) + [Seen(peers[n])];
    }
  }

  /** A key is named for removal exactly if a peer listed with the prefix has it. */
  lemma PrefixedKey(peers: seq<Entry>, sidecar: Records, prefix: string, key: string)
    ensures key in KeysWithPrefix(ShownAll(peers, sidecar), prefix) <==>
            exists i :: 0 <= i < |peers| && peers[i].key == key && prefix <= ListedName(peers[i], sidecar)
  {
    hide ListedName;
    var list := ShownAll(peers, sidecar);
    if i :| 0 <= i < |peers| && peers[i].key == key && prefix <= ListedName(peers[i], sidecar) {
      assert list[i] in list;
    }
  }

  lemma KeysDiffer(peers: seq<Entry>, i: nat, j: nat)
    requires DistinctKeys(Without(peers, {})) && i < |peers| && j < |peers| && peers[i].key == peers[j].key
    ensures i == j
  {
    WithoutNone(peers);
    assert Without(peers, {})[i].0 == peers[i].key && Without(peers, {})[j].0 == peers[j].key;
  }

  /** The file then holds exactly the peers whose listed name does not begin with the user's
      name and a hyphen, in their order. */
  lemma RemovedByName(s: State, a: Action, t: State, outcome: Outcome)
    requires a.RemoveUser? && a.readable && DistinctKeys(PeerList(s.conf)) && Removed(s, a, t, outcome)
    ensures outcome == Done
    ensures PeerList(t.conf) == Spared(PeersOf(s), s.sidecar, a.user + "-")
    ensures forall i :: 0 <= i < |PeersOf(s)| ==>
              (HasKey(PeerList(t.conf), PeersOf(s)[i].key) <==> !(a.user + "-" <= ListedName(PeersOf(s)[i], s.sidecar)))
  {
    hide Peers, LinesOf, ListedName, BulkRemoved, KeysWithPrefix, FilterKeys, Spared, Without;
    var peers, prefix := PeersOf(s), a.user + "-";
    var keys := KeysWithPrefix(ListedIn(s), prefix);
    BulkTheorem(s.conf, keys);
    forall i | 0 <= i < |peers| ensures peers[i].key in keys <==> prefix <= ListedName(peers[i], s.sidecar) {
      PrefixedKey(peers, s.sidecar, prefix, peers[i].key);
      if j :| 0 <= j < |peers| && peers[j].key == peers[i].key && prefix <= ListedName(peers[j], s.sidecar) {
        KeysDiffer(peers, i, j);
      }
    }
    FilterSpares(peers, s.sidecar, prefix, keys);
    forall i | 0 <= i < |peers| ensures HasKey(PeerList(t.conf), peers[i].key) <==> peers[i].key !in keys {
      WithoutNone(peers);
      assert PeerList(s.conf)[i].0 == peers[i].key;
      FilterHas(PeerList(s.conf), keys, peers[i].key);
    }
  }

  lemma FilterHas(list: seq<(string, string)>, keys: set<string>, key: string)
    ensures HasKey(FilterKeys(list, keys), key) <==> HasKey(list, key) && key !in keys
  {
    FilterMembers(list, keys);
    var f := FilterKeys(list, keys);
    if i :| 0 <= i < |f| && f[i].0 == key {
      assert f[i] in f && f[i] in list;
      var j :| 0 <= j < |list| && list[j] == f[i];
    }
    if i :| 0 <= i < |list| && list[i].0 == key && key !in keys {
      assert list[i] in f;
      var j :| 0 <= j < |f| && f[j] == list[i];
    }
  }

  lemma HasPeer(raw: string, key: string)
    ensures HasKey(PeerList(raw), key) <==> exists i :: 0 <= i < |Peers(LinesOf(raw))| && Peers(LinesOf(raw))[i].key == key
  {
    hide Peers, LinesOf;
    var peers := Peers(LinesOf(raw));
    WithoutNone(peers);
    if i :| 0 <= i < |peers| && peers[i].key == key { assert PeerList(raw)[i].0 == key; }
    if i :| 0 <= i < |PeerList(raw)| && PeerList(raw)[i].0 == key { assert peers[i].key == key; }
  }

  ghost predicate OwnedKey(s: State, prefix: string, key: string) {
    exists i :: 0 <= i < |PeersOf(s)| && PeersOf(s)[i].key == key && prefix <= ListedName(PeersOf(s)[i], s.sidecar)
  }

  /** For every config, keys repeated or not: a key stays exactly if it was there and no peer
      with it is listed under the user's prefix. */
  lemma RemovedByKey(s: State, a: Action, t: State, outcome: Outcome, key: string)
    requires a.RemoveUser? && a.readable && Removed(s, a, t, outcome)
    ensures HasKey(PeerList(t.conf), key) <==> HasKey(PeerList(s.conf), key) && !OwnedKey(s, a.user + "-", key)
  {
    hide PeersOf, PeerList, BulkRemoved, KeysWithPrefix, HasKey, FilterKeys;
    var keys := KeysWithPrefix(ListedIn(s), a.user + "-");
    BulkTheorem(s.conf, keys);
    FilterHas(PeerList(s.conf), keys, key);
    PrefixedKey(PeersOf(s), s.sidecar, a.user + "-", key);
  }

  /** A peer whose record names the user goes, for every config. */
  lemma RecordedGoes(s: State, a: Action, t: State, outcome: Outcome, key: string)
    requires a.RemoveUser? && a.readable && Removed(s, a, t, outcome)
    requires key in s.sidecar && a.user + "-" <= s.sidecar[key]
    ensures !HasKey(PeerList(t.conf), key)
  {
    hide Peers, LinesOf, BulkRemoved, KeysWithPrefix;
    var keys := KeysWithPrefix(ListedIn(s), a.user + "-");
    BulkTheorem(s.conf, keys);
    FilterHas(PeerList(s.conf), keys, key);
    HasPeer(s.conf, key);
    PrefixedKey(PeersOf(s), s.sidecar, a.user + "-", key);
  }

  // --- the record of an added device -----------------------------------------------------------

  /** The device is out of the config, or its record still names it. */
  ghost predicate TiedTo(s: State, key: string, name: string) {
    HasKey(PeerList(s.conf), key) ==> key in s.sidecar && s.sidecar[key] == name
  }

  /** No step but an add of the same key loosens the tie. */
  lemma StepKeepsTie(cfg: Config, s: State, a: Action, t: State, outcome: Outcome, key: string, name: string)
    requires PlainPrefix(cfg.prefix) && Legal(s, a) && Steps(cfg, s, a, t, outcome) && NoClash(cfg, s)
    requires TiedTo(s, key, name) && (a.Add? ==> a.key != key)
    ensures TiedTo(t, key, name)
  {
    hide PeerList, PeersOf, ListedIn, HasKey, OneRemoved, BulkRemoved, KeysWithPrefix, IsFirst, Added, FilterKeys;
    if t != s {
      match a
      case Add(_, _, _, _, _, _, _) => AddKeepsTie(cfg, s, a, t, outcome, key, name);
      case Delete(gone, _) =>
        var target :| IsFirst(ListedIn(s), gone, target) && Drops(s, a, target, t, outcome);
        OneTheorem(s.conf, target.value);
        FilterHas(PeerList(s.conf), {target.value}, key);
      case RemoveUser(user, _, _) =>
        var keys := KeysWithPrefix(ListedIn(s), user + "-");
        BulkTheorem(s.conf, keys);
        FilterHas(PeerList(s.conf), keys, key);
    }
  }

  lemma AddKeepsTie(cfg: Config, s: State, a: Action, t: State, outcome: Outcome, key: string, name: string)
    requires PlainPrefix(cfg.prefix) && a.Add? && Legal(s, a) && Added(cfg, s, a, t, outcome) && t != s
    requires TiedTo(s, key, name) && a.key != key
    ensures TiedTo(t, key, name)
  {
    hide PeerList, PeersOf, Listed, UsedOctets, HasKey, Appended;
    var device := PeerNameFor(a.user, a.tag).value;
    var octet :| Allocates(cfg, s, a, device, octet, t, outcome);
    AddExtends(cfg, s, a, device, octet.value, t);
    HasSnoc(PeerList(s.conf), (a.key, Address(cfg.prefix, octet.value) + "/32"), key);
  }

  ghost predicate NotAddedAgain(run: seq<Event>, key: string) {
    forall e :: e in run && e.action.Add? ==> e.action.key != key
  }

  lemma {:induction false} RunKeepsTie(cfg: Config, s: State, run: seq<Event>, key: string, name: string)
    requires PlainPrefix(cfg.prefix) && IsRun(cfg, s, run) && NoClash(cfg, s)
    requires TiedTo(s, key, name) && NotAddedAgain(run, key)
    ensures TiedTo(Final(s, run), key, name)
    decreases |run|
  {
    hide NoClash, Legal, Steps, TiedTo;
    if run != [] {
      assert run[0] in run;
      StepKeepsTie(cfg, s, run[0].action, run[0].after, run[0].outcome, key, name);
      StepKeepsApart(cfg, s, run[0].action, run[0].after, run[0].outcome);
      RunKeepsTie(cfg, run[0].after, run[1..], key, name);
    }
  }

  /** A deleted user's devices lose access: after a recorded add for the user, whatever the
      handlers do in between, with any sidecar failures, a bulk removal of that user leaves no
      peer with the added key. */
  lemma RemoveReachesAdded(cfg: Config, s: State, add: Action, mid: State, run: seq<Event>, remove: Action, t: State, outcome: Outcome)
    requires PlainPrefix(cfg.prefix) && NoClash(cfg, s)
    requires add.Add? && add.side.Works? && Legal(s, add) && Steps(cfg, s, add, mid, Done)
    requires IsRun(cfg, mid, run) && NotAddedAgain(run, add.key)
    requires remove.RemoveUser? && remove.user == add.user && remove.readable && Steps(cfg, Final(mid, run), remove, t, outcome)
    ensures !HasKey(PeerList(t.conf), add.key)
  {
    hide PeerList, PeersOf, NoClash, Legal, IsRun, BulkRemoved, KeysWithPrefix, Listed, Final, ListedIn, LowestFree;
    var name := PeerNameFor(add.user, add.tag).value;
    StepKeepsApart(cfg, s, add, mid, Done);
    assert add.key in mid.sidecar && mid.sidecar[add.key] == name;
    RunKeepsTie(cfg, mid, run, add.key, name);
    var before := Final(mid, run);
    assert name == (add.user + "-") + add.tag && add.user + "-" <= name;
    if HasKey(PeerList(before.conf), add.key) {
      RecordedGoes(before, remove, t, outcome, add.key);
    } else {
      var keys := KeysWithPrefix(ListedIn(before), remove.user + "-");
      BulkTheorem(before.conf, keys);
      FilterHas(PeerList(before.conf), keys, add.key);
    }
  }

  // --- a single removal -------------------------------------------------------------------------

  /** A block without a key is listed under the name. */
  ghost predicate KeylessNamed(s: State, name: string) {
    exists j :: 0 <= j < |PeersOf(s)| && PeersOf(s)[j].key == "" && ListedName(PeersOf(s)[j], s.sidecar) == name
  }

  ghost predicate NamedIn(s: State, name: string) {
    exists i :: 0 <= i < |PeersOf(s)| && ListedName(PeersOf(s)[i], s.sidecar) == name
  }

  /** The config loses the `i`th peer, which was listed under the name with the least address,
      and nothing else. */
  ghost predicate Loses(s: State, name: string, t: State, i: nat) {
    && FirstNamed(s, name, i)
    && i < |PeerList(s.conf)| && PeerList(t.conf) == PeerList(s.conf)[..i] + PeerList(s.conf)[i + 1..]
  }

  function ListedAddress(e: Entry): string { Split(TrimSpace(e.allowed), '/')[0] }

  ghost predicate FirstNamed(s: State, name: string, i: nat) {
    && i < |PeersOf(s)| && ListedName(PeersOf(s)[i], s.sidecar) == name
    && forall j :: 0 <= j < |PeersOf(s)| && ListedName(PeersOf(s)[j], s.sidecar) == name ==>
         Leq(ListedAddress(PeersOf(s)[i]), ListedAddress(PeersOf(s)[j]))
  }

  ghost predicate OneNamedGoes(s: State, name: string, t: State) { exists i: nat :: Loses(s, name, t, i) }

  /** A delete that is done takes exactly one peer, of those listed under the name asked for the
      one with the least address; one that finds nothing had no such peer, or one without a key. */
  lemma DeletedByName(cfg: Config, s: State, a: Action, t: State, outcome: Outcome)
    requires a.Delete? && !a.side.Unreadable? && DistinctKeys(PeerList(s.conf)) && Deleted(s, a, t, outcome)
    ensures outcome == Done ==> OneNamedGoes(s, a.name, t)
    ensures outcome != Done ==> t == s && outcome == NotFound && (NamedIn(s, a.name) ==> KeylessNamed(s, a.name))
  {
    hide PeersOf, PeerList, ListedIn, ListedName, OneRemoved, IsFirst, KeylessNamed, NamedIn, FirstNamed;
    var target :| IsFirst(ListedIn(s), a.name, target) && Drops(s, a, target, t, outcome);
    if outcome == Done {
      var i := FirstOne(s, a.name, target);
      OneTheorem(s.conf, target.value);
      FilterOne(PeerList(s.conf), i);
      assert Loses(s, a.name, t, i);
    } else {
      NoneFirst(s, a.name, target);
    }
  }

  /** The position of the peer found. */
  lemma FirstOne(s: State, name: string, target: Option<string>) returns (i: nat)
    requires IsFirst(ListedIn(s), name, target) && target.Some?
    ensures FirstNamed(s, name, i)
    ensures i < |PeerList(s.conf)| && PeerList(s.conf)[i].0 == target.value
  {
    hide Peers, LinesOf, ListedName, Leq, Split, TrimSpace;
    var p :| p in ListedIn(s) && p.name == name && p.key == target.value
             && forall q :: q in ListedIn(s) && q.name == name ==> Leq(p.ip, q.ip);
    i :| 0 <= i < |ListedIn(s)| && ListedIn(s)[i] == p;
    forall j | 0 <= j < |PeersOf(s)| && ListedName(PeersOf(s)[j], s.sidecar) == name
      ensures Leq(ListedAddress(PeersOf(s)[i]), ListedAddress(PeersOf(s)[j]))
    {
      var q := ListedIn(s)[j];
      assert q in ListedIn(s) && q.name == name && q.ip == ListedAddress(PeersOf(s)[j]);
    }
    WithoutNone(PeersOf(s));
  }

  lemma NoneFirst(s: State, name: string, target: Option<string>)
    requires IsFirst(ListedIn(s), name, target) && (target.None? || target.value == "")
    ensures NamedIn(s, name) ==> KeylessNamed(s, name)
  {
    hide Peers, LinesOf, ListedName;
    if target.None? {
      forall i | 0 <= i < |PeersOf(s)| ensures ListedName(PeersOf(s)[i], s.sidecar) != name {
        assert ListedIn(s)[i] in ListedIn(s);
      }
    } else {
      var p :| p in ListedIn(s) && p.name == name && p.key == "";
      var i :| 0 <= i < |ListedIn(s)| && ListedIn(s)[i] == p;
      assert PeersOf(s)[i].key == "";
    }
  }

  lemma {:induction false} FilterOne(list: seq<(string, string)>, i: nat)
    requires DistinctKeys(list) && i < |list|
    ensures FilterKeys(list, {list[i].0}) == list[..i] + list[i + 1..]
    decreases |list|
  {
    var n := |list| - 1;
    if i == n {
      FilterNone(list[..n], {list[i].0});
      assert list[..n] + [] == list[..i] + list[i + 1..];
    } else {
      FilterOne(list[..n], i);
      assert list[..n][..i] == list[..i];
      assert list[i + 1..] == list[..n][i + 1..] + [list[n]];
    }
  }

  // --- records and peers in step -----------------------------------------------------------------

  /** The sidecar records exactly the keys of the config. */
  ghost predicate InStep(s: State) {
    forall key :: key in s.sidecar <==> HasKey(PeerList(s.conf), key)
  }

  /** Every write the request makes to the sidecar reaches the disk. */
  ghost predicate Flushes(s: State, a: Action) {
    match a
    case Add(_, _, _, _, _, _, side) => side.Works?
    case Delete(_, side) => !side.WriteFails?
    case RemoveUser(_, _, flushed) => forall key :: HasKey(PeerList(s.conf), key) ==> key in flushed
  }

  lemma StepKeepsStep(cfg: Config, s: State, a: Action, t: State, outcome: Outcome)
    requires PlainPrefix(cfg.prefix) && Legal(s, a) && Steps(cfg, s, a, t, outcome) && NoClash(cfg, s)
    requires InStep(s) && Flushes(s, a)
    ensures InStep(t)
  {
    hide PeerList, PeersOf, ListedIn, HasKey, OneRemoved, BulkRemoved, KeysWithPrefix, IsFirst, Added, FilterKeys;
    if t != s {
      match a
      case Add(_, _, _, _, _, _, _) => AddKeepsStep(cfg, s, a, t, outcome);
      case Delete(gone, _) =>
        var target :| IsFirst(ListedIn(s), gone, target) && Drops(s, a, target, t, outcome);
        OneTheorem(s.conf, target.value);
        forall key { FilterHas(PeerList(s.conf), {target.value}, key); }
      case RemoveUser(user, _, _) =>
        var keys := KeysWithPrefix(ListedIn(s), user + "-");
        BulkTheorem(s.conf, keys);
        forall key { FilterHas(PeerList(s.conf), keys, key); }
    }
  }

  lemma AddKeepsStep(cfg: Config, s: State, a: Action, t: State, outcome: Outcome)
    requires PlainPrefix(cfg.prefix) && Legal(s, a) && a.Add? && Added(cfg, s, a, t, outcome) && t != s
    requires InStep(s) && Flushes(s, a)
    ensures InStep(t)
  {
    hide PeerList, PeersOf, Listed, UsedOctets, HasKey, Appended;
    var name := PeerNameFor(a.user, a.tag).value;
    var octet :| Allocates(cfg, s, a, name, octet, t, outcome);
    AddExtends(cfg, s, a, name, octet.value, t);
    forall key ensures HasKey(PeerList(t.conf), key) <==> HasKey(PeerList(s.conf), key) || key == a.key {
      HasSnoc(PeerList(s.conf), (a.key, Address(cfg.prefix, octet.value) + "/32"), key);
    }
  }

  lemma HasSnoc(list: seq<(string, string)>, x: (string, string), key: string)
    ensures HasKey(list + [x], key) <==> HasKey(list, key) || key == x.0
  {
    if HasKey(list, key) {
      var i :| 0 <= i < |list| && list[i].0 == key;
      assert (list + [x])[i].0 == key;
    }
    if key == x.0 { assert (list + [x])[|list|].0 == key; }
  }

  ghost predicate AllFlush(s: State, run: seq<Event>)
    decreases |run|
  {
    run != [] ==> Flushes(s, run[0].action) && AllFlush(run[0].after, run[1..])
  }

  /** While the sidecar's writes succeed, over every run it records exactly the keys of the
      config: no device without a record, no record without a device. */
  lemma {:induction false} RunKeepsStep(cfg: Config, s: State, run: seq<Event>)
    requires PlainPrefix(cfg.prefix) && IsRun(cfg, s, run) && NoClash(cfg, s)
    requires InStep(s) && AllFlush(s, run)
    ensures InStep(Final(s, run))
    decreases |run|
  {
    hide NoClash, Legal, Steps, InStep, Flushes;
    if run != [] {
      StepKeepsStep(cfg, s, run[0].action, run[0].after, run[0].outcome);
      StepKeepsApart(cfg, s, run[0].action, run[0].after, run[0].outcome);
      RunKeepsStep(cfg, run[0].after, run[1..]);
    }
  }

  // --- whose devices go -------------------------------------------------------------------------

  /** A removal of a user takes a recorded device of another exactly if a hyphen makes one name
      begin like the other; user names without hyphens lose nobody else's device. */
  lemma RemovedOwners(s: State, a: Action, t: State, outcome: Outcome, key: string, owner: string, tag: string)
    requires a.RemoveUser? && a.readable && Removed(s, a, t, outcome) && DistinctKeys(PeerList(s.conf))
    requires HasKey(PeerList(s.conf), key) && PeerNameFor(owner, tag).Some?
    requires key in s.sidecar && s.sidecar[key] == PeerNameFor(owner, tag).value
    ensures !HasKey(PeerList(t.conf), key) <==>
      || a.user == owner
      || a.user + "-" <= owner
      || (owner + "-" <= a.user && a.user[|owner| + 1..] + "-" <= tag)
    ensures Free(a.user, '-') && Free(owner, '-') ==> (!HasKey(PeerList(t.conf), key) <==> a.user == owner)
  {
    hide PeerList, PeersOf, Removed;
    HasPeer(s.conf, key);
    PeersAre(s);
    var i :| 0 <= i < |PeersOf(s)| && PeersOf(s)[i].key == key;
    RemovedByName(s, a, t, outcome);
    PrefixTakes(a.user, owner, tag);
    assert (a.user + "-")[|a.user|] == '-' == (owner + "-")[|owner|];
  }

  lemma PeersAre(s: State)
    ensures PeersOf(s) == Peers(LinesOf(s.conf))
  {
  }

  // --- the address listed ----------------------------------------------------------------------

  /** A device added by the handler is listed with the address it was given. */
  lemma AddedAddress(prefix: string, o: nat, e: Entry, sidecar: Records)
    requires PlainPrefix(prefix) && e.allowed == Address(prefix, o) + "/32"
    ensures ShownBy(e, sidecar).ip == Address(prefix, o) && ShownBy(e, sidecar).key == e.key
  {
    hide ListedName, Decimal;
    var ip := Address(prefix, o);
    assert e.allowed[0] == prefix[0] && e.allowed[|e.allowed| - 1] == '2';
    TrimKeeps(e.allowed, IsSpace);
    assert Free(ip, '/') by { assert !IsDigit('/'); }
    assert e.allowed == ip + ['/'] + "32";
    SplitField(ip, "32", '/');
  }

  // --- when an add succeeds -----------------------------------------------------------------------

  ghost predicate NameFree(s: State, name: string) {
    forall i :: 0 <= i < |PeersOf(s)| ==> ListedName(PeersOf(s)[i], s.sidecar) != name
  }

  lemma NameFreeIff(s: State, name: string)
    ensures NameFree(s, name) <==> !HasName(ListedIn(s), name)
  {
    hide PeersOf, ListedName;
    if p :| p in ListedIn(s) && p.name == name {
      var i :| 0 <= i < |ListedIn(s)| && ListedIn(s)[i] == p;
      assert ListedName(PeersOf(s)[i], s.sidecar) == name;
    }
    forall i | 0 <= i < |PeersOf(s)| ensures ListedIn(s)[i] in ListedIn(s) && ListedIn(s)[i].name == ListedName(PeersOf(s)[i], s.sidecar) {}
  }

  /** What an add needs: valid names, a known user, a sidecar that opens or a config without a
      peer, a name no listed device has, and a free octet up to 254. It succeeds exactly then;
      otherwise nothing changes. */
  lemma AddSucceedsIff(cfg: Config, s: State, a: Action, t: State, outcome: Outcome)
    requires a.Add? && Added(cfg, s, a, t, outcome)
    ensures outcome == Done <==>
      && ValidUsername(a.user) && ValidDeviceTag(a.tag) && a.userExists
      && (a.side.Unreadable? ==> PeersOf(s) == [])
      && NameFree(s, a.user + "-" + a.tag)
      && exists o :: cfg.start <= o <= 254 && o !in UsedOctets(PeerList(s.conf), cfg.prefix)
    ensures outcome != Done ==> t == s
  {
    hide PeersOf, PeerList, HasName, NameFree, ListedIn, Listed, Appended, Device, LowestFree,
         ValidUsername, ValidDeviceTag;
    NameFreeIff(s, a.user + "-" + a.tag);
    Listing(s, a);
    if PeerNameFor(a.user, a.tag).Some? && a.userExists && Listed(PeersOf(s), Opened(s.sidecar, a.side)).Some?
      && NameFree(s, a.user + "-" + a.tag)
    {
      var octet :| Allocates(cfg, s, a, a.user + "-" + a.tag, octet, t, outcome);
      RoomIff(UsedOctets(PeerList(s.conf), cfg.prefix), cfg.start, octet);
      assert octet.Some? ==> octet.value !in UsedOctets(PeerList(s.conf), cfg.prefix);
    }
  }

  lemma Listing(s: State, a: Action)
    requires a.Add?
    ensures var list := Listed(PeersOf(s), Opened(s.sidecar, a.side));
      && (list.Some? <==> !(a.side.Unreadable? && PeersOf(s) != []))
      && (list.Some? ==> list.value == ListedIn(s))
  {
    hide PeersOf, ShownBy;
    if a.side.Unreadable? {
      ListedPanics(PeersOf(s));
    } else {
      ListedAll(PeersOf(s), s.sidecar);
    }
  }

  /** The block written says who added which device when. */
  lemma AddedCommentReads(cfg: Config, s: State, a: Action, t: State, other: string -> Option<Rfc3339.Instant>)
    requires PlainPrefix(cfg.prefix) && a.Add? && Legal(s, a) && Added(cfg, s, a, t, Done)
    requires Ink(a.actor) && |a.actor| <= 256
    ensures |PeersOf(t)| == |PeersOf(s)| + 1
    ensures var e := PeersOf(t)[|PeersOf(s)|];
      && e.key == a.key
      && ParsePeerComment(e.comment, other) == (a.user + "-" + a.tag, a.actor, Some(Rfc3339.ToSecond(a.now)))
  {
    hide PeerList, UsedOctets, Appended, LinesOf, Peers, Listed, HasName, ParsePeerComment, CommentLine;
    var name := PeerNameFor(a.user, a.tag).value;
    var octet :| Allocates(cfg, s, a, name, octet, t, Done);
    var p := Device(cfg, a, name, octet.value);
    AddressPrintable(cfg.prefix, octet.value);
    AppendTheorem(s.conf, p);
    DeviceNameInk(a.user, a.tag);
    CommentRoundTrip(p, other);
  }
}
