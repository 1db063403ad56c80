/** The names devices are listed under, over whole runs of the handlers: when two peers never
    come to be listed under one. */
module PeerNaming {
  import opened Wrappers
  import opened Text
  import opened ConfLines
  import opened PeerConf
  import opened PeerEdit
  import opened PeerLaws
  import opened PeerComment
  import opened PeerListing
  import opened PeerTidy
  import opened PeerOctets
  import opened PeerNames
  import opened PeerServer

  /** No two peers are listed under one name; any number may have none. */
  ghost predicate DistinctListed(s: State) { DistinctNames(PeersOf(s), s.sidecar) }

  // --- adding -----------------------------------------------------------------------------------

  /** An add is recorded, or at least no old record has the new key. */
  predicate Unmistaken(s: State, a: Action) { a.Add? && !a.side.Works? ==> a.key !in s.sidecar }

  /** A name made of a user and a tag fits in a comment, as one word. */
  lemma DeviceNameInk(user: string, tag: string)
    requires PeerNameFor(user, tag).Some?
    ensures var name := PeerNameFor(user, tag).value; Ink(name) && |name| <= 256 && Free(name, '(')
  {
    var name := PeerNameFor(user, tag).value;
    forall i | 0 <= i < |name| ensures IsInk(name[i]) && name[i] != '(' {
      if i < |user| {
        assert IsUserChar(name[i]);
      } else if i > |user| {
        assert name[i] == tag[i - |user| - 1] && IsTagChar(name[i]);
      }
    }
  }

  /** The new peer is listed under its own name or none. */
  lemma NewPeerName(p: NewPeer, e: Entry, sidecar: Records)
    requires e.key == p.key && e.comment == CommentLine(p)
    requires Ink(p.name) && |p.name| <= 256 && Free(p.name, '(')
    ensures p.key !in sidecar ==> ListedName(e, sidecar) in {p.name, UNMANAGED}
    ensures ListedName(e, sidecar[p.key := p.name]) == p.name
  {
    hide MatchComment, CommentLine;
    OwnName(p);
  }

  lemma NewPeerListed(s: State, a: Action, p: NewPeer, e: Entry, t: State)
    requires a.Add? && p.key == a.key && e.key == p.key && e.comment == CommentLine(p) && Unmistaken(s, a)
    requires Ink(p.name) && |p.name| <= 256 && Free(p.name, '(')
    requires t.sidecar == if a.side.Works? then s.sidecar[a.key := p.name] else s.sidecar
    ensures ListedName(e, t.sidecar) in {p.name, UNMANAGED}
  {
    hide ListedName, CommentLine;
    NewPeerName(p, e, s.sidecar);
  }

  /** The other peers keep their listed names, which are not the new one. */
  lemma OldPeersListed(s: State, a: Action, name: string, t: State, j: nat)
    requires a.Add? && Legal(s, a) && j < |PeersOf(s)| && |PeersOf(t)| > j && SameButEnd(PeersOf(s)[j], PeersOf(t)[j])
    requires t.sidecar == if a.side.Works? then s.sidecar[a.key := name] else s.sidecar
    requires !HasName(ListedIn(s), name)
    ensures ListedName(PeersOf(t)[j], t.sidecar) == ListedName(PeersOf(s)[j], s.sidecar) != name
  {
    hide LinesOf, Peers, ListedName;
    NotThatKey(s, a, j);
    SameName(PeersOf(s)[j], PeersOf(t)[j], s.sidecar, a.key, name);
    assert ListedIn(s)[j] == ShownBy(PeersOf(s)[j], s.sidecar) && ListedIn(s)[j] in ListedIn(s);
  }

  /** What a successful add met. */
  lemma AddMet(cfg: Config, s: State, a: Action, t: State, outcome: Outcome) returns (o: nat)
    requires a.Add? && Added(cfg, s, a, t, outcome) && t != s
    ensures PeerNameFor(a.user, a.tag).Some?
    ensures var name := PeerNameFor(a.user, a.tag).value;
      && Allocates(cfg, s, a, name, Some(o), t, Done)
      && !HasName(ListedIn(s), name)
  {
    hide LinesOf, Peers, Appended, ShownBy, Show;
    var name := PeerNameFor(a.user, a.tag).value;
    var octet :| Allocates(cfg, s, a, name, octet, t, outcome);
    o := octet.value;
    if a.side.Unreadable? {
      ListedPanics(PeersOf(s));
      assert ListedIn(s) == [];
    } else {
      ListedAll(PeersOf(s), s.sidecar);
    }
  }

  /** An add keeps all listed names apart, those of peers known only by their comment included,
      whatever becomes of its sidecar record. */
  lemma AddKeepsListed(cfg: Config, s: State, a: Action, t: State, outcome: Outcome)
    requires PlainPrefix(cfg.prefix) && a.Add? && Legal(s, a) && Unmistaken(s, a)
    requires Added(cfg, s, a, t, outcome) && DistinctListed(s)
    ensures DistinctListed(t)
  {
    hide Added, PeerList, UsedOctets, Appended, LinesOf, Peers, ListedName, ListedIn, Legal;
    if t != s {
      var o := AddMet(cfg, s, a, t, outcome);
      var name := PeerNameFor(a.user, a.tag).value;
      var p := Device(cfg, a, name, o);
      AddressPrintable(cfg.prefix, o);
      NewKeyPrintable(s, a);
      AppendTheorem(s.conf, p);
      DeviceNameInk(a.user, a.tag);
      var was, now := PeersOf(s), PeersOf(t);
      forall j | 0 <= j < |was|
        ensures ListedName(now[j], t.sidecar) == ListedName(was[j], s.sidecar) != name
      {
        assert SameButEnd(was[j], now[j]);
        OldPeersListed(s, a, name, t, j);
      }
      NewPeerListed(s, a, p, now[|was|], t);
    }
  }

  lemma NewKeyPrintable(s: State, a: Action)
    requires a.Add? && Legal(s, a)
    ensures Printable(a.key)
  {
  }

  lemma NotThatKey(s: State, a: Action, j: nat)
    requires a.Add? && Legal(s, a) && j < |PeersOf(s)|
    ensures PeersOf(s)[j].key != a.key
  {
    hide LinesOf, Peers;
    WithoutNone(PeersOf(s));
  }

  // --- removing -----------------------------------------------------------------------------------

  /** What a removal cuts, for a first peer chosen among those with one address. */
  function Gone(s: State, a: Action, target: Option<string>): set<nat>
    requires !a.Add?
  {
    match a
    case Delete(_, _) =>
      if target.None? || target.value == "" then {} else {FirstWithKey(PeersOf(s), target.value)}
    case RemoveUser(user, _, _) => WithKeys(PeersOf(s), KeysWithPrefix(ListedIn(s), user + "-"))
  }

  /** The names of the peers a removal leaves will differ. */
  ghost predicate NamesWillDiffer(s: State, gone: set<nat>) {
    DistinctAfter(LinesOf(s.conf), Marks(LinesOf(s.conf), gone), gone, s.sidecar)
  }

  /** After a cut the listed names differ exactly if the file told so before: each peer that
      stays will have its record's name or, failing that, the name in the last line kept
      before its header, if that is a comment. */
  lemma CutNamesIff(s: State, gone: set<nat>, t: State)
    requires t.conf == Cut(s.conf, gone) && RecordsStay(PeersOf(s), gone, s.sidecar, t.sidecar)
    ensures DistinctListed(t) <==> NamesWillDiffer(s, gone)
  {
    hide Cut, LinesOf, Peers, RecordsStay, DistinctNames, DistinctAfter, AllStay;
    CutTheorem(s.conf, gone);
    NamesStay(LinesOf(s.conf), Marks(LinesOf(s.conf), gone), gone, PeersOf(t), s.sidecar, t.sidecar);
  }

  /** Every peer a removal leaves has a sidecar record, or keeps the block before it, or finds
      a line above its header that names nobody. */
  ghost predicate Guarded(s: State, gone: set<nat>) {
    NamesSafe(LinesOf(s.conf), Marks(LinesOf(s.conf), gone), gone, s.sidecar)
  }

  lemma SafeWillDiffer(s: State, gone: set<nat>)
    requires DistinctListed(s) && Guarded(s, gone)
    ensures NamesWillDiffer(s, gone)
  {
    hide LinesOf, Peers, NamesSafe, DistinctNames, DistinctAfter;
    AllClassified(s.conf);
    SafeStay(LinesOf(s.conf), Marks(LinesOf(s.conf), gone), gone, s.sidecar);
  }

  /** The guard of a step: for a delete, whichever of the first peers by address it takes. */
  ghost predicate Spares(s: State, a: Action) {
    if a.Add? then Unmistaken(s, a)
    else if a.RemoveUser? then Guarded(s, Gone(s, a, None))
    else forall target :: IsFirst(ListedIn(s), a.name, target) ==> Guarded(s, Gone(s, a, target))
  }

  lemma DeleteKeepsListed(s: State, a: Action, t: State, outcome: Outcome)
    requires a.Delete? && Deleted(s, a, t, outcome) && Spares(s, a)
    requires DistinctKeys(PeerList(s.conf)) && DistinctListed(s)
    ensures DistinctListed(t)
  {
    hide Cut, LinesOf, Peers, NamesWillDiffer, Guarded, DistinctListed, IsFirst, DistinctKeys;
    if t != s {
      var target :| IsFirst(ListedIn(s), a.name, target) && Drops(s, a, target, t, outcome);
      ListedKey(s, a.name, target.value);
      var j := FirstWithKey(PeersOf(s), target.value);
      OthersKeys(s, j);
      SafeWillDiffer(s, {j});
      CutNamesIff(s, {j}, t);
    }
  }

  /** With distinct keys no other peer has the key of the one removed. */
  lemma OthersKeys(s: State, j: nat)
    requires DistinctKeys(PeerList(s.conf)) && j < |PeersOf(s)|
    ensures forall i :: 0 <= i < |PeersOf(s)| && i != j ==> PeersOf(s)[i].key != PeersOf(s)[j].key
  {
    hide LinesOf, Peers;
    WithoutNone(PeersOf(s));
    forall i | 0 <= i < |PeersOf(s)| && i != j ensures PeersOf(s)[i].key != PeersOf(s)[j].key {
      assert PeerList(s.conf)[i].0 == PeersOf(s)[i].key && PeerList(s.conf)[j].0 == PeersOf(s)[j].key;
    }
  }

  lemma RemoveKeepsListed(s: State, a: Action, t: State, outcome: Outcome)
    requires a.RemoveUser? && Removed(s, a, t, outcome) && Spares(s, a) && DistinctListed(s)
    ensures DistinctListed(t)
  {
    hide Cut, LinesOf, Peers, NamesWillDiffer, Guarded, KeysWithPrefix, ListedIn, DistinctNames;
    var keys := KeysWithPrefix(ListedIn(s), a.user + "-");
    if a.readable && keys != {} {
      SafeWillDiffer(s, WithKeys(PeersOf(s), keys));
      CutNamesIff(s, WithKeys(PeersOf(s), keys), t);
    } else if a.readable {
      assert t.sidecar == s.sidecar - {} == s.sidecar;
    }
  }

  /** A guarded step keeps the listed names apart. */
  lemma StepKeepsNames(cfg: Config, s: State, a: Action, t: State, outcome: Outcome)
    requires PlainPrefix(cfg.prefix) && Legal(s, a) && Steps(cfg, s, a, t, outcome) && Spares(s, a)
    requires DistinctKeys(PeerList(s.conf)) && DistinctListed(s)
    ensures DistinctListed(t)
  {
    hide Added, Deleted, Removed, Guarded, DistinctListed, PeerList;
    match a
    case Add(_, _, _, _, _, _, _) => AddKeepsListed(cfg, s, a, t, outcome);
    case Delete(_, _) => DeleteKeepsListed(s, a, t, outcome);
    case RemoveUser(_, _, _) => RemoveKeepsListed(s, a, t, outcome);
  }

  /** Every step of the run is guarded. */
  ghost predicate Sparing(s: State, run: seq<Event>)
    decreases |run|
  {
    run != [] ==> Spares(s, run[0].action) && Sparing(run[0].after, run[1..])
  }

  /** Over every such run no two peers are ever listed under one name. */
  lemma {:induction false} RunKeepsNames(cfg: Config, s: State, run: seq<Event>)
    requires PlainPrefix(cfg.prefix) && IsRun(cfg, s, run) && Sparing(s, run)
    requires NoClash(cfg, s) && DistinctListed(s)
    ensures DistinctListed(Final(s, run))
    decreases |run|
  {
    hide PeerList, DistinctListed, Legal, Steps, DistinctOctets, Spares;
    if run != [] {
      StepKeepsNames(cfg, s, run[0].action, run[0].after, run[0].outcome);
      StepKeepsApart(cfg, s, run[0].action, run[0].after, run[0].outcome);
      RunKeepsNames(cfg, run[0].after, run[1..]);
    }
  }

  // --- configs with a record for every peer ----------------------------------------------------------

  ghost predicate AllRecorded(s: State) {
    forall i :: 0 <= i < |PeerList(s.conf)| ==> PeerList(s.conf)[i].0 in s.sidecar
  }

  lemma RecordedGuarded(s: State, gone: set<nat>)
    requires AllRecorded(s)
    ensures Guarded(s, gone)
  {
    hide LinesOf, Peers, Exposed, Nameless, Heir;
    WithoutNone(PeersOf(s));
    forall j | 0 <= j < |PeersOf(s)| ensures PeersOf(s)[j].key in s.sidecar {
      assert PeerList(s.conf)[j].0 == PeersOf(s)[j].key;
    }
  }

  lemma RecordedSpares(s: State, a: Action)
    requires AllRecorded(s) && Unmistaken(s, a)
    ensures Spares(s, a)
  {
    hide AllRecorded, Guarded, IsFirst, Gone, ListedIn, Unmistaken;
    forall gone ensures Guarded(s, gone) { RecordedGuarded(s, gone); }
  }

  lemma StepKeepsRecorded(cfg: Config, s: State, a: Action, t: State, outcome: Outcome)
    requires PlainPrefix(cfg.prefix) && Legal(s, a) && Steps(cfg, s, a, t, outcome)
    requires AllRecorded(s) && DistinctKeys(PeerList(s.conf)) && (a.Add? ==> a.side.Works?)
    ensures AllRecorded(t)
  {
    hide PeerList, UsedOctets, ListedIn, Listed, Appended, PeersOf, OneRemoved, BulkRemoved, KeysWithPrefix, IsFirst;
    if t != s {
      match a
      case Add(_, _, _, _, _, _, _) =>
        var octet :| Allocates(cfg, s, a, PeerNameFor(a.user, a.tag).value, octet, t, outcome);
        AddExtends(cfg, s, a, PeerNameFor(a.user, a.tag).value, octet.value, t);
      case Delete(name, _) =>
        var target :| IsFirst(ListedIn(s), name, target) && Drops(s, a, target, t, outcome);
        OneTheorem(s.conf, target.value);
        RecordsFiltered(PeerList(s.conf), {target.value}, s.sidecar, t.sidecar);
      case RemoveUser(user, _, _) =>
        var keys := KeysWithPrefix(ListedIn(s), user + "-");
        BulkTheorem(s.conf, keys);
        RecordsFiltered(PeerList(s.conf), keys, s.sidecar, t.sidecar);
    }
  }

  lemma RecordsFiltered(list: seq<(string, string)>, keys: set<string>, was: Records, now: Records)
    requires forall i :: 0 <= i < |list| ==> list[i].0 in was
    requires forall k :: k in was && k !in keys ==> k in now
    ensures forall i :: 0 <= i < |FilterKeys(list, keys)| ==> FilterKeys(list, keys)[i].0 in now
  {
    FilterMembers(list, keys);
    forall i | 0 <= i < |FilterKeys(list, keys)| ensures FilterKeys(list, keys)[i].0 in now {
      assert FilterKeys(list, keys)[i] in list;
    }
  }

  lemma {:induction false} RecordedRunSpares(cfg: Config, s: State, run: seq<Event>)
    requires PlainPrefix(cfg.prefix) && IsRun(cfg, s, run) && NoClash(cfg, s) && AllRecorded(s)
    requires forall e :: e in run && e.action.Add? ==> e.action.side.Works?
    ensures Sparing(s, run)
    decreases |run|
  {
    hide PeerList, AllRecorded, Legal, Steps, DistinctOctets, Spares;
    if run != [] {
      assert run[0] in run;
      RecordedSpares(s, run[0].action);
      StepKeepsRecorded(cfg, s, run[0].action, run[0].after, run[0].outcome);
      StepKeepsApart(cfg, s, run[0].action, run[0].after, run[0].outcome);
      RecordedRunSpares(cfg, run[0].after, run[1..]);
    }
  }

  /** From a config with a record for every peer, every run whose adds are recorded keeps the
      listed names apart. */
  lemma RecordedRunKeepsNames(cfg: Config, s: State, run: seq<Event>)
    requires PlainPrefix(cfg.prefix) && IsRun(cfg, s, run) && NoClash(cfg, s)
    requires AllRecorded(s) && DistinctListed(s)
    requires forall e :: e in run && e.action.Add? ==> e.action.side.Works?
    ensures DistinctListed(Final(s, run))
  {
    hide *;
    RecordedRunSpares(cfg, s, run);
    RunKeepsNames(cfg, s, run);
  }

  // --- tidy configs -------------------------------------------------------------------------------------

  lemma TidyGuarded(s: State, gone: set<nat>)
    requires Tidy(s.conf)
    ensures Guarded(s, gone)
  {
    hide LinesOf, TidyLines, NamesMarked, Classified, MarksBlocks, NamesSafe;
    var lines := LinesOf(s.conf);
    AllClassified(s.conf);
    AllMarked(s.conf);
    TidyIsSafe(lines, Marks(lines, gone), gone, s.sidecar);
  }

  lemma TidySpares(s: State, a: Action)
    requires Tidy(s.conf) && Unmistaken(s, a)
    ensures Spares(s, a)
  {
    hide Tidy, Guarded, IsFirst, Gone, ListedIn, Unmistaken;
    forall gone ensures Guarded(s, gone) { TidyGuarded(s, gone); }
  }

  lemma StepKeepsTidy(cfg: Config, s: State, a: Action, t: State, outcome: Outcome)
    requires PlainPrefix(cfg.prefix) && Legal(s, a) && Steps(cfg, s, a, t, outcome) && Tidy(s.conf)
    ensures Tidy(t.conf)
  {
    hide Tidy, Appended, Cut, LinesOf, Peers, Listed, ListedIn, IsFirst, KeysWithPrefix, UsedOctets, PeerList;
    if t != s {
      match a
      case Add(_, _, _, _, _, _, _) =>
        var octet :| Allocates(cfg, s, a, PeerNameFor(a.user, a.tag).value, octet, t, outcome);
        AddressPrintable(cfg.prefix, octet.value);
        AppendKeepsTidy(s.conf, Device(cfg, a, PeerNameFor(a.user, a.tag).value, octet.value));
      case Delete(name, _) =>
        var target :| IsFirst(ListedIn(s), name, target) && Drops(s, a, target, t, outcome);
        CutKeepsTidy(s.conf, {FirstWithKey(PeersOf(s), target.value)});
      case RemoveUser(user, _, _) =>
        CutKeepsTidy(s.conf, WithKeys(PeersOf(s), KeysWithPrefix(ListedIn(s), user + "-")));
    }
  }

  /** No key drawn for an add is one an old record has, unless the add is recorded. */
  ghost predicate NoStaleKeys(s: State, run: seq<Event>)
    decreases |run|
  {
    run != [] ==> Unmistaken(s, run[0].action) && NoStaleKeys(run[0].after, run[1..])
  }

  /** From a tidy config, every run of adds, deletes and user removals, with any sidecar
      failures, keeps the listed names apart, and the config tidy. */
  lemma {:induction false} TidyRunKeepsNames(cfg: Config, s: State, run: seq<Event>)
    requires PlainPrefix(cfg.prefix) && IsRun(cfg, s, run) && NoStaleKeys(s, run)
    requires NoClash(cfg, s) && Tidy(s.conf) && DistinctListed(s)
    ensures DistinctListed(Final(s, run)) && Tidy(Final(s, run).conf)
    decreases |run|
  {
    hide PeerList, DistinctListed, Legal, Steps, DistinctOctets, Spares, Tidy, Unmistaken;
    if run != [] {
      var a, t := run[0].action, run[0].after;
      TidySpares(s, a);
      StepKeepsNames(cfg, s, a, t, run[0].outcome);
      StepKeepsApart(cfg, s, a, t, run[0].outcome);
      StepKeepsTidy(cfg, s, a, t, run[0].outcome);
      TidyRunKeepsNames(cfg, t, run[1..]);
    }
  }
}
