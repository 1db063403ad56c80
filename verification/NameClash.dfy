/** A config without sidecar records that is not tidy: above the comment of one peer stands
    another comment, with the name of a second. Deleting the peer leaves that comment to a
    third, and two peers are listed under one name. */
module NameClash {
  import opened Wrappers
  import opened Text
  import opened ConfLines
  import opened PeerConf
  import opened PeerEdit
  import opened PeerLaws
  import opened PeerComment
  import opened PeerListing
  import opened PeerTidy
  import opened PeerServer
  import opened PeerNaming

  function KeyLine(key: string): string { SettingLine(KEY_NAME, key) }

  function NameLine(name: string): string { MARK + ([' '] + name) }

  const BEFORE := [NameLine("b"), HEADER, KeyLine("b"), NameLine("b"), NameLine("a"), HEADER, KeyLine("a"),
                   NameLine("c"), HEADER, KeyLine("c")]
  const AFTER := [NameLine("b"), HEADER, KeyLine("b"), NameLine("b"), HEADER, KeyLine("c")]

  const STATE := State(Join(BEFORE, '\n'), map[])
  const DELETE := Delete("a", Works)

  predicate IsKey(l: Line, key: string) {
    l.section == None && l.key == Some(key) && l.allowed == None && l.comment == "" && !l.mark && !l.blank
  }

  predicate IsName(l: Line, name: string) { Neutral(l) && l.mark && !l.blank && l.comment == NameLine(name) }

  lemma NameLineClass(name: string)
    requires Ink(name) && !IsSpace(name[|name| - 1])
    ensures IsName(Classify(NameLine(name)), name)
  {
    var c := NameLine(name);
    assert c[0] == MARK[0] == '#' && c[|c| - 1] == name[|name| - 1];
    TrimKeeps(c, IsSpace);
    MarkedNeutral(c);
  }

  predicate LooksBefore(l: seq<Line>) {
    && |l| == 10 && IsName(l[0], "b") && IsHeader(l[1]) && IsKey(l[2], "b") && IsName(l[3], "b") && IsName(l[4], "a")
    && IsHeader(l[5]) && IsKey(l[6], "a") && IsName(l[7], "c") && IsHeader(l[8]) && IsKey(l[9], "c")
  }

  predicate LooksAfter(l: seq<Line>) {
    && |l| == 6 && IsName(l[0], "b") && IsHeader(l[1]) && IsKey(l[2], "b") && IsName(l[3], "b")
    && IsHeader(l[4]) && IsKey(l[5], "c")
  }

  /** The lines of both files, as the parser sees them. */
  lemma LinesSeen()
    ensures LooksBefore(ClassifyAll(BEFORE)) && LooksAfter(ClassifyAll(AFTER))
  {
    hide Classify, KeyLine, NameLine, IsKey, IsName;
    HeaderClass();
    KeySeen("a");
    KeySeen("b");
    KeySeen("c");
    NameLineClass("a");
    NameLineClass("b");
    NameLineClass("c");
  }

  lemma KeySeen(key: string)
    requires Printable(key)
    ensures IsKey(Classify(KeyLine(key)), key)
  {
    hide Classify, SettingLine;
    KeyLineClass(key);
  }

  lemma ConfFree()
    ensures AllFree(BEFORE, '\n') && AllFree(AFTER, '\n')
  {
    assert Free(HEADER, '\n') && Free(KeyLine("a"), '\n') && Free(KeyLine("b"), '\n') && Free(KeyLine("c"), '\n');
    assert Free(NameLine("a"), '\n') && Free(NameLine("b"), '\n') && Free(NameLine("c"), '\n');
  }

  /** A header and a key line, from wherever the parser stands. */
  lemma OneBlock(l: seq<Line>, i: nat, p: Parse, key: string)
    requires i + 1 < |l| && IsHeader(l[i]) && IsKey(l[i + 1], key) && ParseTo(l, i) == p
    ensures ParseTo(l, i + 2) == Parse(PEER, Some(Open(l, i).(key := key)), Flush(p, i - 1), p.params)
  {
    hide Flush;
    var e := Open(l, i);
    HeaderStep(p, l, i);
    var q := Parse(PEER, Some(e), Flush(p, i - 1), p.params);
    assert ParseTo(l, i + 1) == q;
    SettingStep(q, e, l, i + 1);
  }

  /** A comment line, from wherever the parser stands. */
  lemma OneName(l: seq<Line>, i: nat, name: string)
    requires i < |l| && IsName(l[i], name)
    ensures ParseTo(l, i + 1) == ParseTo(l, i)
  {
    NeutralStep(ParseTo(l, i), l, i);
  }

  lemma Flushed(p: Parse, end: int)
    ensures Flush(p, end) == if p.cur.Some? then p.peers + [p.cur.value.(end := end)] else p.peers
  {
  }

  lemma NothingParsed(l: seq<Line>)
    ensures ParseTo(l, 0) == START
  {
  }

  lemma PeersBefore(l: seq<Line>)
    requires LooksBefore(l)
    ensures Peers(l) == [Entry("b", "", NameLine("b"), 1, 4), Entry("a", "", NameLine("a"), 5, 7), Entry("c", "", NameLine("c"), 8, 9)]
  {
    hide Flush, Step, NameLine, ParseTo;
    NothingParsed(l);
    OneName(l, 0, "b");
    OneBlock(l, 1, START, "b");
    var p := ParseTo(l, 3);
    OneName(l, 3, "b");
    OneName(l, 4, "a");
    OneBlock(l, 5, p, "a");
    var q := ParseTo(l, 7);
    OneName(l, 7, "c");
    OneBlock(l, 8, q, "c");
    Flushed(START, 0);
    Flushed(p, 4);
    Flushed(q, 7);
    Flushed(ParseTo(l, 10), 9);
  }

  lemma PeersAfter(l: seq<Line>)
    requires LooksAfter(l)
    ensures Peers(l) == [Entry("b", "", NameLine("b"), 1, 3), Entry("c", "", NameLine("b"), 4, 5)]
  {
    hide Flush, Step, NameLine, ParseTo;
    NothingParsed(l);
    OneName(l, 0, "b");
    OneBlock(l, 1, START, "b");
    var p := ParseTo(l, 3);
    OneName(l, 3, "b");
    OneBlock(l, 4, p, "c");
    Flushed(START, 0);
    Flushed(p, 3);
    Flushed(ParseTo(l, 6), 5);
  }

  lemma NamesListed(e: Entry, name: string)
    requires e.comment == NameLine(name) && Ink(name)
    ensures ListedName(e, map[]) == name
  {
    hide MatchComment;
    NameRead(name);
  }

  lemma StateBefore()
    ensures PeersOf(STATE) == [Entry("b", "", NameLine("b"), 1, 4), Entry("a", "", NameLine("a"), 5, 7), Entry("c", "", NameLine("c"), 8, 9)]
    ensures Split(STATE.conf, '\n') == BEFORE && LinesOf(STATE.conf) == ClassifyAll(BEFORE)
  {
    hide Classify, Peers, SettingLine, NameLine, LooksBefore, LooksAfter;
    ConfFree();
    SplitJoin(BEFORE, '\n');
    LinesSeen();
    PeersBefore(ClassifyAll(BEFORE));
  }

  lemma MiddleDrop(all: seq<Line>)
    requires LooksBefore(all)
    ensures DropFrom(all, 5) == 4
  {
    hide NameLine;
  }

  /** The file without the second block. */
  lemma MiddleCut()
    ensures Peers(LinesOf(Cut(STATE.conf, {1}))) == [Entry("b", "", NameLine("b"), 1, 3), Entry("c", "", NameLine("b"), 4, 5)]
  {
    hide Classify, Peers, Marks, Keep, SettingLine, NameLine, DropFrom, LooksBefore, LooksAfter;
    StateBefore();
    ConfFree();
    LinesSeen();
    var all := ClassifyAll(BEFORE);
    CutStretch(BEFORE, all, 1);
    MiddleDrop(all);
    assert BEFORE[..4] + BEFORE[8..] == AFTER;
    SplitJoin(AFTER, '\n');
    PeersAfter(ClassifyAll(AFTER));
  }

  lemma NamesBefore()
    ensures DistinctListed(STATE)
    ensures forall p :: p in ListedIn(STATE) && p.name == "a" ==> p.key == "a"
    ensures HasName(ListedIn(STATE), "a")
  {
    hide Peers, LinesOf, ListedName, Join, NameLine;
    StateBefore();
    var peers := PeersOf(STATE);
    NamesListed(peers[0], "b");
    NamesListed(peers[1], "a");
    NamesListed(peers[2], "c");
    assert ListedIn(STATE)[1].name == "a" && ListedIn(STATE)[1] in ListedIn(STATE);
  }

  lemma NamesAfter(t: State)
    requires t.conf == Cut(STATE.conf, {1}) && t.sidecar == map[]
    ensures !DistinctListed(t)
  {
    hide Cut, Peers, LinesOf, ListedName, Join, NameLine;
    MiddleCut();
    var now := PeersOf(t);
    NamesListed(now[0], "b");
    NamesListed(now[1], "b");
    assert |UNMANAGED| == 11 && "b" != UNMANAGED;
  }

  /** All listed names differ, and after the delete two peers have one. */
  lemma DeleteClashes(t: State, outcome: Outcome)
    ensures DistinctListed(STATE)
    ensures Deleted(STATE, DELETE, t, outcome) ==> outcome == Done && !DistinctListed(t)
  {
    hide Cut, Peers, LinesOf, MatchComment, Join, ListedIn, DistinctListed;
    NamesBefore();
    if Deleted(STATE, DELETE, t, outcome) {
      var target :| IsFirst(ListedIn(STATE), "a", target) && Drops(STATE, DELETE, target, t, outcome);
      assert target == Some("a");
      StateBefore();
      assert FirstWithKey(PeersOf(STATE), "a") == 1;
      NamesAfter(t);
    }
  }
}
