/** Laws of editing `gw0.conf`: what the parser finds after removals, in one pass or one
    by one, and after a peer is appended or appended and removed again. */
module PeerLaws {
  import opened Wrappers
  import opened Text
  import opened ConfLines
  import opened PeerConf
  import opened PeerEdit
  import opened Rfc3339

  // --- removals ------------------------------------------------------------------------------

  /** The pairs whose key is not among `keys`, in order. */
  function FilterKeys(list: seq<(string, string)>, keys: set<string>): seq<(string, string)> {
    if list == [] then []
    else
      var n := |list| - 1;
      FilterKeys(list[..n], keys) + if list[n].0 in keys then [] else [list[n]]
  }

  ghost predicate DistinctKeys(list: seq<(string, string)>) {
    forall i, j :: 0 <= i < j < |list| ==> list[i].0 != list[j].0
  }

  lemma FilterSnoc(list: seq<(string, string)>, x: (string, string), keys: set<string>)
    ensures FilterKeys(list + [x], keys) == FilterKeys(list, keys) + if x.0 in keys then [] else [x]
  {
    assert (list + [x])[..|list|] == list;
  }

  lemma {:induction false} WithoutAgree(peers: seq<Entry>, gone: set<nat>, gone': set<nat>)
    requires forall j: nat :: j < |peers| ==> (j in gone <==> j in gone')
    ensures Without(peers, gone) == Without(peers, gone')
  {
    if peers != [] {
      WithoutAgree(peers[..|peers| - 1], gone, gone');
    }
  }

  /** Taking out the positions with some keys is filtering the list by key. */
  lemma {:induction false} WithoutFilters(peers: seq<Entry>, keys: set<string>)
    ensures Without(peers, WithKeys(peers, keys)) == FilterKeys(Without(peers, {}), keys)
  {
    if peers != [] {
      var n := |peers| - 1;
      WithoutFilters(peers[..n], keys);
      WithoutAgree(peers[..n], WithKeys(peers[..n], keys), WithKeys(peers, keys));
      FilterSnoc(Without(peers[..n], {}), Seen(peers[n]), keys);
      assert Without(peers, {}) == Without(peers[..n], {}) + [Seen(peers[n])];
    }
  }

  /** With no position taken out, the list names every peer. */
  lemma {:induction false} WithoutNone(peers: seq<Entry>)
    ensures |Without(peers, {})| == |peers|
    ensures forall j :: 0 <= j < |peers| ==> Without(peers, {})[j] == Seen(peers[j])
  {
    if peers != [] {
      WithoutNone(peers[..|peers| - 1]);
    }
  }

  lemma {:induction false} FilterNone(list: seq<(string, string)>, keys: set<string>)
    requires forall i :: 0 <= i < |list| ==> list[i].0 !in keys
    ensures FilterKeys(list, keys) == list
  {
    if list != [] {
      FilterNone(list[..|list| - 1], keys);
    }
  }

  lemma {:induction false} FilterTwice(list: seq<(string, string)>, a: set<string>, b: set<string>)
    ensures FilterKeys(FilterKeys(list, a), b) == FilterKeys(list, a + b)
  {
    if list != [] {
      var n := |list| - 1;
      FilterTwice(list[..n], a, b);
      var front := FilterKeys(list[..n], a);
      if list[n].0 in a {
        assert FilterKeys(list, a) == front;
      } else {
        FilterSnoc(front, list[n], b);
      }
    }
  }

  lemma {:induction false} FilterMembers(list: seq<(string, string)>, keys: set<string>)
    ensures forall x :: x in FilterKeys(list, keys) <==> x in list && x.0 !in keys
  {
    if list != [] {
      var n := |list| - 1;
      FilterMembers(list[..n], keys);
      assert list == list[..n] + [list[n]];
    }
  }

  lemma {:induction false} FilterDistinct(list: seq<(string, string)>, keys: set<string>)
    requires DistinctKeys(list)
    ensures DistinctKeys(FilterKeys(list, keys))
  {
    if list != [] {
      var n := |list| - 1;
      FilterDistinct(list[..n], keys);
      FilterMembers(list[..n], keys);
      var f := FilterKeys(list[..n], keys);
      forall i | 0 <= i < |f| ensures f[i].0 != list[n].0 {
        assert f[i] in f;
      }
    }
  }

  /** The file after the bulk remover. */
  ghost function BulkRemoved(raw: string, keys: set<string>): string {
    if keys == {} then raw else Cut(raw, WithKeys(Peers(LinesOf(raw)), keys))
  }

  /** The file after the single remover. */
  ghost function OneRemoved(raw: string, key: string): string {
    var peers := Peers(LinesOf(raw));
    var j := FirstWithKey(peers, key);
    if j < |peers| then Cut(raw, {j}) else raw
  }

  /** Parsing what the bulk remover wrote gives the original peers with the named keys
      filtered out, and the interface parameters unchanged. */
  lemma BulkTheorem(raw: string, keys: set<string>)
    ensures PeerList(BulkRemoved(raw, keys)) == FilterKeys(PeerList(raw), keys)
    ensures Params(LinesOf(BulkRemoved(raw, keys))) == Params(LinesOf(raw))
  {
    if keys == {} {
      FilterNone(PeerList(raw), keys);
    } else {
      CutTheorem(raw, WithKeys(Peers(LinesOf(raw)), keys));
      WithoutFilters(Peers(LinesOf(raw)), keys);
    }
  }

  lemma OneIsFilter(peers: seq<Entry>, key: string)
    requires DistinctKeys(Without(peers, {})) && FirstWithKey(peers, key) < |peers|
    ensures Without(peers, {FirstWithKey(peers, key)}) == FilterKeys(Without(peers, {}), {key})
  {
    var k := FirstWithKey(peers, key);
    WithoutNone(peers);
    var list := Without(peers, {});
    forall j: nat | j < |peers| ensures j in {k} <==> j in WithKeys(peers, {key}) {
      assert list[j].0 == peers[j].key && list[k].0 == key;
    }
    WithoutAgree(peers, {k}, WithKeys(peers, {key}));
    WithoutFilters(peers, {key});
  }

  /** With distinct keys, the single remover filters out its key. */
  lemma OneTheorem(raw: string, key: string)
    requires DistinctKeys(PeerList(raw))
    ensures PeerList(OneRemoved(raw, key)) == FilterKeys(PeerList(raw), {key})
    ensures Params(LinesOf(OneRemoved(raw, key))) == Params(LinesOf(raw))
  {
    var peers := Peers(LinesOf(raw));
    var j := FirstWithKey(peers, key);
    if j < |peers| {
      CutTheorem(raw, {j});
      OneIsFilter(peers, key);
    } else {
      WithoutNone(peers);
      FilterNone(PeerList(raw), {key});
    }
  }

  /** Removing keys one by one, parsing the file again each time. */
  ghost function EachRemoved(raw: string, keys: seq<string>): string
    decreases |keys|
  {
    if keys == [] then raw else EachRemoved(OneRemoved(raw, keys[0]), keys[1..])
  }

  function KeySet(keys: seq<string>): set<string> { set k | k in keys }

  lemma {:induction false} EachTheorem(raw: string, keys: seq<string>)
    requires DistinctKeys(PeerList(raw))
    ensures PeerList(EachRemoved(raw, keys)) == FilterKeys(PeerList(raw), KeySet(keys))
    ensures Params(LinesOf(EachRemoved(raw, keys))) == Params(LinesOf(raw))
    decreases |keys|
  {
    hide PeerList, OneRemoved;
    if keys == [] {
      assert KeySet(keys) == {};
      FilterNone(PeerList(raw), {});
    } else {
      OneTheorem(raw, keys[0]);
      FilterDistinct(PeerList(raw), {keys[0]});
      EachTheorem(OneRemoved(raw, keys[0]), keys[1..]);
      FilterEach(PeerList(raw), keys);
    }
  }

  lemma FilterEach(list: seq<(string, string)>, keys: seq<string>)
    requires keys != []
    ensures FilterKeys(FilterKeys(list, {keys[0]}), KeySet(keys[1..])) == FilterKeys(list, KeySet(keys))
  {
    FilterTwice(list, {keys[0]}, KeySet(keys[1..]));
    assert keys == [keys[0]] + keys[1..];
    assert KeySet(keys) == {keys[0]} + KeySet(keys[1..]);
  }

  /** With distinct keys, every order of single removals leaves the peers that one bulk
      removal leaves. */
  lemma AnyOrderIsBulk(raw: string, keys: seq<string>)
    requires DistinctKeys(PeerList(raw))
    ensures PeerList(EachRemoved(raw, keys)) == PeerList(BulkRemoved(raw, KeySet(keys)))
  {
    EachTheorem(raw, keys);
    BulkTheorem(raw, KeySet(keys));
  }

  // --- appending -----------------------------------------------------------------------------

  /** What `appendPeer` prints of a peer. */
  datatype NewPeer = NewPeer(name: string, actor: string, addedAt: Instant, key: string, ip: string)

  const HEADER := "[Peer]"

  /** `sanitize`: line breaks become spaces and long text is cut. */
  function Sanitize(s: string): (r: string)
    ensures Free(r, '\n')
  {
    var out := seq(|s|, i requires 0 <= i < |s| => if s[i] == '\n' || s[i] == '\r' then ' ' else s[i]);
    if |out| > 256 then out[..256] else out
  }

  /** What is left is the first 256 characters, line breaks turned to spaces. */
  lemma SanitizeShape(s: string)
    ensures var r := Sanitize(s);
      && |r| == (if |s| < 256 then |s| else 256)
      && (forall i :: 0 <= i < |r| ==> r[i] != '\r' && r[i] == (if s[i] in {'\n', '\r'} then ' ' else s[i]))
  {
  }

  function CommentLine(p: NewPeer): string {
    MARK + (" " + Sanitize(p.name) + " (added " + Format(p.addedAt) + " by " + Sanitize(p.actor) + ")")
  }

  function SettingLine(name: string, value: string): string { name + (" = " + value) }

  function Allowed(p: NewPeer): string { p.ip + "/32" }

  function BlockText(p: NewPeer): string {
    [] + ['\n'] + (CommentLine(p) + ['\n'] + (HEADER + ['\n'] +
      (SettingLine(KEY_NAME, p.key) + ['\n'] + (SettingLine(ALLOWED_NAME, Allowed(p)) + ['\n'] + []))))
  }

  /** The file after `appendPeer`. */
  function Appended(raw: string, p: NewPeer): string {
    (if EndsLine(raw) then raw else raw + ['\n']) + BlockText(p)
  }

  function NewLines(p: NewPeer): seq<string> {
    [[], CommentLine(p), HEADER, SettingLine(KEY_NAME, p.key), SettingLine(ALLOWED_NAME, Allowed(p)), []]
  }

  /** A value that prints on one line and survives trimming. */
  ghost predicate Printable(s: string) {
    s != [] && !IsSpace(s[0]) && !IsSpace(s[|s| - 1]) && Free(s, '\n')
  }

  ghost predicate WellFormed(p: NewPeer) {
    Printable(p.key) && Printable(p.ip)
  }

  lemma LinesFree(p: NewPeer)
    requires WellFormed(p)
    ensures AllFree(NewLines(p), '\n')
  {
    assert Free(MARK, '\n') && Free(HEADER, '\n') && Free(KEY_NAME, '\n') && Free(ALLOWED_NAME, '\n');
    FormatInk(p.addedAt);
    assert Free(Format(p.addedAt), '\n') by { assert IsSpace('\n'); }
    assert Free(" " + Sanitize(p.name) + " (added ", '\n');
    assert Free(" " + Sanitize(p.name) + " (added " + Format(p.addedAt) + " by " + Sanitize(p.actor) + ")", '\n');
    assert Free(SettingLine(KEY_NAME, p.key), '\n') && Free(Allowed(p), '\n');
    assert Free(SettingLine(ALLOWED_NAME, Allowed(p)), '\n');
  }

  lemma BlockTextLines(p: NewPeer)
    requires WellFormed(p)
    ensures Split(BlockText(p), '\n') == NewLines(p)
  {
    LinesFree(p);
    var ls := NewLines(p);
    FiveLines(ls[0], ls[1], ls[2], ls[3], ls[4]);
  }

  lemma TwoLines(d: string, e: string)
    requires Free(d, '\n') && Free(e, '\n')
    ensures Split(d + ['\n'] + (e + ['\n'] + []), '\n') == [d, e, []]
  {
    SplitField(e, [], '\n');
    SplitField(d, e + ['\n'] + [], '\n');
  }

  lemma FiveLines(a: string, b: string, c: string, d: string, e: string)
    requires Free(a, '\n') && Free(b, '\n') && Free(c, '\n') && Free(d, '\n') && Free(e, '\n')
    ensures Split(a + ['\n'] + (b + ['\n'] + (c + ['\n'] + (d + ['\n'] + (e + ['\n'] + [])))), '\n')
            == [a, b, c, d, e, []]
  {
    TwoLines(d, e);
    SplitField(c, d + ['\n'] + (e + ['\n'] + []), '\n');
    SplitField(b, c + ['\n'] + (d + ['\n'] + (e + ['\n'] + [])), '\n');
    SplitField(a, b + ['\n'] + (c + ['\n'] + (d + ['\n'] + (e + ['\n'] + []))), '\n');
  }

  /** The lines of the file after an append. */
  lemma AppendedLines(raw: string, p: NewPeer)
    requires WellFormed(p)
    ensures Split(Appended(raw, p), '\n') == FullLines(raw) + NewLines(p)
  {
    BlockTextLines(p);
    if EndsLine(raw) {
      var body := raw[..|raw| - 1];
      LastLine(raw);
      SplitAppend(body, BlockText(p), '\n');
      assert Appended(raw, p) == body + ['\n'] + BlockText(p);
    } else {
      SplitAppend(raw, BlockText(p), '\n');
    }
  }

  // --- the lines of a new block, classified -----------------------------------------------------

  /** A printed setting is read back. */
  lemma SettingRead(name: string, value: string)
    requires name != [] && !IsReSpace(name[0]) && Printable(value)
    ensures Setting(SettingLine(name, value), name) == Some(value)
    ensures TrimSpace(value) == value
  {
    var ln := SettingLine(name, value);
    assert Lead(ln, IsReSpace) == 0 && ln[0..] == ln;
    assert ln[|name|..] == " = " + value;
    SpacedValue(value);
    TrimKeeps(value, IsSpace);
  }

  lemma SpacedValue(value: string)
    requires Printable(value)
    ensures ValuePart(" = " + value) == Some(value)
  {
    var s := " = " + value;
    var r := ['='] + ([' '] + value);
    assert s == [' '] + r;
    SkipOne(r);
    assert r[1..] == [' '] + value;
    SpaceTrimmed(value);
  }

  lemma SpaceTrimmed(value: string)
    requires Printable(value)
    ensures Trim([' '] + value, IsReSpace) == value
  {
    SkipOne(value);
    assert Trail(value, IsReSpace) == 0 && value[..|value|] == value;
  }

  lemma SkipOne(rest: string)
    requires rest != [] && !IsReSpace(rest[0])
    ensures TrimLeft([' '] + rest, IsReSpace) == rest
  {
    LeadOf([' '], rest, IsReSpace);
    assert ([' '] + rest)[1..] == rest;
  }

  /** A line that starts with another letter is neither a header nor that setting. */
  lemma OtherSetting(ln: string, name: string)
    requires ln != [] && !IsReSpace(ln[0]) && name != [] && name[0] != ln[0]
    ensures Setting(ln, name) == None
  {
    assert Lead(ln, IsReSpace) == 0 && ln[0..] == ln;
    if name <= ln { PrefixChars(name, ln); }
  }

  lemma KeyLineClass(key: string)
    requires Printable(key)
    ensures var l := Classify(SettingLine(KEY_NAME, key));
            l.section == None && l.key == Some(key) && l.allowed == None && l.comment == "" && !l.mark && !l.blank
  {
    var ln := SettingLine(KEY_NAME, key);
    assert ln[0] == KEY_NAME[0] == 'P' && ALLOWED_NAME[0] == 'A' && ln[|ln| - 1] == key[|key| - 1];
    SettingRead(KEY_NAME, key);
    OtherSetting(ln, ALLOWED_NAME);
    TrimKeeps(ln, IsSpace);
    assert MARK[0] == '#' && "#"[0] == '#';
  }

  lemma AllowedLineClass(p: NewPeer)
    requires WellFormed(p)
    ensures var l := Classify(SettingLine(ALLOWED_NAME, Allowed(p)));
            l.section == None && l.key == None && l.allowed == Some(Allowed(p)) && l.comment == ""
  {
    var ln := SettingLine(ALLOWED_NAME, Allowed(p));
    assert ln[0] == ALLOWED_NAME[0] == 'A' && KEY_NAME[0] == 'P' && ln[|ln| - 1] == '2';
    AllowedPrintable(p);
    TrimKeeps(ln, IsSpace);
    assert "#"[0] == '#';
    SettingRead(ALLOWED_NAME, Allowed(p));
    OtherSetting(ln, KEY_NAME);
  }

  lemma AllowedPrintable(p: NewPeer)
    requires WellFormed(p)
    ensures Printable(Allowed(p))
  {
    var a := Allowed(p);
    assert a[0] == p.ip[0] && a[|a| - 1] == '2';
  }

  lemma HeaderClass()
    ensures Classify(HEADER).section == Some(PEER) && Classify(HEADER).comment == ""
  {
    hide Setting, AnySetting, ToLower, Trim, IsSpace;
    HeaderName();
    HeaderTrimmed();
  }

  lemma HeaderTrimmed()
    ensures TrimSpace(HEADER) == HEADER && !("#" <= HEADER)
  {
    TrimKeeps(HEADER, IsSpace);
  }

  lemma HeaderName()
    ensures SectionName(HEADER) == Some(PEER)
  {
    var word := HEADER[1..5];
    assert word == "Peer" && HEADER[1..] == word + [']'];
    LeadOf(word, [']'], IsWord);
    assert HEADER[5..] == [']'];
    assert ToLower(word) == PEER;
  }

  lemma CommentTrimmed(p: NewPeer)
    ensures TrimSpace(CommentLine(p)) == CommentLine(p)
    ensures MARK <= CommentLine(p) && "#" <= CommentLine(p)
  {
    var c := CommentLine(p);
    assert c[0] == MARK[0] == '#' && c[|c| - 1] == ')';
    TrimKeeps(c, IsSpace);
  }

  lemma CommentClass(p: NewPeer)
    ensures var l := Classify(CommentLine(p));
            Neutral(l) && l.mark && l.comment == CommentLine(p)
  {
    CommentTrimmed(p);
    MarkedNeutral(CommentLine(p));
  }

  lemma BlankClass()
    ensures Neutral(Classify([])) && Classify([]).blank && !Classify([]).mark && Classify([]).comment == ""
  {
    assert TrimSpace([]) == [];
    MarkedNeutral([]);
  }

  lemma TailClass(p: NewPeer)
    requires WellFormed(p)
    ensures var tail := ClassifyAll(NewLines(p));
            && PeerTail(tail, p.key, Allowed(p))
            && tail[0].blank && tail[1].mark && tail[1].comment == CommentLine(p)
            && tail[0].comment == tail[2].comment == tail[3].comment == tail[4].comment == tail[5].comment == ""
  {
    hide Classify, CommentLine, SettingLine, Allowed;
    BlankClass();
    CommentClass(p);
    HeaderClass();
    KeyLineClass(p.key);
    AllowedLineClass(p);
  }

  // --- what an append leaves -------------------------------------------------------------------

  lemma MapAppend(a: seq<string>, b: seq<string>, f: string -> Line)
    ensures MapLines(a + b, f) == MapLines(a, f) + MapLines(b, f)
  {
  }

  /** The lines the parser sees without the empty last one. */
  function BaseLines(raw: string): seq<Line> { ClassifyAll(FullLines(raw)) }

  /** The empty last line only moves the end of the last block. */
  lemma BaseParse(raw: string)
    ensures Params(LinesOf(raw)) == Params(BaseLines(raw))
    ensures |Peers(LinesOf(raw))| == |Peers(BaseLines(raw))|
    ensures forall j :: 0 <= j < |Peers(BaseLines(raw))| ==> SameButEnd(Peers(BaseLines(raw))[j], Peers(LinesOf(raw))[j])
  {
    if EndsLine(raw) {
      LastLine(raw);
      BlankClass();
      MapAppend(FullLines(raw), [[]], Classify);
      assert MapLines([[]], Classify) == [Classify([])];
      NeutralEnd(BaseLines(raw), Classify([]));
    }
  }

  lemma AppendedParse(raw: string, p: NewPeer)
    requires WellFormed(p)
    ensures LinesOf(Appended(raw, p)) == BaseLines(raw) + ClassifyAll(NewLines(p))
    ensures Appends(Peers(BaseLines(raw)), Peers(LinesOf(Appended(raw, p))),
                    Entry(p.key, Allowed(p), CommentLine(p), |BaseLines(raw)| + 2, |BaseLines(raw)| + 5))
    ensures Params(LinesOf(Appended(raw, p))) == Params(BaseLines(raw))
  {
    hide Classify, Split, FullLines, NewLines, Appended, Peers, Params, Appends, PeerTail;
    AppendedLines(raw, p);
    MapAppend(FullLines(raw), NewLines(p), Classify);
    TailClass(p);
    AppendParse(BaseLines(raw), ClassifyAll(NewLines(p)), p.key, Allowed(p));
  }

  /** Parsing after an append gives the old peers with their keys, addresses and comments,
      then the new one with its own; the interface parameters stay. */
  lemma AppendTheorem(raw: string, p: NewPeer)
    requires WellFormed(p)
    ensures var was, now := Peers(LinesOf(raw)), Peers(LinesOf(Appended(raw, p)));
            && |now| == |was| + 1
            && (forall j :: 0 <= j < |was| ==> SameButEnd(was[j], now[j]))
            && now[|was|].key == p.key && now[|was|].allowed == Allowed(p)
            && now[|was|].comment == CommentLine(p)
    ensures Params(LinesOf(Appended(raw, p))) == Params(LinesOf(raw))
  {
    BaseParse(raw);
    AppendedParse(raw, p);
  }

  /** As pairs: the list grows by the new peer. */
  lemma AppendList(raw: string, p: NewPeer)
    requires WellFormed(p)
    ensures PeerList(Appended(raw, p)) == PeerList(raw) + [(p.key, Allowed(p))]
  {
    hide LinesOf, Peers, Appended, NewLines;
    AppendTheorem(raw, p);
    var was, now := Peers(LinesOf(raw)), Peers(LinesOf(Appended(raw, p)));
    WithoutNone(was);
    WithoutNone(now);
    assert forall j :: 0 <= j < |was| ==> Seen(now[j]) == Seen(was[j]);
  }

  /** Removing a freshly appended peer restores the file, except that one final newline
      is lost, for every file in which its key is absent. */
  lemma AppendThenRemove(raw: string, p: NewPeer)
    requires WellFormed(p) && forall e :: e in PeerList(raw) ==> e.0 != p.key
    ensures OneRemoved(Appended(raw, p), p.key) == if EndsLine(raw) then raw[..|raw| - 1] else raw
  {
    hide Classify, Split, Join, Peers, FullLines, Appended, PeerList, Cut, LinesOf;
    var now := Peers(LinesOf(Appended(raw, p)));
    AppendTheorem(raw, p);
    FreshKeyFirst(raw, p, now);
    AppendedCut(raw, p);
    JoinBase(raw);
  }

  /** Cutting the last block of an appended file leaves the lines before it. */
  lemma AppendedCut(raw: string, p: NewPeer)
    requires WellFormed(p)
    ensures var now := Peers(LinesOf(Appended(raw, p)));
            now != [] && Cut(Appended(raw, p), {|now| - 1}) == Join(FullLines(raw), '\n')
  {
    hide Classify, Split, Join, Peers, Keep, Marks, FullLines, Appended, LinesOf, CommentLine;
    var base := FullLines(raw);
    var lines := base + NewLines(p);
    var all := LinesOf(Appended(raw, p));
    AppendedParse(raw, p);
    AppendedLines(raw, p);
    var j := |Peers(BaseLines(raw))|;
    assert |Peers(all)| == j + 1 && Peers(all)[j].start == |base| + 2 && Peers(all)[j].end == |base| + 5;
    CutStretch(lines, all, j);
    TailClass(p);
    TailDrop(BaseLines(raw), ClassifyAll(NewLines(p)));
    assert lines[..|base|] == base && lines[|base| + 6..] == [];
    assert base + [] == base;
  }

  lemma TailDrop(base: seq<Line>, tail: seq<Line>)
    requires |tail| == 6 && tail[0].blank && tail[1].mark
    ensures DropFrom(base + tail, |base| + 2) == |base|
  {
    assert (base + tail)[|base|] == tail[0] && (base + tail)[|base| + 1] == tail[1];
  }

  lemma FreshKeyFirst(raw: string, p: NewPeer, now: seq<Entry>)
    requires forall e :: e in PeerList(raw) ==> e.0 != p.key
    requires |now| == |Peers(LinesOf(raw))| + 1 && now[|now| - 1].key == p.key
    requires forall j :: 0 <= j < |now| - 1 ==> SameButEnd(Peers(LinesOf(raw))[j], now[j])
    ensures FirstWithKey(now, p.key) == |now| - 1
  {
    hide LinesOf, Peers;
    var was := Peers(LinesOf(raw));
    WithoutNone(was);
    forall j | 0 <= j < |was| ensures now[j].key != p.key {
      assert PeerList(raw)[j] in PeerList(raw);
      assert now[j].key == was[j].key;
    }
  }

  lemma JoinBase(raw: string)
    ensures Join(FullLines(raw), '\n') == if EndsLine(raw) then raw[..|raw| - 1] else raw
  {
    if EndsLine(raw) {
      LastLine(raw);
      assert FullLines(raw) == Split(raw[..|raw| - 1], '\n');
      JoinSplit(raw[..|raw| - 1], '\n');
    } else {
      JoinSplit(raw, '\n');
    }
  }
}
