/** The WireGuard config as the parser sees it, line by line: section headers, settings
    and lines that carry nothing. Blocks are told apart by line numbers. */
module ConfLines {
  import opened Wrappers

  /** What one line of the file can mean to the parser and the removers. */
  datatype Line = Line(
    section: Option<string>,
    param: Option<(string, string)>,
    key: Option<string>,
    allowed: Option<string>,
    comment: string,
    mark: bool,
    blank: bool)

  /** A line that sets nothing, whatever section it stands in. */
  predicate Neutral(l: Line) { l.section.None? && l.param.None? && l.key.None? && l.allowed.None? }

  /** A `[Peer]` block: `peerEntry`. */
  datatype Entry = Entry(key: string, allowed: string, comment: string, start: nat, end: int)

  /** The parser's variables between two lines. */
  datatype Parse = Parse(section: string, cur: Option<Entry>, peers: seq<Entry>, params: map<string, string>)

  const PEER := "peer"
  const INTERFACE := "interface"
  const START := Parse("", None, [], map[])

  /** The peers found once the open block, if any, is closed at line `end`. */
  function Flush(p: Parse, end: int): seq<Entry> {
    if p.cur.Some? then p.peers + [p.cur.value.(end := end)] else p.peers
  }

  function Open(lines: seq<Line>, i: nat): Entry
    requires i < |lines|
  {
    Entry("", "", if i > 0 then lines[i - 1].comment else "", i, i)
  }

  function Set(e: Entry, l: Line): Entry {
    e.(key := if l.key.Some? then l.key.value else e.key,
       allowed := if l.allowed.Some? then l.allowed.value else e.allowed)
  }

  /** The open block after a line that is no header. */
  function BlockAfter(l: Line, section: string, cur: Option<Entry>): Option<Entry> {
    if section == PEER && cur.Some? then Some(Set(cur.value, l)) else cur
  }

  /** The interface parameters after a line that is no header. */
  function ParamsAfter(l: Line, section: string, params: map<string, string>): map<string, string> {
    if section == INTERFACE && l.param.Some? then params[l.param.value.0 := l.param.value.1] else params
  }

  /** One turn of the parser's loop. */
  function Step(p: Parse, lines: seq<Line>, i: nat): Parse
    requires i < |lines|
  {
    var l := lines[i];
    match l.section
    case Some(s) =>
      Parse(s, if s == PEER then Some(Open(lines, i)) else None, Flush(p, i - 1), p.params)
    case None =>
      Parse(p.section, BlockAfter(l, p.section, p.cur), p.peers, ParamsAfter(l, p.section, p.params))
  }

  function ParseTo(lines: seq<Line>, n: nat): (p: Parse)
    requires n <= |lines|
    ensures p.cur.Some? ==> p.section == PEER
  {
    if n == 0 then START else Step(ParseTo(lines, n - 1), lines, n - 1)
  }

  function Peers(lines: seq<Line>): seq<Entry> { Flush(ParseTo(lines, |lines|), |lines| - 1) }

  function Params(lines: seq<Line>): map<string, string> { ParseTo(lines, |lines|).params }

  /** The loop of `loadConf`, over lines whose expressions have been matched. */
  method ParseLines(lines: seq<Line>) returns (peers: seq<Entry>, params: map<string, string>)
    ensures peers == Peers(lines) && params == Params(lines)
  {
    var section := "";
    var cur: Option<Entry> := None;
    peers, params := [], map[];
    for i := 0 to |lines|
      invariant ParseTo(lines, i) == Parse(section, cur, peers, params)
    {
      var ln := lines[i];
      if ln.section.Some? {
        if cur.Some? {
          peers := peers + [cur.value.(end := i - 1)];
          cur := None;
        }
        section := ln.section.value;
        if section == PEER {
          cur := Some(Entry("", "", if i > 0 then lines[i - 1].comment else "", i, i));
        }
      } else {
        if section == INTERFACE && ln.param.Some? {
          params := params[ln.param.value.0 := ln.param.value.1];
        }
        if section == PEER && cur.Some? {
          if ln.key.Some? { cur := Some(cur.value.(key := ln.key.value)); }
          if ln.allowed.Some? { cur := Some(cur.value.(allowed := ln.allowed.value)); }
        }
      }
    }
    if cur.Some? {
      peers := peers + [cur.value.(end := |lines| - 1)];
    }
  }

  // --- blocks ---------------------------------------------------------------------------

  /** Line `i` belongs to the `j`th block. */
  ghost predicate InBlock(lines: seq<Line>, i: nat, j: nat)
    requires i < |lines|
  {
    var p := ParseTo(lines, i + 1);
    p.cur.Some? && |p.peers| == j
  }

  ghost predicate BlocksTo(lines: seq<Line>, n: nat)
    requires n <= |lines|
  {
    var p := ParseTo(lines, n);
    && (forall i, j :: 0 <= i < n && 0 <= j < |p.peers| ==>
         (InBlock(lines, i, j) <==> p.peers[j].start <= i <= p.peers[j].end))
    && (forall i, j :: 0 <= i < n && j >= |p.peers| ==>
         (InBlock(lines, i, j) <==> j == |p.peers| && p.cur.Some? && p.cur.value.start <= i))
    && (forall j :: 0 <= j < |p.peers| ==> p.peers[j].start <= p.peers[j].end < n)
    && (p.cur.Some? ==> p.cur.value.start < n)
  }

  lemma {:induction false} BlocksHold(lines: seq<Line>, n: nat)
    requires n <= |lines|
    ensures BlocksTo(lines, n)
  {
    if n > 0 {
      BlocksHold(lines, n - 1);
      BlocksStep(lines, n);
    }
  }

  lemma BlocksStep(lines: seq<Line>, n: nat)
    requires 0 < n <= |lines| && BlocksTo(lines, n - 1)
    ensures BlocksTo(lines, n)
  {
    hide InBlock, ParseTo, Step;
    var p, q := ParseTo(lines, n - 1), ParseTo(lines, n);
    StepPeers(p, lines, n - 1);
    LastInBlock(lines, n - 1);
  }

  lemma LastInBlock(lines: seq<Line>, i: nat)
    requires i < |lines|
    ensures ParseTo(lines, i + 1) == Step(ParseTo(lines, i), lines, i)
    ensures forall j :: InBlock(lines, i, j) <==> ParseTo(lines, i + 1).cur.Some? && |ParseTo(lines, i + 1).peers| == j
  {
    hide Step;
  }

  /** A line leaves the blocks as they are, or closes the open one before it; a new block
      starts at it. */
  lemma StepPeers(p: Parse, lines: seq<Line>, i: nat)
    requires i < |lines|
    ensures var q := Step(p, lines, i);
      || (q.peers == p.peers && q.cur.Some? == p.cur.Some? && (p.cur.Some? ==> q.cur.value.start == p.cur.value.start))
      || (q.peers == Flush(p, i - 1) && (q.cur.Some? ==> q.cur.value.start == i))
  {
  }

  /** Every block is the lines from its header to the line before the next header. */
  lemma BlockLines(lines: seq<Line>, i: nat, j: nat)
    requires i < |lines| && j < |Peers(lines)|
    ensures InBlock(lines, i, j) <==> Peers(lines)[j].start <= i <= Peers(lines)[j].end
    ensures Peers(lines)[j].start <= Peers(lines)[j].end < |lines|
  {
    BlocksHold(lines, |lines|);
  }

  lemma BlockExists(lines: seq<Line>, i: nat, j: nat)
    requires i < |lines| && InBlock(lines, i, j)
    ensures j < |Peers(lines)|
  {
    BlocksHold(lines, |lines|);
  }

  // --- dropping lines -------------------------------------------------------------------

  /** The first `n` lines without those marked. */
  function Keep<T>(lines: seq<T>, drop: seq<bool>, n: nat): seq<T>
    requires n <= |lines| && |drop| == |lines|
  {
    if n == 0 then []
    else if drop[n - 1] then Keep(lines, drop, n - 1)
    else Keep(lines, drop, n - 1) + [lines[n - 1]]
  }

  function Seen(e: Entry): (string, string) { (e.key, e.allowed) }

  /** The keys and addresses of the peers whose position is not in `gone`. */
  function Without(peers: seq<Entry>, gone: set<nat>): seq<(string, string)> {
    if peers == [] then []
    else
      var n := |peers| - 1;
      Without(peers[..n], gone) + if n in gone then [] else [Seen(peers[n])]
  }

  /** All lines of the blocks in `gone` are dropped, and apart from them only lines that
      set nothing. */
  ghost predicate DropsBlocks(lines: seq<Line>, drop: seq<bool>, gone: set<nat>) {
    && |drop| == |lines|
    && forall i :: 0 <= i < |lines| ==>
         var p := ParseTo(lines, i + 1);
         var inside := p.cur.Some? && |p.peers| in gone;
         (inside ==> drop[i]) && (drop[i] ==> inside || Neutral(lines[i]))
  }

  /** The comment a header after the first `n` lines finds before it once lines are dropped:
      that of the last line kept. */
  function Heir(lines: seq<Line>, drop: seq<bool>, n: nat): string
    requires n <= |lines| == |drop|
  {
    var kept := Keep(lines, drop, n);
    if kept == [] then "" else kept[|kept| - 1].comment
  }

  /** The same peer in the kept lines, with the comment it finds there. */
  predicate Same(lines: seq<Line>, drop: seq<bool>, was: Entry, now: Entry)
    requires |lines| == |drop|
  {
    Seen(was) == Seen(now) && was.start <= |lines| && now.comment == Heir(lines, drop, was.start)
  }

  predicate SameAll(lines: seq<Line>, drop: seq<bool>, was: seq<Entry>, now: seq<Entry>)
    requires |lines| == |drop|
  {
    |was| == |now| && forall i :: 0 <= i < |was| ==> Same(lines, drop, was[i], now[i])
  }

  /** The peers whose position is not in `gone`. */
  function Rest(peers: seq<Entry>, gone: set<nat>): seq<Entry> {
    if peers == [] then []
    else
      var n := |peers| - 1;
      Rest(peers[..n], gone) + if n in gone then [] else [peers[n]]
  }

  lemma RestSnoc(peers: seq<Entry>, e: Entry, gone: set<nat>)
    ensures Rest(peers + [e], gone) == Rest(peers, gone) + if |peers| in gone then [] else [e]
  {
    assert (peers + [e])[..|peers|] == peers;
  }

  lemma {:induction false} WithoutRest(peers: seq<Entry>, gone: set<nat>)
    ensures |Without(peers, gone)| == |Rest(peers, gone)|
    ensures forall i :: 0 <= i < |Rest(peers, gone)| ==> Without(peers, gone)[i] == Seen(Rest(peers, gone)[i])
  {
    if peers != [] { WithoutRest(peers[..|peers| - 1], gone); }
  }

  lemma {:induction false} RestNone(peers: seq<Entry>)
    ensures Rest(peers, {}) == peers
  {
    if peers != [] { RestNone(peers[..|peers| - 1]); }
  }

  /** Peers that stay the same are listed the same. */
  lemma SameSeen(lines: seq<Line>, drop: seq<bool>, peers: seq<Entry>, gone: set<nat>, now: seq<Entry>)
    requires |lines| == |drop| && SameAll(lines, drop, Rest(peers, gone), now)
    ensures Without(peers, gone) == Without(now, {})
  {
    WithoutRest(peers, gone);
    WithoutRest(now, {});
    RestNone(now);
  }

  /** How the parse of the kept lines follows the parse of all lines. */
  ghost predicate Follows(a: Parse, b: Parse, lines: seq<Line>, drop: seq<bool>, gone: set<nat>)
    requires |lines| == |drop|
  {
    && a.params == b.params
    && if a.cur.Some? && |a.peers| in gone then
         SameAll(lines, drop, Rest(a.peers, gone), Flush(b, 0))
       else
         && a.section == b.section && a.cur.Some? == b.cur.Some?
         && (a.cur.Some? ==> Same(lines, drop, a.cur.value, b.cur.value))
         && SameAll(lines, drop, Rest(a.peers, gone), b.peers)
  }

  /** Closing the open blocks of both parses gives the same peers. */
  lemma FollowsFlush(a: Parse, b: Parse, lines: seq<Line>, drop: seq<bool>, gone: set<nat>, end: int, end': int)
    requires |lines| == |drop| && Follows(a, b, lines, drop, gone)
    ensures SameAll(lines, drop, Rest(Flush(a, end), gone), Flush(b, end'))
  {
    hide Rest, Heir;
    if a.cur.Some? { RestSnoc(a.peers, a.cur.value.(end := end), gone); }
  }

  lemma FollowsKept(a: Parse, b: Parse, lines: seq<Line>, i: nat, kept: seq<Line>, k: nat, drop: seq<bool>, gone: set<nat>)
    requires i < |lines| == |drop| && k < |kept| && lines[i] == kept[k] && Follows(a, b, lines, drop, gone)
    requires (a.cur.Some? ==> a.section == PEER) && (b.cur.Some? ==> b.section == PEER)
    requires Heir(lines, drop, i) == if k > 0 then kept[k - 1].comment else ""
    requires var a' := Step(a, lines, i); !(a'.cur.Some? && |a'.peers| in gone)
    ensures Follows(Step(a, lines, i), Step(b, kept, k), lines, drop, gone)
  {
    hide Rest, Heir;
    FollowsFlush(a, b, lines, drop, gone, i - 1, k - 1);
  }

  lemma FollowsDropped(a: Parse, b: Parse, lines: seq<Line>, i: nat, drop: seq<bool>, gone: set<nat>)
    requires i < |lines| == |drop| && Follows(a, b, lines, drop, gone) && (a.cur.Some? ==> a.section == PEER)
    requires var a' := Step(a, lines, i); (a'.cur.Some? && |a'.peers| in gone) || Neutral(lines[i])
    ensures Follows(Step(a, lines, i), b, lines, drop, gone)
  {
    hide Rest, Heir;
    FollowsFlush(a, b, lines, drop, gone, i - 1, 0);
  }

  /** The parse of a prefix does not depend on what follows. */
  lemma {:induction false} PrefixParse(a: seq<Line>, b: seq<Line>, n: nat)
    requires n <= |a| <= |b| && b[..|a|] == a
    ensures ParseTo(b, n) == ParseTo(a, n)
  {
    if n > 0 {
      PrefixParse(a, b, n - 1);
      SamePrefixStep(ParseTo(a, n - 1), a, b, n - 1);
    }
  }

  lemma SamePrefixStep(p: Parse, a: seq<Line>, b: seq<Line>, i: nat)
    requires i < |a| <= |b| && b[..|a|] == a
    ensures Step(p, a, i) == Step(p, b, i)
  {
    assert b[i] == b[..|a|][i];
    assert i > 0 ==> b[i - 1] == b[..|a|][i - 1];
  }

  lemma {:induction false} DroppedParse(lines: seq<Line>, drop: seq<bool>, gone: set<nat>, n: nat)
    requires n <= |lines| == |drop| && DropsBlocks(lines, drop, gone)
    ensures var kept := Keep(lines, drop, n);
            Follows(ParseTo(lines, n), ParseTo(kept, |kept|), lines, drop, gone)
  {
    hide DropsBlocks, ParseTo, Follows;
    if n > 0 {
      DroppedParse(lines, drop, gone, n - 1);
      DroppedStep(lines, drop, gone, n, Keep(lines, drop, n - 1));
    } else {
      StartFollows(lines, drop, gone);
    }
  }

  lemma StartFollows(lines: seq<Line>, drop: seq<bool>, gone: set<nat>)
    requires |lines| == |drop|
    ensures Follows(ParseTo(lines, 0), ParseTo([], 0), lines, drop, gone)
  {
  }

  lemma DroppedStep(lines: seq<Line>, drop: seq<bool>, gone: set<nat>, n: nat, kept: seq<Line>)
    requires 0 < n <= |lines| == |drop| && DropsBlocks(lines, drop, gone) && kept == Keep(lines, drop, n - 1)
    requires Follows(ParseTo(lines, n - 1), ParseTo(kept, |kept|), lines, drop, gone)
    ensures var kept' := if drop[n - 1] then kept else kept + [lines[n - 1]];
            Follows(ParseTo(lines, n), ParseTo(kept', |kept'|), lines, drop, gone)
  {
    hide Follows;
    var a, b := ParseTo(lines, n - 1), ParseTo(kept, |kept|);
    if drop[n - 1] {
      FollowsDropped(a, b, lines, n - 1, drop, gone);
    } else {
      PrefixParse(kept, kept + [lines[n - 1]], |kept|);
      FollowsKept(a, b, lines, n - 1, kept + [lines[n - 1]], |kept|, drop, gone);
    }
  }

  /** Dropping whole blocks, and lines that set nothing, leaves exactly the other peers,
      in order, each with the comment it then finds, and the interface parameters. */
  lemma DropTheorem(lines: seq<Line>, drop: seq<bool>, gone: set<nat>)
    requires |lines| == |drop| && DropsBlocks(lines, drop, gone)
    ensures var kept := Keep(lines, drop, |lines|);
            && SameAll(lines, drop, Rest(Peers(lines), gone), Peers(kept))
            && Without(Peers(kept), {}) == Without(Peers(lines), gone)
            && Params(kept) == Params(lines)
  {
    hide DropsBlocks, Rest, Without, SameAll;
    DroppedParse(lines, drop, gone, |lines|);
    var kept := Keep(lines, drop, |lines|);
    FollowsFlush(ParseTo(lines, |lines|), ParseTo(kept, |kept|), lines, drop, gone, |lines| - 1, |kept| - 1);
    SameSeen(lines, drop, Peers(lines), gone, Peers(kept));
  }

  // --- removing blocks --------------------------------------------------------------------

  /** Lines that carry a `# peer:` mark or nothing at all set nothing. */
  ghost predicate Classified(lines: seq<Line>) {
    forall i :: 0 <= i < |lines| && (lines[i].mark || lines[i].blank) ==> Neutral(lines[i])
  }

  /** Where the removers start cutting: the header, the `# peer:` line before it, and a
      blank line before that. */
  function DropFrom(lines: seq<Line>, start: nat): (from: nat)
    requires start < |lines|
    ensures from <= start
  {
    var f := if start > 0 && lines[start - 1].mark then start - 1 else start;
    if f > 0 && lines[f - 1].blank then f - 1 else f
  }

  lemma DropFromNeutral(lines: seq<Line>, start: nat, i: nat)
    requires start < |lines| && Classified(lines) && DropFrom(lines, start) <= i < start
    ensures Neutral(lines[i])
  {
  }

  /** The lines the removers cut for one block. */
  ghost predicate Cuts(lines: seq<Line>, i: nat, e: Entry) {
    e.start < |lines| && DropFrom(lines, e.start) <= i <= e.end
  }

  /** The marks the bulk remover sets for the blocks in `gone`. */
  ghost predicate MarksBlocks(lines: seq<Line>, drop: seq<bool>, gone: set<nat>) {
    && |drop| == |lines|
    && forall i :: 0 <= i < |lines| ==>
         (drop[i] <==> exists j :: j in gone && j < |Peers(lines)| && Cuts(lines, i, Peers(lines)[j]))
  }

  lemma MarksDropBlocks(lines: seq<Line>, drop: seq<bool>, gone: set<nat>)
    requires Classified(lines) && MarksBlocks(lines, drop, gone)
    ensures DropsBlocks(lines, drop, gone)
  {
    forall i | 0 <= i < |lines|
      ensures var p := ParseTo(lines, i + 1);
              var inside := p.cur.Some? && |p.peers| in gone;
              (inside ==> drop[i]) && (drop[i] ==> inside || Neutral(lines[i]))
    {
      MarkedLine(lines, drop, gone, i);
    }
  }

  lemma MarkedLine(lines: seq<Line>, drop: seq<bool>, gone: set<nat>, i: nat)
    requires Classified(lines) && MarksBlocks(lines, drop, gone) && i < |lines|
    ensures var p := ParseTo(lines, i + 1);
            var inside := p.cur.Some? && |p.peers| in gone;
            (inside ==> drop[i]) && (drop[i] ==> inside || Neutral(lines[i]))
  {
    var p := ParseTo(lines, i + 1);
    var peers := Peers(lines);
    if p.cur.Some? && |p.peers| in gone {
      BlockExists(lines, i, |p.peers|);
      BlockLines(lines, i, |p.peers|);
      assert Cuts(lines, i, peers[|p.peers|]);
    } else if drop[i] {
      var j :| j in gone && j < |peers| && Cuts(lines, i, peers[j]);
      BlockLines(lines, i, j);
      DropFromNeutral(lines, peers[j].start, i);
    }
  }

  // --- comments that survive -------------------------------------------------------------------

  /** A block starts at a header and has the comment of the line before it. */
  predicate Headed(lines: seq<Line>, e: Entry, n: nat)
    requires n <= |lines|
  {
    && e.start < n && lines[e.start].section == Some(PEER)
    && e.comment == if e.start > 0 then lines[e.start - 1].comment else ""
  }

  ghost predicate HeadersTo(lines: seq<Line>, n: nat)
    requires n <= |lines|
  {
    var p := ParseTo(lines, n);
    && (forall j :: 0 <= j < |p.peers| ==> Headed(lines, p.peers[j], n))
    && (p.cur.Some? ==> Headed(lines, p.cur.value, n))
  }

  lemma NoHeaders(lines: seq<Line>)
    ensures HeadersTo(lines, 0)
  {
  }

  lemma StepHeaded(p: Parse, lines: seq<Line>, i: nat)
    requires i < |lines|
    requires (forall j :: 0 <= j < |p.peers| ==> Headed(lines, p.peers[j], i)) && (p.cur.Some? ==> Headed(lines, p.cur.value, i))
    ensures var q := Step(p, lines, i);
      && (forall j :: 0 <= j < |q.peers| ==> Headed(lines, q.peers[j], i + 1))
      && (q.cur.Some? ==> Headed(lines, q.cur.value, i + 1))
  {
  }

  lemma {:induction false} HeadersHold(lines: seq<Line>, n: nat)
    requires n <= |lines|
    ensures HeadersTo(lines, n)
  {
    hide ParseTo, Step;
    if n > 0 {
      HeadersHold(lines, n - 1);
      LastInBlock(lines, n - 1);
      StepHeaded(ParseTo(lines, n - 1), lines, n - 1);
    } else {
      NoHeaders(lines);
    }
  }

  /** The block before the `j`th one ends where it starts, and is cut. */
  predicate Exposed(peers: seq<Entry>, gone: set<nat>, j: nat)
    requires j < |peers|
  {
    j > 0 && j - 1 in gone && peers[j - 1].end + 1 == peers[j].start
  }

  /** A line that a header follows belongs to the block before it, or to none. */
  lemma BeforeHeader(lines: seq<Line>, j: nat, g: nat)
    requires j < |Peers(lines)| && g < |Peers(lines)| && g != j
    requires var h := Peers(lines)[j].start; h > 0 && Peers(lines)[g].start <= h - 1 <= Peers(lines)[g].end
    ensures g == j - 1 && Peers(lines)[g].end + 1 == Peers(lines)[j].start
  {
    hide Peers;
    var h := Peers(lines)[j].start;
    HeadersHoldPeers(lines, j);
    BlockLines(lines, h - 1, g);
    BlockLines(lines, h, j);
    BlockLines(lines, h, g);
    assert InBlock(lines, h - 1, g) && InBlock(lines, h, j);
    var p := ParseTo(lines, h);
    assert ParseTo(lines, h + 1) == Step(p, lines, h);
  }

  lemma HeadersHoldPeers(lines: seq<Line>, j: nat)
    requires j < |Peers(lines)|
    ensures Headed(lines, Peers(lines)[j], |lines|) && Peers(lines)[j].start <= Peers(lines)[j].end < |lines|
  {
    HeadersHold(lines, |lines|);
    BlocksHold(lines, |lines|);
  }

  /** Unless the block before it is cut, the line before a kept block's header is kept. */
  lemma SparedUnlessExposed(lines: seq<Line>, drop: seq<bool>, gone: set<nat>, j: nat)
    requires Classified(lines) && MarksBlocks(lines, drop, gone)
    requires j < |Peers(lines)| && j !in gone && !Exposed(Peers(lines), gone, j)
    ensures var h := Peers(lines)[j].start; 0 < h <= |drop| ==> !drop[h - 1]
  {
    hide Peers, Classified;
    var peers := Peers(lines);
    var h := peers[j].start;
    HeadersHoldPeers(lines, j);
    if h > 0 && drop[h - 1] {
      var g :| g in gone && g < |peers| && Cuts(lines, h - 1, peers[g]);
      HeadersHoldPeers(lines, g);
      if peers[g].start <= h - 1 {
        BeforeHeader(lines, j, g);
      } else {
        SameStart(lines, j, g);
        DropFromNeutral(lines, peers[g].start, h);
      }
      assert false;
    }
  }

  /** A peer keeps its comment unless the block before it is cut. */
  lemma HeirUnlessExposed(lines: seq<Line>, drop: seq<bool>, gone: set<nat>, j: nat)
    requires Classified(lines) && |drop| == |lines| && MarksBlocks(lines, drop, gone)
    requires j < |Peers(lines)| && j !in gone && !Exposed(Peers(lines), gone, j)
    ensures Peers(lines)[j].start <= |lines|
    ensures Heir(lines, drop, Peers(lines)[j].start) == Peers(lines)[j].comment
  {
    hide Peers, Classified, MarksBlocks, Exposed;
    HeadersHoldPeers(lines, j);
    SparedUnlessExposed(lines, drop, gone, j);
  }

  lemma SameStart(lines: seq<Line>, j: nat, g: nat)
    requires j < |Peers(lines)| && g < |Peers(lines)| && g != j
    ensures Peers(lines)[j].start != Peers(lines)[g].start
  {
    hide Peers;
    HeadersHoldPeers(lines, j);
    HeadersHoldPeers(lines, g);
    BlockLines(lines, Peers(lines)[j].start, j);
    BlockLines(lines, Peers(lines)[j].start, g);
  }

  /** The positions below `n` that stay. */
  function Positions(n: nat, gone: set<nat>): (r: seq<nat>)
    ensures forall i :: 0 <= i < |r| ==> r[i] < n && r[i] !in gone
    ensures forall i, k :: 0 <= i < k < |r| ==> r[i] < r[k]
  {
    if n == 0 then [] else Positions(n - 1, gone) + if n - 1 in gone then [] else [n - 1]
  }

  lemma {:induction false} RestAt(peers: seq<Entry>, gone: set<nat>)
    ensures |Rest(peers, gone)| == |Positions(|peers|, gone)|
    ensures forall i :: 0 <= i < |Rest(peers, gone)| ==> Rest(peers, gone)[i] == peers[Positions(|peers|, gone)[i]]
  {
    if peers != [] { RestAt(peers[..|peers| - 1], gone); }
  }

  /** The same peer after a cut, with the comment it then finds. */
  predicate Stays(lines: seq<Line>, drop: seq<bool>, j: nat, now: Entry)
    requires |lines| == |drop| && j < |Peers(lines)|
  {
    Same(lines, drop, Peers(lines)[j], now)
  }

  ghost predicate AllStay(lines: seq<Line>, drop: seq<bool>, gone: set<nat>, now: seq<Entry>)
    requires |lines| == |drop|
  {
    var pos := Positions(|Peers(lines)|, gone);
    |now| == |pos| && forall i :: 0 <= i < |pos| ==> Stays(lines, drop, pos[i], now[i])
  }

  /** Cutting blocks leaves the other peers, each with the comment it then finds. */
  lemma CutsStay(lines: seq<Line>, drop: seq<bool>, gone: set<nat>)
    requires Classified(lines) && |lines| == |drop| && MarksBlocks(lines, drop, gone)
    ensures AllStay(lines, drop, gone, Peers(Keep(lines, drop, |lines|)))
  {
    hide Peers, Classified, MarksBlocks, Rest, Positions, DropsBlocks, Same;
    MarksDropBlocks(lines, drop, gone);
    DropTheorem(lines, drop, gone);
    RestAt(Peers(lines), gone);
  }

  // --- appending a block --------------------------------------------------------------------

  /** The six lines an appended peer adds: a blank, its comment, its header, its two
      settings and the end of the file. */
  ghost predicate PeerTail(tail: seq<Line>, key: string, allowed: string) {
    && |tail| == 6
    && Neutral(tail[0]) && Neutral(tail[1]) && tail[2].section == Some(PEER)
    && tail[3].section.None? && tail[3].key == Some(key) && tail[3].allowed.None?
    && tail[4].section.None? && tail[4].key.None? && tail[4].allowed == Some(allowed)
    && Neutral(tail[5])
  }

  /** Two entries that differ at most in where their block ends. */
  predicate SameButEnd(e: Entry, f: Entry) { e.(end := 0) == f.(end := 0) }

  ghost predicate Appends(before: seq<Entry>, after: seq<Entry>, e: Entry) {
    && |after| == |before| + 1 && after[|before|] == e
    && forall j :: 0 <= j < |before| ==> SameButEnd(before[j], after[j])
  }

  lemma NeutralStep(p: Parse, lines: seq<Line>, i: nat)
    requires i < |lines| && Neutral(lines[i])
    ensures Step(p, lines, i) == p
  {
  }

  /** A line that sets nothing at the end only moves the end of the last block. */
  lemma NeutralEnd(lines: seq<Line>, l: Line)
    requires Neutral(l)
    ensures ParseTo(lines + [l], |lines| + 1) == ParseTo(lines, |lines|)
    ensures Params(lines + [l]) == Params(lines)
    ensures |Peers(lines + [l])| == |Peers(lines)|
    ensures forall j :: 0 <= j < |Peers(lines)| ==> SameButEnd(Peers(lines)[j], Peers(lines + [l])[j])
  {
    PrefixParse(lines, lines + [l], |lines|);
    NeutralStep(ParseTo(lines, |lines|), lines + [l], |lines|);
  }

  /** The parse after an appended block: the old peers, then the new one. */
  lemma AppendParse(base: seq<Line>, tail: seq<Line>, key: string, allowed: string)
    requires PeerTail(tail, key, allowed)
    ensures Appends(Peers(base), Peers(base + tail), Entry(key, allowed, tail[1].comment, |base| + 2, |base| + 5))
    ensures Params(base + tail) == Params(base)
  {
    var all, n := base + tail, |base|;
    PrefixParse(base, all, n);
    var p := ParseTo(base, n);
    NeutralStep(p, all, n);
    NeutralStep(p, all, n + 1);
    assert ParseTo(all, n + 2) == p;
    HeaderStep(p, all, n + 2);
    var e := Open(all, n + 2);
    var q := Parse(PEER, Some(e), Flush(p, n + 1), p.params);
    assert ParseTo(all, n + 3) == q;
    SettingStep(q, e, all, n + 3);
    var e1 := e.(key := key);
    assert ParseTo(all, n + 4) == q.(cur := Some(e1));
    SettingStep(q.(cur := Some(e1)), e1, all, n + 4);
    var e2 := e1.(allowed := allowed);
    assert ParseTo(all, n + 5) == q.(cur := Some(e2));
    NeutralStep(q.(cur := Some(e2)), all, n + 5);
    assert ParseTo(all, n + 6) == q.(cur := Some(e2));
  }

  lemma HeaderStep(p: Parse, lines: seq<Line>, i: nat)
    requires i < |lines| && lines[i].section == Some(PEER)
    ensures Step(p, lines, i) == Parse(PEER, Some(Open(lines, i)), Flush(p, i - 1), p.params)
  {
  }

  lemma SettingStep(p: Parse, e: Entry, lines: seq<Line>, i: nat)
    requires i < |lines| && lines[i].section.None? && p.section == PEER && p.cur == Some(e)
    ensures Step(p, lines, i) == p.(cur := Some(Set(e, lines[i])))
  {
    assert PEER != INTERFACE;
  }
}
