/** Removing peers from `gw0.conf` and adding one, as rewrites of the file's text. */
module PeerEdit {
  import opened Wrappers
  import opened Text
  import opened ConfLines
  import opened PeerConf

  // --- the removers ------------------------------------------------------------------------

  /** The positions of the peers with one of the keys. */
  function WithKeys(peers: seq<Entry>, keys: set<string>): set<nat> {
    set j: nat | j < |peers| && peers[j].key in keys
  }

  /** The lines cut for the blocks in `gone`. */
  ghost function Marks(lines: seq<Line>, gone: set<nat>): (drop: seq<bool>)
    ensures MarksBlocks(lines, drop, gone)
  {
    seq(|lines|, i requires 0 <= i < |lines| =>
      exists j :: j in gone && j < |Peers(lines)| && Cuts(lines, i, Peers(lines)[j]))
  }

  /** The text without the blocks in `gone`. */
  ghost function Cut(raw: string, gone: set<nat>): string {
    var lines := Split(raw, '\n');
    Join(Keep(lines, Marks(LinesOf(raw), gone), |lines|), '\n')
  }

  ghost predicate CutSoFar(lines: seq<Line>, peers: seq<Entry>, keys: set<string>, n: nat, i: nat) {
    exists j: nat :: j < n && j < |peers| && peers[j].key in keys && Cuts(lines, i, peers[j])
  }

  /** The marking loop of the bulk remover. */
  method MarkLines(lines: seq<Line>, peers: seq<Entry>, keys: set<string>) returns (drop: array<bool>)
    requires forall j :: 0 <= j < |peers| ==> peers[j].start <= peers[j].end < |lines|
    ensures fresh(drop) && drop.Length == |lines|
    ensures forall i :: 0 <= i < |lines| ==> (drop[i] <==> CutSoFar(lines, peers, keys, |peers|, i))
  {
    drop := new bool[|lines|](_ => false);
    for j := 0 to |peers|
      invariant forall i :: 0 <= i < |lines| ==> (drop[i] <==> CutSoFar(lines, peers, keys, j, i))
    {
      var e := peers[j];
      if e.key in keys {
        var k := DropFrom(lines, e.start);
        while k <= e.end && k < |lines|
          invariant DropFrom(lines, e.start) <= k <= e.end + 1
          invariant forall i :: 0 <= i < |lines| ==>
            (drop[i] <==> CutSoFar(lines, peers, keys, j, i) || DropFrom(lines, e.start) <= i < k)
        {
          drop[k] := true;
          k := k + 1;
        }
      }
      MarkMore(lines, peers, keys, j);
    }
  }

  lemma MarkMore(lines: seq<Line>, peers: seq<Entry>, keys: set<string>, j: nat)
    requires j < |peers|
    ensures forall i: nat :: CutSoFar(lines, peers, keys, j + 1, i) <==>
              CutSoFar(lines, peers, keys, j, i) || (peers[j].key in keys && Cuts(lines, i, peers[j]))
  {
  }

  /** The copying loop: keep what is not marked. */
  method KeepLines(lines: seq<string>, drop: array<bool>) returns (keep: seq<string>)
    requires drop.Length == |lines|
    ensures keep == Keep(lines, drop[..], |lines|)
  {
    keep := [];
    for i := 0 to |lines|
      invariant keep == Keep(lines, drop[..], i)
    {
      if !drop[i] { keep := keep + [lines[i]]; }
    }
  }

  /** `removePeersByPubkeys`: the new text of the file. */
  method RemovePeersByPubkeys(pc: ParsedConf, keys: set<string>) returns (out: string)
    requires pc == Parsed(pc.raw)
    ensures out == if keys == {} then pc.raw else Cut(pc.raw, WithKeys(pc.peers, keys))
  {
    if keys == {} { return pc.raw; }
    var lines := Split(pc.raw, '\n');
    var all := LinesOf(pc.raw);
    BlocksInside(all);
    var drop := MarkLines(all, pc.peers, keys);
    MarksAre(all, keys, drop[..]);
    var keep := KeepLines(lines, drop);
    out := Join(keep, '\n');
  }

  lemma BlocksInside(lines: seq<Line>)
    ensures forall j :: 0 <= j < |Peers(lines)| ==> Peers(lines)[j].start <= Peers(lines)[j].end < |lines|
  {
    BlocksHold(lines, |lines|);
  }

  lemma MarksAre(lines: seq<Line>, keys: set<string>, drop: seq<bool>)
    requires |drop| == |lines|
    requires forall i :: 0 <= i < |lines| ==> (drop[i] <==> CutSoFar(lines, Peers(lines), keys, |Peers(lines)|, i))
    ensures drop == Marks(lines, WithKeys(Peers(lines), keys))
  {
    var gone := WithKeys(Peers(lines), keys);
    var marks := Marks(lines, gone);
    forall i | 0 <= i < |lines| ensures drop[i] == marks[i] {
      if drop[i] {
        var j: nat :| j < |Peers(lines)| && Peers(lines)[j].key in keys && Cuts(lines, i, Peers(lines)[j]);
        assert j in gone;
      }
      if marks[i] {
        var j :| j in gone && j < |Peers(lines)| && Cuts(lines, i, Peers(lines)[j]);
      }
    }
  }

  /** The first peer with the key, or the number of peers. */
  function FirstWithKey(peers: seq<Entry>, key: string): (j: nat)
    ensures j <= |peers| && (j < |peers| ==> peers[j].key == key)
    ensures forall i :: 0 <= i < j ==> peers[i].key != key
  {
    if peers == [] || peers[0].key == key then 0 else 1 + FirstWithKey(peers[1..], key)
  }

  /** `removePeerByPubkey`: the new text, or nothing when no block has the key. */
  method RemovePeerByPubkey(pc: ParsedConf, key: string) returns (out: Option<string>)
    requires pc == Parsed(pc.raw)
    ensures var j := FirstWithKey(pc.peers, key);
            out == if j < |pc.peers| then Some(Cut(pc.raw, {j})) else None
  {
    var target := FindPeer(pc.peers, key);
    if target == |pc.peers| { return None; }
    var keep := CutBlock(Split(pc.raw, '\n'), LinesOf(pc.raw), target, pc.peers[target]);
    out := Some(Join(keep, '\n'));
  }

  method FindPeer(peers: seq<Entry>, key: string) returns (target: nat)
    ensures target == FirstWithKey(peers, key)
  {
    target := 0;
    while target < |peers| && peers[target].key != key
      invariant target <= FirstWithKey(peers, key)
    {
      target := target + 1;
    }
  }

  /** Cut one stretch of lines: the block and the comment and blank line before it. */
  method CutBlock(lines: seq<string>, all: seq<Line>, ghost target: nat, e: Entry) returns (keep: seq<string>)
    requires |lines| == |all| && target < |Peers(all)| && e == Peers(all)[target]
    ensures keep == Keep(lines, Marks(all, {target}), |lines|)
  {
    BlocksInside(all);
    CutStretch(lines, all, target);
    var dropFrom := DropFrom(all, e.start);
    var dropTo := e.end;
    keep := lines[..dropFrom] + lines[dropTo + 1..];
  }

  lemma CutStretch(lines: seq<string>, all: seq<Line>, j: nat)
    requires |lines| == |all| && j < |Peers(all)|
    ensures var e := Peers(all)[j];
            && e.start <= e.end < |lines|
            && Keep(lines, Marks(all, {j}), |lines|) == lines[..DropFrom(all, e.start)] + lines[e.end + 1..]
  {
    BlocksInside(all);
    MarksOne(all, j);
    KeepAround(lines, Marks(all, {j}), DropFrom(all, Peers(all)[j].start), Peers(all)[j].end + 1);
  }

  lemma MarksOne(all: seq<Line>, j: nat)
    requires j < |Peers(all)|
    ensures forall i :: 0 <= i < |all| ==> (Marks(all, {j})[i] <==> Cuts(all, i, Peers(all)[j]))
  {
    var drop := Marks(all, {j});
    forall i | 0 <= i < |all| ensures drop[i] <==> Cuts(all, i, Peers(all)[j]) {
      assert j in {j};
    }
  }

  lemma KeepAround(lines: seq<string>, drop: seq<bool>, from: nat, to: nat)
    requires from <= to <= |lines| == |drop|
    requires forall i :: 0 <= i < |lines| ==> (drop[i] <==> from <= i < to)
    ensures Keep(lines, drop, |lines|) == lines[..from] + lines[to..]
  {
    KeepInterval(lines, drop, from, to, |lines|);
    assert lines[to..|lines|] == lines[to..];
  }

  lemma {:induction false} KeepInterval<T>(lines: seq<T>, drop: seq<bool>, from: nat, to: nat, n: nat)
    requires from <= to <= |lines| == |drop| && n <= |lines|
    requires forall i :: 0 <= i < |lines| ==> (drop[i] <==> from <= i < to)
    ensures Keep(lines, drop, n)
            == if n <= from then lines[..n] else if n <= to then lines[..from] else lines[..from] + lines[to..n]
  {
    if n - 1 == to { assert lines[to..n - 1] == []; }
    if n > 0 {
      KeepInterval(lines, drop, from, to, n - 1);
      if n <= from {
        assert lines[..n] == lines[..n - 1] + [lines[n - 1]];
      } else if n > to {
        assert lines[to..n] == lines[to..n - 1] + [lines[n - 1]];
        assert lines[..from] + lines[to..n - 1] + [lines[n - 1]] == lines[..from] + lines[to..n];
      } else if n - 1 == from {
        assert lines[..n - 1] == lines[..from];
      }
    }
  }

  // --- what is left ---------------------------------------------------------------------------

  /** The file's peers as (key, address) pairs, in order. */
  function PeerList(raw: string): seq<(string, string)> { Without(Peers(LinesOf(raw)), {}) }

  lemma {:induction false} KeepMapped(ls: seq<string>, f: string -> Line, drop: seq<bool>, n: nat)
    requires n <= |ls| == |drop|
    ensures Keep(MapLines(ls, f), drop, n) == MapLines(Keep(ls, drop, n), f)
  {
    if n > 0 {
      KeepMapped(ls, f, drop, n - 1);
    }
  }

  lemma {:induction false} KeepFree(ls: seq<string>, drop: seq<bool>, n: nat)
    requires n <= |ls| == |drop| && AllFree(ls, '\n')
    ensures AllFree(Keep(ls, drop, n), '\n')
  {
    if n > 0 {
      KeepFree(ls, drop, n - 1);
    }
  }

  /** Writing kept lines and parsing them again sees those lines. An empty file counts
      as one blank line, which changes nothing. */
  lemma KeptReparsed(keep: seq<string>)
    requires AllFree(keep, '\n')
    ensures Peers(LinesOf(Join(keep, '\n'))) == Peers(ClassifyAll(keep))
    ensures Params(LinesOf(Join(keep, '\n'))) == Params(ClassifyAll(keep))
  {
    if keep == [] {
      EmptyFile();
      assert ClassifyAll([]) == [];
    } else {
      SplitJoin(keep, '\n');
    }
  }

  lemma EmptyFile()
    ensures Peers(LinesOf("")) == [] && Params(LinesOf("")) == map[]
  {
    assert TrimSpace("") == "";
    MarkedNeutral("");
    var lines := LinesOf("");
    assert lines == [Classify("")];
    NeutralStep(START, lines, 0);
    assert ParseTo(lines, 1) == START;
  }

  /** The lines of the file after a cut are those kept; without any, one blank line. */
  lemma CutLines(raw: string, gone: set<nat>)
    ensures var all := LinesOf(raw);
      var kept := Keep(all, Marks(all, gone), |all|);
      LinesOf(Cut(raw, gone)) == if kept == [] then [Classify("")] else kept
  {
    hide Peers, Classify, MarksBlocks;
    var ls := Split(raw, '\n');
    var drop := Marks(LinesOf(raw), gone);
    var keep := Keep(ls, drop, |ls|);
    SplitPiecesFree(raw, '\n');
    KeepFree(ls, drop, |ls|);
    KeepMapped(ls, Classify, drop, |ls|);
    if keep != [] { SplitJoin(keep, '\n'); }
  }

  /** Parsing after a cut gives the other peers, in order and unchanged, each with the comment
      it then finds, and the same interface parameters. */
  lemma CutTheorem(raw: string, gone: set<nat>)
    ensures PeerList(Cut(raw, gone)) == Without(Peers(LinesOf(raw)), gone)
    ensures AllStay(LinesOf(raw), Marks(LinesOf(raw), gone), gone, Peers(LinesOf(Cut(raw, gone))))
    ensures Params(LinesOf(Cut(raw, gone))) == Params(LinesOf(raw))
  {
    hide Peers, Params, Classify, Without, AllStay, Positions, MarksBlocks, Classified;
    var ls := Split(raw, '\n');
    var drop := Marks(LinesOf(raw), gone);
    AllClassified(raw);
    MarksDropBlocks(LinesOf(raw), drop, gone);
    DropTheorem(LinesOf(raw), drop, gone);
    CutsStay(LinesOf(raw), drop, gone);
    SplitPiecesFree(raw, '\n');
    KeepFree(ls, drop, |ls|);
    KeepMapped(ls, Classify, drop, |ls|);
    KeptReparsed(Keep(ls, drop, |ls|));
  }
}
