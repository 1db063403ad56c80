/** Config files as this program writes them: whatever line names a peer stands directly above
    a header. Appending and cutting keep a file so, and in such a file a removal never gives a
    peer another one's name. */
module PeerTidy {
  import opened Wrappers
  import opened Text
  import opened ConfLines
  import opened PeerConf
  import opened PeerEdit
  import opened PeerLaws
  import opened PeerComment
  import opened PeerListing

  predicate IsHeader(l: Line) { l.section == Some(PEER) }

  /** Every line that names a peer stands directly above a header. */
  predicate TidyLines(lines: seq<Line>) {
    forall i :: 0 <= i < |lines| && !Nameless(lines[i].comment) ==> i + 1 < |lines| && IsHeader(lines[i + 1])
  }

  /** Only `# peer:` lines name peers. */
  ghost predicate NamesMarked(lines: seq<Line>) {
    forall i :: 0 <= i < |lines| && !Nameless(lines[i].comment) ==> lines[i].mark
  }

  /** Cutting a header cuts the `# peer:` line above it. */
  lemma MarkGoes(lines: seq<Line>, drop: seq<bool>, gone: set<nat>, n: nat)
    requires Classified(lines) && |lines| == |drop| && MarksBlocks(lines, drop, gone)
    requires 0 < n < |lines| && IsHeader(lines[n]) && drop[n] && lines[n - 1].mark
    ensures drop[n - 1]
  {
    hide Peers, Classified;
    var peers := Peers(lines);
    var g :| g in gone && g < |peers| && Cuts(lines, n, peers[g]);
    if n < peers[g].start {
      DropFromNeutral(lines, peers[g].start, n);
      assert false;
    } else if n > peers[g].start {
      HeaderOpens(lines, n, g);
      assert false;
    } else {
      assert Cuts(lines, n - 1, peers[g]);
    }
  }

  /** No block goes on over a header. */
  lemma HeaderOpens(lines: seq<Line>, n: nat, g: nat)
    requires 0 < n < |lines| && IsHeader(lines[n]) && g < |Peers(lines)|
    ensures !(Peers(lines)[g].start < n <= Peers(lines)[g].end)
  {
    hide Peers, ParseTo;
    if Peers(lines)[g].start < n <= Peers(lines)[g].end {
      BlockLines(lines, n - 1, g);
      BlockLines(lines, n, g);
      LastInBlock(lines, n - 1);
      LastInBlock(lines, n);
      assert false;
    }
  }

  /** Among the first `n` lines, those kept that name a peer stand above a header, but for
      the last of them. */
  ghost predicate TidyTo(lines: seq<Line>, drop: seq<bool>, n: nat)
    requires n <= |lines| == |drop|
  {
    TidyKept(Keep(lines, drop, n), n > 0 && !drop[n - 1])
  }

  /** `open` tells whether the last line may still wait for its header. */
  ghost predicate TidyKept(kept: seq<Line>, open: bool) {
    && (forall i :: 0 <= i < |kept| - 1 && !Nameless(kept[i].comment) ==> IsHeader(kept[i + 1]))
    && (kept != [] && !Nameless(kept[|kept| - 1].comment) ==> open)
  }

  lemma KeepOne(lines: seq<Line>, drop: seq<bool>, n: nat)
    requires 0 < n <= |lines| == |drop|
    ensures Keep(lines, drop, n) == if drop[n - 1] then Keep(lines, drop, n - 1) else Keep(lines, drop, n - 1) + [lines[n - 1]]
  {
  }

  lemma {:induction false} TidyHolds(lines: seq<Line>, drop: seq<bool>, gone: set<nat>, n: nat)
    requires n <= |lines| == |drop| && Classified(lines) && MarksBlocks(lines, drop, gone)
    requires TidyLines(lines) && NamesMarked(lines)
    ensures TidyTo(lines, drop, n)
  {
    hide Nameless, Classified, MarksBlocks;
    if n > 0 {
      TidyHolds(lines, drop, gone, n - 1);
      TidyStep(lines, drop, gone, n);
    }
  }

  lemma TidyStep(lines: seq<Line>, drop: seq<bool>, gone: set<nat>, n: nat)
    requires 0 < n <= |lines| == |drop| && Classified(lines) && MarksBlocks(lines, drop, gone)
    requires TidyLines(lines) && NamesMarked(lines) && TidyTo(lines, drop, n - 1)
    ensures TidyTo(lines, drop, n)
  {
    hide Nameless, Classified, MarksBlocks, Keep;
    KeepOne(lines, drop, n);
    var was, kept := Keep(lines, drop, n - 1), Keep(lines, drop, n);
    forall i | 0 <= i < |kept| && !Nameless(kept[i].comment)
      ensures i + 1 < |kept| ==> IsHeader(kept[i + 1])
      ensures i + 1 == |kept| ==> !drop[n - 1]
    {
      if i < |was| { assert kept[i] == was[i] && !Nameless(was[i].comment); }
      if i + 1 == |was| {
        assert n > 1 && !drop[n - 2];
        KeepOne(lines, drop, n - 1);
        assert was[i] == lines[n - 2];
        if drop[n - 1] {
          MarkGoes(lines, drop, gone, n - 1);
          assert false;
        }
      }
    }
  }

  /** Cutting blocks keeps a file tidy. */
  lemma CutTidy(lines: seq<Line>, drop: seq<bool>, gone: set<nat>)
    requires |lines| == |drop| && Classified(lines) && MarksBlocks(lines, drop, gone)
    requires TidyLines(lines) && NamesMarked(lines)
    ensures TidyLines(Keep(lines, drop, |lines|))
  {
    hide Nameless, Classified, MarksBlocks, Keep;
    var n := |lines|;
    TidyHolds(lines, drop, gone, n);
    var kept := Keep(lines, drop, n);
    forall i | 0 <= i < |kept| && !Nameless(kept[i].comment) ensures i + 1 < |kept| && IsHeader(kept[i + 1]) {
      if i + 1 == |kept| {
        KeepOne(lines, drop, n);
        assert false;
      }
    }
  }

  /** In a tidy file a peer that loses its comment finds no other name. */
  lemma TidyIsSafe(lines: seq<Line>, drop: seq<bool>, gone: set<nat>, sidecar: Records)
    requires |lines| == |drop| && Classified(lines) && MarksBlocks(lines, drop, gone)
    requires TidyLines(lines) && NamesMarked(lines)
    ensures NamesSafe(lines, drop, gone, sidecar)
  {
    hide Nameless, Classified, Peers, TidyLines, NamesMarked;
    forall j | 0 <= j < |Peers(lines)| && j !in gone && Exposed(Peers(lines), gone, j)
      ensures Peers(lines)[j].start <= |lines| && Nameless(Heir(lines, drop, Peers(lines)[j].start))
    {
      HeadersHoldPeers(lines, j);
      HeadersHoldPeers(lines, j - 1);
      var h := Peers(lines)[j].start;
      TidyHolds(lines, drop, gone, h);
      assert Cuts(lines, h - 1, Peers(lines)[j - 1]);
      assert drop[h - 1];
      NamelessNone();
      var kept := Keep(lines, drop, h);
      if kept != [] && !Nameless(kept[|kept| - 1].comment) {
        assert false;
      }
    }
  }

  lemma NamelessNone()
    ensures Nameless("")
  {
  }

  // --- over the text -----------------------------------------------------------------------------

  predicate Tidy(raw: string) { TidyLines(LinesOf(raw)) }

  /** A line with a name in its comment is a `# peer:` line. */
  lemma NameIsMark(ln: string)
    ensures !Nameless(Classify(ln).comment) ==> Classify(ln).mark
  {
    var c := Classify(ln).comment;
    if !Nameless(c) { assert MARK <= c && c != ""; }
  }

  lemma AllMarked(raw: string)
    ensures NamesMarked(LinesOf(raw))
  {
    hide Classify, Nameless;
    var ls := Split(raw, '\n');
    forall i | 0 <= i < |ls| && !Nameless(LinesOf(raw)[i].comment) ensures LinesOf(raw)[i].mark {
      NameIsMark(ls[i]);
    }
  }

  lemma BlankTidy()
    ensures TidyLines([Classify("")])
  {
    hide Classify, Nameless;
    BlankClass();
    NamelessNone();
  }

  lemma CutKeepsTidy(raw: string, gone: set<nat>)
    requires Tidy(raw)
    ensures Tidy(Cut(raw, gone))
  {
    hide Classify, TidyLines, LinesOf, NamesMarked, Classified, MarksBlocks;
    var all := LinesOf(raw);
    AllClassified(raw);
    AllMarked(raw);
    CutTidy(all, Marks(all, gone), gone);
    CutLines(raw, gone);
    BlankTidy();
  }

  lemma TidyConcat(a: seq<Line>, b: seq<Line>)
    requires TidyLines(a) && TidyLines(b)
    ensures TidyLines(a + b)
  {
    hide Nameless;
    var all := a + b;
    forall i | 0 <= i < |all| && !Nameless(all[i].comment) ensures i + 1 < |all| && IsHeader(all[i + 1]) {
      if i < |a| { assert all[i] == a[i] && IsHeader(a[i + 1]); } else { assert all[i] == b[i - |a|]; }
    }
  }

  /** A last line that is no header can go. */
  lemma TidyFront(a: seq<Line>, l: Line)
    requires TidyLines(a + [l]) && !IsHeader(l)
    ensures TidyLines(a)
  {
    hide Nameless;
    var all := a + [l];
    forall i | 0 <= i < |a| && !Nameless(a[i].comment) ensures i + 1 < |a| && IsHeader(a[i + 1]) {
      assert all[i] == a[i] && IsHeader(all[i + 1]);
    }
  }

  lemma BaseTidy(raw: string)
    requires Tidy(raw)
    ensures TidyLines(BaseLines(raw))
  {
    hide Classify, TidyLines, Split;
    if EndsLine(raw) {
      LastLine(raw);
      BlankClass();
      MapAppend(FullLines(raw), [[]], Classify);
      assert MapLines([[]], Classify) == [Classify([])];
      TidyFront(BaseLines(raw), Classify([]));
    }
  }

  lemma TailTidy(p: NewPeer)
    requires WellFormed(p)
    ensures TidyLines(ClassifyAll(NewLines(p)))
  {
    hide Classify, Nameless, NewLines;
    TailClass(p);
    NamelessNone();
  }

  lemma AppendKeepsTidy(raw: string, p: NewPeer)
    requires WellFormed(p) && Tidy(raw)
    ensures Tidy(Appended(raw, p))
  {
    hide Classify, TidyLines, Appended, LinesOf, BaseLines, NewLines;
    BaseTidy(raw);
    TailTidy(p);
    AppendedParse(raw, p);
    TidyConcat(BaseLines(raw), ClassifyAll(NewLines(p)));
  }
}
