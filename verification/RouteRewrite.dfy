/** The pass of update-route-tables.sh over one peer configuration: the line after the marker
    becomes the current AllowedIPs line. Lines are the records awk reads and prints. */
module RouteRewrite {
  import opened Wrappers
  import opened Text
  import PeerConf
  import PeerLaws

  /** The marker line, in two parts so that proofs see its first character. */
  const MARKER := "#" + " AllowedIPs managed by update-route-tables.sh"

  /** `[[:space:]]`. */
  predicate IsAwkSpace(c: char) { c == ' ' || '\t' <= c <= '\r' }

  /** `^[[:space:]]*AllowedIPs[[:space:]]*=`. */
  predicate IsAllowed(line: string) {
    var rest := TrimLeft(line, IsAwkSpace);
    "AllowedIPs" <= rest && "=" <= TrimLeft(rest[10..], IsAwkSpace)
  }

  function AllowedLine(ips: string): string { "AllowedIPs = " + ips }

  /** What the main rule prints. After a marker it fetches the next line itself, so that line
      is dropped or printed without being looked at as a marker. */
  function Body(lines: seq<string>, ips: string): seq<string>
    decreases |lines|
  {
    if lines == [] then []
    else if lines[0] != MARKER then [lines[0]] + Body(lines[1..], ips)
    else if |lines| == 1 then [MARKER, AllowedLine(ips)]
    else [MARKER, AllowedLine(ips)] + (if IsAllowed(lines[1]) then [] else [lines[1]]) + Body(lines[2..], ips)
  }

  function Rewritten(lines: seq<string>, ips: string): seq<string> {
    Body(lines, ips) + (if MARKER in lines then [] else ["", MARKER, AllowedLine(ips)])
  }

  // --- the rules one by one ------------------------------------------------------------------

  lemma BodyCons(line: string, rest: seq<string>, ips: string)
    requires line != MARKER
    ensures Body([line] + rest, ips) == [line] + Body(rest, ips)
  {
    hide IsAllowed, AllowedLine;
    assert ([line] + rest)[1..] == rest;
  }

  lemma BodyLone(ips: string)
    ensures Body([MARKER], ips) == [MARKER, AllowedLine(ips)]
  {
    hide IsAllowed, AllowedLine;
  }

  /** A marker already followed by an AllowedIPs line. */
  lemma BodyPair(line: string, rest: seq<string>, ips: string)
    requires IsAllowed(line)
    ensures Body([MARKER, line] + rest, ips) == [MARKER, AllowedLine(ips)] + Body(rest, ips)
  {
    hide IsAllowed, AllowedLine;
    assert ([MARKER, line] + rest)[2..] == rest;
    assert [MARKER, AllowedLine(ips)] + [] == [MARKER, AllowedLine(ips)];
  }

  /** A marker followed by any other line, even by a marker. */
  lemma BodyFetch(line: string, rest: seq<string>, ips: string)
    requires !IsAllowed(line)
    ensures Body([MARKER, line] + rest, ips) == [MARKER, AllowedLine(ips)] + ([line] + Body(rest, ips))
  {
    hide IsAllowed, AllowedLine;
    assert ([MARKER, line] + rest)[2..] == rest;
    assert [MARKER, AllowedLine(ips)] + [line] + Body(rest, ips) == [MARKER, AllowedLine(ips)] + ([line] + Body(rest, ips));
  }

  lemma Uncons(lines: seq<string>)
    ensures lines != [] ==> lines == [lines[0]] + lines[1..]
    ensures |lines| >= 2 ==> lines == [lines[0], lines[1]] + lines[2..]
  {
  }

  /** The line written is one the next pass recognises, and not a marker. */
  lemma WrittenIsAllowed(ips: string)
    ensures IsAllowed(AllowedLine(ips)) && AllowedLine(ips) != MARKER && !IsAllowed(MARKER) && !IsAllowed("")
  {
    var line := AllowedLine(ips);
    assert line[0] == 'A' && Lead(line, IsAwkSpace) == 0;
    assert line[..10] == "AllowedIPs";
    var rest := line[10..];
    assert rest == " = " + ips && rest[1..][0] == '=';
    assert Lead(rest[1..], IsAwkSpace) == 0 && Lead(rest, IsAwkSpace) == 1;
    assert MARKER[0] == '#' && Lead(MARKER, IsAwkSpace) == 0;
  }

  // --- the program -------------------------------------------------------------------------------

  /** What is printed for the lines from the `i`th on. */
  lemma BodyAt(lines: seq<string>, i: nat, ips: string)
    requires i < |lines|
    ensures lines[i] != MARKER ==> Body(lines[i..], ips) == [lines[i]] + Body(lines[i + 1..], ips)
    ensures lines[i] == MARKER && i + 1 == |lines| ==> Body(lines[i..], ips) == [MARKER, AllowedLine(ips)]
    ensures lines[i] == MARKER && i + 1 < |lines| && IsAllowed(lines[i + 1]) ==>
      Body(lines[i..], ips) == [MARKER, AllowedLine(ips)] + Body(lines[i + 2..], ips)
    ensures lines[i] == MARKER && i + 1 < |lines| && !IsAllowed(lines[i + 1]) ==>
      Body(lines[i..], ips) == [MARKER, AllowedLine(ips)] + ([lines[i + 1]] + Body(lines[i + 2..], ips))
  {
    hide Body, IsAllowed, AllowedLine;
    if lines[i] != MARKER {
      assert lines[i..] == [lines[i]] + lines[i + 1..];
      BodyCons(lines[i], lines[i + 1..], ips);
    } else if i + 1 == |lines| {
      assert lines[i..] == [MARKER];
      BodyLone(ips);
    } else {
      assert lines[i..] == [MARKER, lines[i + 1]] + lines[i + 2..];
      if IsAllowed(lines[i + 1]) { BodyPair(lines[i + 1], lines[i + 2..], ips); } else { BodyFetch(lines[i + 1], lines[i + 2..], ips); }
    }
  }

  /** One step of the printing: `out` and what is printed for the rest stay the whole. */
  lemma Printed(out: seq<string>, more: seq<string>, rest: seq<string>, all: seq<string>)
    requires out + (more + rest) == all
    ensures (out + more) + rest == all
  {
    assert (out + more) + rest == out + (more + rest);
  }

  /** The awk program. */
  method Rewrite(lines: seq<string>, ips: string) returns (out: seq<string>)
    ensures out == Rewritten(lines, ips)
    ensures Settled(lines, ips) && PeerLaws.Printable(ips) ==> ListsRead(out, ips)
  {
    hide Body, IsAllowed, AllowedLine, Settled, ListsRead, PeerLaws.Printable;
    out := [];
    var i, seenMarker := 0, false;
    ghost var all := Body(lines, ips);
    assert lines[0..] == lines;
    while i < |lines|
      invariant 0 <= i <= |lines|
      invariant out + Body(lines[i..], ips) == all
      invariant seenMarker <==> MARKER in lines[..i]
    {
      BodyAt(lines, i, ips);
      assert lines[..i + 1] == lines[..i] + [lines[i]];
      if lines[i] == MARKER {
        var written := [MARKER, AllowedLine(ips)];
        seenMarker := true;
        i := i + 1;
        if i < |lines| {
          assert lines[..i + 1] == lines[..i] + [lines[i]];
          ghost var rest := Body(lines[i + 1..], ips);
          if !IsAllowed(lines[i]) {
            Printed(out, written, [lines[i]] + rest, all);
            out := out + written;
            Printed(out, [lines[i]], rest, all);
            out := out + [lines[i]];
          } else {
            Printed(out, written, rest, all);
            out := out + written;
          }
          i := i + 1;
        } else {
          out := out + written;
          BodyEnd(lines, ips);
        }
      } else {
        Printed(out, [lines[i]], Body(lines[i + 1..], ips), all);
        out := out + [lines[i]];
        i := i + 1;
      }
    }
    BodyEnd(lines, ips);
    assert lines[..i] == lines && lines[i..] == lines[|lines|..];
    if !seenMarker { out := out + ["", MARKER, AllowedLine(ips)]; }
    if Settled(lines, ips) && PeerLaws.Printable(ips) { RewriteReads(lines, ips); }
  }

  lemma BodyEnd(lines: seq<string>, ips: string)
    ensures Body(lines[|lines|..], ips) == []
  {
  }

  lemma {:induction false} BodyHasMarker(lines: seq<string>, ips: string)
    ensures MARKER in Body(lines, ips) <==> MARKER in lines
    decreases |lines|
  {
    hide Body, IsAllowed, AllowedLine;
    Uncons(lines);
    if lines == [] {
      BodyEnd([], ips);
    } else if lines[0] != MARKER {
      BodyHasMarker(lines[1..], ips);
      BodyCons(lines[0], lines[1..], ips);
    } else if |lines| == 1 {
      assert lines == [MARKER];
      BodyLone(ips);
    } else if IsAllowed(lines[1]) {
      BodyPair(lines[1], lines[2..], ips);
    } else {
      BodyFetch(lines[1], lines[2..], ips);
    }
  }

  // --- only AllowedIPs lines after a marker change ---------------------------------------------------

  /** The lines that are not an AllowedIPs line directly after a marker; `after` tells whether
      the line before the first one is a marker. */
  function Others(lines: seq<string>, after: bool): seq<string> {
    if lines == [] then []
    else (if after && IsAllowed(lines[0]) then [] else [lines[0]]) + Others(lines[1..], lines[0] == MARKER)
  }

  lemma OthersCons(line: string, rest: seq<string>, after: bool)
    ensures Others([line] + rest, after) ==
      (if after && IsAllowed(line) then [] else [line]) + Others(rest, line == MARKER)
  {
    hide IsAllowed;
    assert ([line] + rest)[1..] == rest;
  }

  /** A marker and the AllowedIPs line after it. */
  lemma OthersPair(line: string, rest: seq<string>, after: bool)
    requires IsAllowed(line)
    ensures Others([MARKER, line] + rest, after) == [MARKER] + Others(rest, false)
  {
    hide IsAllowed, Others;
    WrittenIsAllowed("");
    OthersCons(MARKER, [line] + rest, after);
    OthersCons(line, rest, true);
    assert [MARKER, line] + rest == [MARKER] + ([line] + rest);
    assert [] + Others(rest, false) == Others(rest, false);
  }

  /** A marker and another line after it. */
  lemma OthersFetch(line: string, rest: seq<string>, after: bool)
    requires !IsAllowed(line)
    ensures Others([MARKER, line] + rest, after) == [MARKER] + ([line] + Others(rest, line == MARKER))
  {
    hide IsAllowed, Others;
    WrittenIsAllowed("");
    OthersCons(MARKER, [line] + rest, after);
    OthersCons(line, rest, true);
    assert [MARKER, line] + rest == [MARKER] + ([line] + rest);
  }

  lemma OthersLone(after: bool)
    ensures Others([], after) == [] && Others([MARKER], after) == [MARKER]
  {
    hide IsAllowed;
    WrittenIsAllowed("");
  }

  lemma {:induction false} BodyKeepsOthers(lines: seq<string>, ips: string, after: bool)
    ensures Others(Body(lines, ips), after) == Others(lines, after)
    decreases |lines|
  {
    hide Body, Others, IsAllowed, AllowedLine;
    Uncons(lines);
    WrittenIsAllowed(ips);
    var written := AllowedLine(ips);
    if lines == [] {
      BodyEnd([], ips);
    } else if lines[0] != MARKER {
      var rest := lines[1..];
      BodyKeepsOthers(rest, ips, false);
      BodyCons(lines[0], rest, ips);
      OthersCons(lines[0], rest, after);
      OthersCons(lines[0], Body(rest, ips), after);
    } else if |lines| == 1 {
      assert lines == [MARKER];
      BodyLone(ips);
      OthersLone(after);
      OthersLone(false);
      OthersPair(written, [], after);
      assert [MARKER, written] + [] == [MARKER, written];
    } else if IsAllowed(lines[1]) {
      var rest := lines[2..];
      BodyKeepsOthers(rest, ips, false);
      BodyPair(lines[1], rest, ips);
      OthersPair(lines[1], rest, after);
      OthersPair(written, Body(rest, ips), after);
    } else {
      var line, rest := lines[1], lines[2..];
      BodyKeepsOthers(rest, ips, line == MARKER);
      BodyFetch(line, rest, ips);
      OthersFetch(line, rest, after);
      OthersPair(written, [line] + Body(rest, ips), after);
      OthersCons(line, Body(rest, ips), false);
    }
  }

  /** Every line stays, in order, but the AllowedIPs lines directly after a marker; the only
      ones added are those, and the blank line and the marker of a file that had no marker. */
  lemma RewriteKeepsOthers(lines: seq<string>, ips: string)
    ensures Others(Rewritten(lines, ips), false) == Others(lines, false) + (if MARKER in lines then [] else ["", MARKER])
  {
    hide Body, Others, IsAllowed, AllowedLine;
    BodyKeepsOthers(lines, ips, false);
    if MARKER in lines {
      assert Body(lines, ips) + [] == Body(lines, ips) && Others(lines, false) + [] == Others(lines, false);
    } else {
      NoMarkerBody(lines, [], ips);
      BodyEnd([], ips);
      assert lines + [] == lines;
      NoMarkerOthers(lines, ["", MARKER, AllowedLine(ips)]);
      TailOthers(ips);
    }
  }

  lemma {:induction false} NoMarkerOthers(lines: seq<string>, tail: seq<string>)
    requires MARKER !in lines
    ensures Others(lines + tail, false) == Others(lines, false) + Others(tail, false)
  {
    hide IsAllowed, Others;
    if lines == [] {
      assert lines + tail == tail && Others(lines, false) == [] by { OthersLone(false); }
      assert [] + Others(tail, false) == Others(tail, false);
    } else {
      Uncons(lines);
      assert lines + tail == [lines[0]] + (lines[1..] + tail);
      NoMarkerOthers(lines[1..], tail);
      OthersCons(lines[0], lines[1..], false);
      OthersCons(lines[0], lines[1..] + tail, false);
    }
  }

  lemma TailOthers(ips: string)
    ensures Others(["", MARKER, AllowedLine(ips)], false) == ["", MARKER]
  {
    hide Others, IsAllowed, AllowedLine;
    WrittenIsAllowed(ips);
    var pair := [MARKER, AllowedLine(ips)];
    OthersCons("", pair, false);
    OthersPair(AllowedLine(ips), [], false);
    OthersLone(false);
    assert pair + [] == pair && [""] + pair == ["", MARKER, AllowedLine(ips)];
  }

  // --- settled files -----------------------------------------------------------------------------------

  /** Two marker lines in a row are harmless only if the current AllowedIPs line follows. */
  predicate Settled(lines: seq<string>, ips: string) {
    forall i :: 0 <= i < |lines| ==> Harmless(lines, ips, i)
  }

  predicate Harmless(lines: seq<string>, ips: string, i: nat) {
    i + 1 < |lines| && lines[i] == MARKER && lines[i + 1] == MARKER ==>
      i + 2 < |lines| && lines[i + 2] == AllowedLine(ips)
  }

  lemma SettledTail(lines: seq<string>, ips: string, k: nat)
    requires k <= |lines|
    requires forall i :: 0 <= i < k ==> Harmless(lines, ips, i)
    ensures Settled(lines, ips) <==> Settled(lines[k..], ips)
  {
    hide AllowedLine;
    var tail := lines[k..];
    forall i | 0 <= i < |tail| ensures Harmless(tail, ips, i) <==> Harmless(lines, ips, k + i) {}
    if Settled(tail, ips) {
      forall i | 0 <= i < |lines| ensures Harmless(lines, ips, i) {
        if i >= k { assert Harmless(tail, ips, i - k); }
      }
    }
  }

  lemma SettledCons(line: string, rest: seq<string>, ips: string)
    requires line != MARKER
    ensures Settled([line] + rest, ips) <==> Settled(rest, ips)
  {
    hide Settled, AllowedLine;
    SettledTail([line] + rest, ips, 1);
    assert ([line] + rest)[1..] == rest;
  }

  lemma SettledPair(line: string, rest: seq<string>, ips: string)
    requires line != MARKER
    ensures Settled([MARKER, line] + rest, ips) <==> Settled(rest, ips)
  {
    hide Settled, AllowedLine;
    SettledTail([MARKER, line] + rest, ips, 2);
    assert ([MARKER, line] + rest)[2..] == rest;
  }

  lemma SettledShort(lines: seq<string>, ips: string)
    requires |lines| <= 1
    ensures Settled(lines, ips)
  {
  }

  /** Two markers and the current AllowedIPs line. */
  lemma SettledTwo(rest: seq<string>, ips: string)
    ensures Settled([MARKER, MARKER] + ([AllowedLine(ips)] + rest), ips) <==> Settled(rest, ips)
  {
    hide Settled, IsAllowed, AllowedLine;
    WrittenIsAllowed(ips);
    var lines := [MARKER, MARKER] + ([AllowedLine(ips)] + rest);
    SettledTail(lines, ips, 3);
    assert lines[3..] == rest;
  }

  lemma Unsettled(rest: seq<string>, ips: string)
    requires rest == [] || rest[0] != AllowedLine(ips)
    ensures !Settled([MARKER, MARKER] + rest, ips)
  {
    hide AllowedLine;
    assert !Harmless([MARKER, MARKER] + rest, ips, 0);
  }

  lemma {:induction false} NoMarkerSettled(lines: seq<string>, ips: string)
    requires MARKER !in lines
    ensures Settled(lines, ips)
  {
    hide AllowedLine;
    forall i | 0 <= i < |lines| ensures Harmless(lines, ips, i) {
      assert lines[i] in lines;
    }
  }

  // --- the new list gets written ---------------------------------------------------------------------------

  /** The current AllowedIPs line follows every marker. */
  predicate Served(lines: seq<string>, ips: string) {
    forall i :: 0 <= i < |lines| && lines[i] == MARKER ==> i + 1 < |lines| && lines[i + 1] == AllowedLine(ips)
  }

  lemma ServedCons(line: string, rest: seq<string>, ips: string)
    requires line != MARKER
    ensures Served([line] + rest, ips) <==> Served(rest, ips)
  {
    hide AllowedLine;
    var all := [line] + rest;
    assert forall i :: 0 <= i < |rest| ==> all[i + 1] == rest[i];
    if Served(rest, ips) {
      forall i | 0 <= i < |all| && all[i] == MARKER ensures i + 1 < |all| && all[i + 1] == AllowedLine(ips) {
        assert rest[i - 1] == MARKER;
      }
    }
    if Served(all, ips) {
      forall i | 0 <= i < |rest| && rest[i] == MARKER ensures i + 1 < |rest| && rest[i + 1] == AllowedLine(ips) {
        assert all[i + 1] == MARKER;
      }
    }
  }

  lemma ServedMarker(rest: seq<string>, ips: string)
    ensures Served([MARKER] + rest, ips) <==> rest != [] && rest[0] == AllowedLine(ips) && Served(rest, ips)
  {
    hide AllowedLine;
    var all := [MARKER] + rest;
    assert forall i :: 0 <= i < |rest| ==> all[i + 1] == rest[i];
    if Served(all, ips) {
      assert all[0] == MARKER;
      forall i | 0 <= i < |rest| && rest[i] == MARKER ensures i + 1 < |rest| && rest[i + 1] == AllowedLine(ips) {
        assert all[i + 1] == MARKER;
      }
    }
    if rest != [] && rest[0] == AllowedLine(ips) && Served(rest, ips) {
      forall i | 0 <= i < |all| && all[i] == MARKER ensures i + 1 < |all| && all[i + 1] == AllowedLine(ips) {
        if i > 0 { assert rest[i - 1] == MARKER; }
      }
    }
  }

  lemma ServedPair(rest: seq<string>, ips: string)
    ensures Served([MARKER, AllowedLine(ips)] + rest, ips) <==> Served(rest, ips)
  {
    hide Served, IsAllowed, AllowedLine;
    WrittenIsAllowed(ips);
    ServedMarker([AllowedLine(ips)] + rest, ips);
    ServedCons(AllowedLine(ips), rest, ips);
    assert [MARKER, AllowedLine(ips)] + rest == [MARKER] + ([AllowedLine(ips)] + rest);
  }

  lemma ServedNone(ips: string)
    ensures Served([], ips)
  {
  }

  lemma {:induction false} BodyServes(lines: seq<string>, ips: string)
    ensures Served(Body(lines, ips), ips) <==> Settled(lines, ips)
    decreases |lines|
  {
    hide Body, Served, Settled, IsAllowed, AllowedLine;
    Uncons(lines);
    ServedNone(ips);
    if lines == [] {
      BodyEnd([], ips);
      SettledShort([], ips);
    } else if lines[0] != MARKER {
      BodyServes(lines[1..], ips);
      BodyCons(lines[0], lines[1..], ips);
      ServedCons(lines[0], Body(lines[1..], ips), ips);
      SettledCons(lines[0], lines[1..], ips);
    } else if |lines| == 1 {
      assert lines == [MARKER];
      BodyLone(ips);
      SettledShort(lines, ips);
      ServedPair([], ips);
      assert [MARKER, AllowedLine(ips)] + [] == [MARKER, AllowedLine(ips)];
    } else if lines[1] == MARKER {
      if |lines| > 2 { BodyServes(lines[3..], ips); }
      MarkersServe(lines[2..], ips);
    } else {
      BodyServes(lines[2..], ips);
      MarkerServes(lines[1], lines[2..], ips);
    }
  }

  lemma MarkerServes(line: string, rest: seq<string>, ips: string)
    requires line != MARKER && (Served(Body(rest, ips), ips) <==> Settled(rest, ips))
    ensures Served(Body([MARKER, line] + rest, ips), ips) <==> Settled([MARKER, line] + rest, ips)
  {
    hide Body, Served, Settled, IsAllowed, AllowedLine;
    SettledPair(line, rest, ips);
    if IsAllowed(line) {
      BodyPair(line, rest, ips);
      ServedPair(Body(rest, ips), ips);
    } else {
      BodyFetch(line, rest, ips);
      ServedPair([line] + Body(rest, ips), ips);
      ServedCons(line, Body(rest, ips), ips);
    }
  }

  /** The second of two markers is printed without a list. */
  lemma MarkersServe(rest: seq<string>, ips: string)
    requires rest != [] ==> (Served(Body(rest[1..], ips), ips) <==> Settled(rest[1..], ips))
    ensures Served(Body([MARKER, MARKER] + rest, ips), ips) <==> Settled([MARKER, MARKER] + rest, ips)
  {
    hide Body, Served, Settled, IsAllowed, AllowedLine;
    WrittenIsAllowed(ips);
    BodyFetch(MARKER, rest, ips);
    ServedPair([MARKER] + Body(rest, ips), ips);
    ServedMarker(Body(rest, ips), ips);
    FirstPrinted(rest, ips);
    if rest != [] && rest[0] == AllowedLine(ips) {
      Uncons(rest);
      BodyCons(rest[0], rest[1..], ips);
      ServedCons(rest[0], Body(rest[1..], ips), ips);
      SettledTwo(rest[1..], ips);
    } else {
      Unsettled(rest, ips);
    }
  }

  /** The first line is printed first. */
  lemma FirstPrinted(lines: seq<string>, ips: string)
    ensures lines == [] ==> Body(lines, ips) == []
    ensures lines != [] ==> Body(lines, ips) != [] && Body(lines, ips)[0] == lines[0]
  {
    hide IsAllowed, AllowedLine;
  }

  /** What the pass is for: after it every marker is followed by the current list, exactly if
      the file is settled. */
  lemma RewriteServes(lines: seq<string>, ips: string)
    ensures Served(Rewritten(lines, ips), ips) <==> Settled(lines, ips)
  {
    hide Body, Served, Settled, IsAllowed, AllowedLine;
    if MARKER in lines {
      BodyServes(lines, ips);
      assert Body(lines, ips) + [] == Body(lines, ips);
    } else {
      NoMarkerSettled(lines, ips);
      NoMarkerBody(lines, [], ips);
      BodyEnd([], ips);
      assert lines + [] == lines;
      NoMarkerServed(lines, ["", MARKER, AllowedLine(ips)], ips);
      ServedNone(ips);
      ServedPair([], ips);
      ServedCons("", [MARKER, AllowedLine(ips)], ips);
      assert [MARKER, AllowedLine(ips)] + [] == [MARKER, AllowedLine(ips)];
      assert [""] + [MARKER, AllowedLine(ips)] == ["", MARKER, AllowedLine(ips)];
    }
  }

  lemma {:induction false} NoMarkerServed(lines: seq<string>, tail: seq<string>, ips: string)
    requires MARKER !in lines
    ensures Served(lines + tail, ips) <==> Served(tail, ips)
  {
    hide Served, AllowedLine;
    if lines == [] {
      assert lines + tail == tail;
    } else {
      assert lines + tail == [lines[0]] + (lines[1..] + tail);
      NoMarkerServed(lines[1..], tail, ips);
      ServedCons(lines[0], lines[1..] + tail, ips);
    }
  }

  // --- a later pass ---------------------------------------------------------------------------------------

  /** A pass after an earlier one with another list leaves no trace of it exactly if the file
      is settled. */
  predicate TwiceIff(lines: seq<string>, was: string, now: string) {
    Body(Body(lines, was), now) == Body(lines, now) <==> Settled(lines, now)
  }

  lemma {:induction false} BodyTwice(lines: seq<string>, was: string, now: string)
    ensures TwiceIff(lines, was, now)
    decreases |lines|
  {
    hide TwiceIff;
    Uncons(lines);
    if lines == [] {
      NoneTwice(was, now);
    } else if lines[0] != MARKER {
      BodyTwice(lines[1..], was, now);
      PlainTwice(lines[0], lines[1..], was, now);
    } else if |lines| == 1 {
      assert lines == [MARKER];
      LoneTwice(was, now);
    } else if lines[1] == MARKER {
      if |lines| > 2 { BodyTwice(lines[3..], was, now); }
      MarkersTwice(lines[2..], was, now);
    } else {
      BodyTwice(lines[2..], was, now);
      if IsAllowed(lines[1]) {
        PairTwice(lines[1], lines[2..], was, now);
      } else {
        FetchTwice(lines[1], lines[2..], was, now);
      }
    }
  }

  lemma SameHead(head: seq<string>, a: seq<string>, b: seq<string>)
    ensures head + a == head + b <==> a == b
  {
    assert (head + a)[|head|..] == a && (head + b)[|head|..] == b;
  }

  lemma NoneTwice(was: string, now: string)
    ensures TwiceIff([], was, now)
  {
    hide Settled;
    SettledShort([], now);
  }

  lemma LoneTwice(was: string, now: string)
    ensures TwiceIff([MARKER], was, now)
  {
    hide Body, Settled, IsAllowed, AllowedLine;
    WrittenIsAllowed(was);
    SettledShort([MARKER], now);
    BodyLone(was);
    BodyLone(now);
    BodyPair(AllowedLine(was), [], now);
    BodyEnd([], now);
    assert [MARKER, AllowedLine(was)] + [] == [MARKER, AllowedLine(was)];
    assert [MARKER, AllowedLine(now)] + [] == [MARKER, AllowedLine(now)];
  }

  lemma PlainTwice(line: string, rest: seq<string>, was: string, now: string)
    requires line != MARKER && TwiceIff(rest, was, now)
    ensures TwiceIff([line] + rest, was, now)
  {
    hide Body, Settled, AllowedLine;
    SettledCons(line, rest, now);
    BodyCons(line, rest, was);
    BodyCons(line, rest, now);
    BodyCons(line, Body(rest, was), now);
    SameHead([line], Body(Body(rest, was), now), Body(rest, now));
  }

  lemma PairTwice(line: string, rest: seq<string>, was: string, now: string)
    requires line != MARKER && IsAllowed(line) && TwiceIff(rest, was, now)
    ensures TwiceIff([MARKER, line] + rest, was, now)
  {
    hide Body, Settled, IsAllowed, AllowedLine;
    WrittenIsAllowed(was);
    SettledPair(line, rest, now);
    BodyPair(line, rest, was);
    BodyPair(line, rest, now);
    BodyPair(AllowedLine(was), Body(rest, was), now);
    SameHead([MARKER, AllowedLine(now)], Body(Body(rest, was), now), Body(rest, now));
  }

  lemma FetchTwice(line: string, rest: seq<string>, was: string, now: string)
    requires line != MARKER && !IsAllowed(line) && TwiceIff(rest, was, now)
    ensures TwiceIff([MARKER, line] + rest, was, now)
  {
    hide Body, Settled, IsAllowed, AllowedLine;
    WrittenIsAllowed(was);
    var head, earlier, direct := [MARKER, AllowedLine(now)], Body(rest, was), Body(rest, now);
    SettledPair(line, rest, now);
    BodyFetch(line, rest, was);
    BodyFetch(line, rest, now);
    BodyPair(AllowedLine(was), [line] + earlier, now);
    BodyCons(line, earlier, now);
    SameHead(head, [line] + Body(earlier, now), [line] + direct);
    SameHead([line], Body(earlier, now), direct);
  }

  /** Two markers first: the second is printed unseen, and only the next pass sees it. */
  lemma MarkersTwice(rest: seq<string>, was: string, now: string)
    requires rest != [] ==> TwiceIff(rest[1..], was, now)
    ensures TwiceIff([MARKER, MARKER] + rest, was, now)
  {
    hide Body, Settled, IsAllowed, AllowedLine, TwiceIff;
    Uncons(rest);
    if rest != [] && rest[0] == AllowedLine(now) {
      WrittenTwice(rest[1..], was, now);
    } else {
      UnseenTwice(rest, was, now);
    }
  }

  /** What two passes and one make of two markers. */
  lemma MarkersBody(rest: seq<string>, was: string, now: string)
    ensures Body(Body([MARKER, MARKER] + rest, was), now) == [MARKER, AllowedLine(now)] + Body([MARKER] + Body(rest, was), now)
    ensures Body([MARKER, MARKER] + rest, now) == [MARKER, AllowedLine(now)] + ([MARKER] + Body(rest, now))
  {
    hide Body, IsAllowed, AllowedLine;
    WrittenIsAllowed(was);
    BodyFetch(MARKER, rest, was);
    BodyFetch(MARKER, rest, now);
    BodyPair(AllowedLine(was), [MARKER] + Body(rest, was), now);
  }

  lemma WrittenTwice(rest: seq<string>, was: string, now: string)
    requires TwiceIff(rest, was, now)
    ensures TwiceIff([MARKER, MARKER] + ([AllowedLine(now)] + rest), was, now)
  {
    hide Body, Settled, IsAllowed, AllowedLine;
    WrittenIsAllowed(now);
    var written := AllowedLine(now);
    var head, earlier, direct := [MARKER, written], Body(rest, was), Body(rest, now);
    SettledTwo(rest, now);
    MarkersBody([written] + rest, was, now);
    BodyCons(written, rest, was);
    BodyCons(written, rest, now);
    assert [MARKER] + ([written] + earlier) == head + earlier;
    assert [MARKER] + ([written] + direct) == head + direct;
    BodyPair(written, earlier, now);
    SameHead(head, head + Body(earlier, now), head + direct);
    SameHead(head, Body(earlier, now), direct);
  }

  lemma UnseenTwice(rest: seq<string>, was: string, now: string)
    requires rest == [] || rest[0] != AllowedLine(now)
    ensures TwiceIff([MARKER, MARKER] + rest, was, now)
  {
    hide Body, Settled, IsAllowed, AllowedLine;
    var head, earlier, direct := [MARKER, AllowedLine(now)], Body(rest, was), Body(rest, now);
    Unsettled(rest, now);
    MarkersBody(rest, was, now);
    SameHead(head, Body([MARKER] + earlier, now), [MARKER] + direct);
    FirstPrinted(rest, now);
    SecondPrinted(earlier, now);
    assert ([MARKER] + direct)[1..] == direct;
  }

  /** After a first marker the list comes second. */
  lemma SecondPrinted(rest: seq<string>, ips: string)
    ensures |Body([MARKER] + rest, ips)| >= 2 && Body([MARKER] + rest, ips)[1] == AllowedLine(ips)
  {
    hide IsAllowed, AllowedLine;
  }

  lemma NoMarkerTwice(lines: seq<string>, was: string, now: string)
    requires MARKER !in lines
    ensures Settled(lines, now)
    ensures Rewritten(Rewritten(lines, was), now) == Rewritten(lines, now)
  {
    hide Body, Settled, IsAllowed, AllowedLine;
    NoMarkerSettled(lines, now);
    WrittenIsAllowed(was);
    var pair := [MARKER, AllowedLine(was)];
    NoMarkerBody(lines, [], was);
    NoMarkerBody(lines, [], now);
    BodyEnd([], was);
    BodyEnd([], now);
    assert lines + [] == lines;
    NoMarkerBody(lines, ["", MARKER, AllowedLine(was)], now);
    assert ["", MARKER, AllowedLine(was)] == [""] + pair && pair == pair + [];
    BodyCons("", pair, now);
    BodyPair(AllowedLine(was), [], now);
    assert MARKER in lines + ["", MARKER, AllowedLine(was)];
    assert [""] + ([MARKER, AllowedLine(now)] + []) == ["", MARKER, AllowedLine(now)];
  }

  lemma {:induction false} NoMarkerBody(lines: seq<string>, tail: seq<string>, ips: string)
    requires MARKER !in lines
    ensures Body(lines + tail, ips) == lines + Body(tail, ips)
  {
    hide Body, IsAllowed, AllowedLine;
    if lines == [] {
      assert lines + tail == tail;
    } else {
      assert lines + tail == [lines[0]] + (lines[1..] + tail);
      NoMarkerBody(lines[1..], tail, ips);
      BodyCons(lines[0], lines[1..] + tail, ips);
    }
  }

  /** The last list written wins: regenerating with a newer list is the same as having
      regenerated with it at once, exactly if the file is settled for the newer list. */
  lemma LastListWins(lines: seq<string>, was: string, now: string)
    ensures Rewritten(Rewritten(lines, was), now) == Rewritten(lines, now) <==> Settled(lines, now)
  {
    hide Body, Settled, IsAllowed, AllowedLine;
    if MARKER in lines {
      BodyHasMarker(lines, was);
      BodyTwice(lines, was, now);
      assert Rewritten(lines, was) == Body(lines, was) && Rewritten(lines, now) == Body(lines, now);
      assert Body(Body(lines, was), now) + [] == Body(Body(lines, was), now);
    } else {
      NoMarkerTwice(lines, was, now);
    }
  }

  /** The script calls itself idempotent. It is exactly when no two marker lines follow each
      other, unless the current AllowedIPs line comes right after them. */
  lemma RewriteTwice(lines: seq<string>, ips: string)
    ensures Rewritten(Rewritten(lines, ips), ips) == Rewritten(lines, ips) <==> Settled(lines, ips)
  {
    LastListWins(lines, ips, ips);
  }

  /** Two marker lines and nothing else: each of two passes adds a line. */
  lemma DoubledMarkerGrows(ips: string)
    ensures var lines := [MARKER, MARKER];
      && Rewritten(lines, ips) == [MARKER, AllowedLine(ips), MARKER]
      && Rewritten(Rewritten(lines, ips), ips) == [MARKER, AllowedLine(ips), MARKER, AllowedLine(ips)]
  {
    hide Body, IsAllowed, AllowedLine;
    WrittenIsAllowed(ips);
    var pair := [MARKER, AllowedLine(ips)];
    BodyFetch(MARKER, [], ips);
    BodyEnd([], ips);
    assert [MARKER, MARKER] + [] == [MARKER, MARKER] && pair + ([MARKER] + []) == pair + [MARKER];
    BodyPair(AllowedLine(ips), [MARKER], ips);
    BodyLone(ips);
    assert pair + [MARKER] == [MARKER, AllowedLine(ips), MARKER];
    assert pair + pair == [MARKER, AllowedLine(ips), MARKER, AllowedLine(ips)];
  }

  // --- what a reader of the config finds --------------------------------------------------------------

  /** The AllowedIPs setting of the line after every marker, as the config parser reads a
      setting. */
  ghost predicate ListsRead(out: seq<string>, ips: string) {
    forall i :: 0 <= i < |out| && out[i] == MARKER ==>
      i + 1 < |out| && PeerConf.Setting(out[i + 1], "AllowedIPs") == Some(ips)
  }

  /** In a settled file the list written is the list read. */
  lemma RewriteReads(lines: seq<string>, ips: string)
    requires Settled(lines, ips) && PeerLaws.Printable(ips)
    ensures ListsRead(Rewritten(lines, ips), ips)
  {
    hide Rewritten, Settled;
    RewriteServes(lines, ips);
    WrittenRead(ips);
  }

  lemma WrittenRead(ips: string)
    requires PeerLaws.Printable(ips)
    ensures PeerConf.Setting(AllowedLine(ips), "AllowedIPs") == Some(ips)
  {
    hide PeerConf.Setting;
    var name := "AllowedIPs";
    assert name[0] == 'A' && AllowedLine(ips) == PeerLaws.SettingLine(name, ips);
    PeerLaws.SettingRead(name, ips);
  }

  /** A file without two markers in a row is settled for every list. */
  lemma SettledWithoutPairs(lines: seq<string>, ips: string)
    requires forall i :: 0 <= i < |lines| && i + 1 < |lines| && lines[i] == MARKER ==> lines[i + 1] != MARKER
    ensures Settled(lines, ips)
  {
    hide AllowedLine;
    forall i | 0 <= i < |lines| ensures Harmless(lines, ips, i) {}
  }

  predicate AwkBlanks(s: string) { forall i :: 0 <= i < |s| ==> s[i] in {' ', '\t', '\n', '\U{0B}', '\U{0C}', '\r'} }

  lemma AwkSpaceClass(s: string)
    ensures AwkBlanks(s) <==> forall i :: 0 <= i < |s| ==> IsAwkSpace(s[i])
  {
    forall i | 0 <= i < |s| ensures IsAwkSpace(s[i]) <==> s[i] in {' ', '\t', '\n', '\U{0B}', '\U{0C}', '\r'} {}
  }

  lemma AwkLeft(a: string, rest: string)
    requires AwkBlanks(a) && (rest == [] || !IsAwkSpace(rest[0]))
    ensures TrimLeft(a + rest, IsAwkSpace) == rest
  {
    AwkSpaceClass(a);
    LeadOf(a, rest, IsAwkSpace);
  }

  ghost predicate AllowedForm(line: string, a: string, b: string, value: string) {
    AwkBlanks(a) && AwkBlanks(b) && line == a + ("AllowedIPs" + (b + ("=" + value)))
  }

  lemma AllowedTaken(line: string) returns (a: string, b: string, value: string)
    requires IsAllowed(line)
    ensures AllowedForm(line, a, b, value)
  {
    hide IsAwkSpace, Lead;
    var rest := TrimLeft(line, IsAwkSpace);
    var tail := rest[10..];
    a, b, value := line[..Lead(line, IsAwkSpace)], tail[..Lead(tail, IsAwkSpace)], TrimLeft(tail, IsAwkSpace)[1..];
    AwkSpaceClass(a);
    AwkSpaceClass(b);
    assert tail == b + ("=" + value);
    assert rest == "AllowedIPs" + tail;
    assert line == a + rest;
  }

  lemma AllowedGiven(line: string, a: string, b: string, value: string)
    requires AllowedForm(line, a, b, value)
    ensures IsAllowed(line)
  {
    hide AwkBlanks, TrimLeft;
    var name := "AllowedIPs";
    var tail := b + ("=" + value);
    assert name[0] == 'A' && name <= name + tail && (name + tail)[10..] == tail;
    AwkLeft(a, name + tail);
    AwkLeft(b, "=" + value);
  }

  /** The lines dropped after a marker are exactly those of the expression's form. */
  lemma IsAllowedIff(line: string)
    ensures IsAllowed(line) <==> exists a, b, value :: AllowedForm(line, a, b, value)
  {
    hide IsAllowed, AllowedForm;
    if IsAllowed(line) { var a, b, value := AllowedTaken(line); }
    if a, b, value :| AllowedForm(line, a, b, value) { AllowedGiven(line, a, b, value); }
  }
}
