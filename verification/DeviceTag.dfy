/** `normalizeDeviceTag`: free-form device names mapped onto the tag alphabet. */
module DeviceTag {
  import opened Wrappers
  import opened Text
  import opened PeerConf
  import opened PeerNames

  /** `unicode.ToLower`, of which only this is used: what it does to ASCII, that it leaves
      lower-case letters and white space what they are. */
  type Lowering = char -> char

  ghost predicate Lawful(lower: Lowering) {
    && (forall c :: c < '\U{80}' ==> lower(c) == Lower(c))
    && (forall c :: lower(lower(c)) == lower(c))
    && (forall c :: IsSpace(lower(c)) <==> IsSpace(c))
  }

  function Dash(c: char): char { if c == ' ' || c == '_' || c == '.' then '-' else c }

  function Dashed(lower: Lowering, c: char): char { Dash(lower(c)) }

  /** Lower case, and blanks, underscores and dots as hyphens. */
  function MapDashes(lower: Lowering, s: string): (r: string)
    ensures |r| == |s| && forall i :: 0 <= i < |s| ==> r[i] == Dashed(lower, s[i])
  {
    seq(|s|, i requires 0 <= i < |s| => Dashed(lower, s[i]))
  }

  predicate HasDouble(s: string) {
    exists i :: 0 <= i < |s| - 1 && s[i] == '-' && s[i + 1] == '-'
  }

  /** `strings.ReplaceAll(s, "--", "-")`: pairs are replaced from the left, without
      looking at the result again. */
  function ReplacePairs(s: string): (r: string)
    ensures |r| <= |s|
    ensures s != [] ==> r != [] && r[0] == s[0]
    decreases |s|
  {
    if s == [] then []
    else if |s| >= 2 && s[0] == '-' && s[1] == '-' then ['-'] + ReplacePairs(s[2..])
    else [s[0]] + ReplacePairs(s[1..])
  }

  /** Every run of hyphens as one hyphen, in one pass. */
  function CollapseRuns(s: string): (r: string)
    ensures s != [] ==> r != [] && r[0] == s[0]
  {
    if s == [] then []
    else
      var rest := CollapseRuns(s[1..]);
      if s[0] == '-' && rest != [] && rest[0] == '-' then rest else [s[0]] + rest
  }

  lemma {:induction false} ReplaceShrinks(s: string)
    requires HasDouble(s)
    ensures |ReplacePairs(s)| < |s|
    decreases |s|
  {
    if !(s[0] == '-' && s[1] == '-') {
      var i :| 0 <= i < |s| - 1 && s[i] == '-' && s[i + 1] == '-';
      assert s[1..][i - 1] == '-' && s[1..][i] == '-';
      ReplaceShrinks(s[1..]);
    }
  }

  lemma {:induction false} CollapseReplaced(s: string)
    ensures CollapseRuns(ReplacePairs(s)) == CollapseRuns(s)
    decreases |s|
  {
    if |s| >= 2 && s[0] == '-' && s[1] == '-' {
      CollapseReplaced(s[2..]);
      var r := ReplacePairs(s[2..]);
      assert (['-'] + r)[1..] == r;
      assert s[1..][1..] == s[2..];
    } else if s != [] {
      CollapseReplaced(s[1..]);
      assert ([s[0]] + ReplacePairs(s[1..]))[1..] == ReplacePairs(s[1..]);
    }
  }

  lemma {:induction false} CollapseFixed(s: string)
    requires !HasDouble(s)
    ensures CollapseRuns(s) == s
  {
    if s != [] {
      var t := s[1..];
      forall i | 0 <= i < |t| - 1 ensures !(t[i] == '-' && t[i + 1] == '-') {
        assert t[i] == s[i + 1] && t[i + 1] == s[i + 2];
      }
      CollapseFixed(t);
      assert |s| > 1 ==> !(s[0] == '-' && s[0 + 1] == '-');
      assert s == [s[0]] + t;
    }
  }

  lemma {:induction false} CollapseNoDouble(s: string)
    ensures !HasDouble(CollapseRuns(s))
  {
    if s != [] {
      CollapseNoDouble(s[1..]);
      var rest := CollapseRuns(s[1..]);
      var r := CollapseRuns(s);
      if r != rest {
        forall i | 0 <= i < |r| - 1 ensures !(r[i] == '-' && r[i + 1] == '-') {
          if i > 0 { assert r[i] == rest[i - 1] && r[i + 1] == rest[i]; }
        }
      }
    }
  }

  predicate IsHyphen(c: char) { c == '-' }

  /** What the normalisation computes. */
  function Normalized(lower: Lowering, s: string): string {
    Trim(CollapseRuns(MapDashes(lower, TrimSpace(s))), IsHyphen)
  }

  /** `normalizeDeviceTag`: the collapse loop ends and computes the one-pass collapse. */
  method NormalizeDeviceTag(lower: Lowering, s: string) returns (r: string)
    ensures r == Normalized(lower, s)
  {
    r := MapDashes(lower, TrimSpace(s));
    while HasDouble(r)
      invariant CollapseRuns(r) == CollapseRuns(MapDashes(lower, TrimSpace(s)))
      decreases |r|
    {
      ReplaceShrinks(r);
      CollapseReplaced(r);
      r := ReplacePairs(r);
    }
    CollapseFixed(r);
    r := Trim(r, IsHyphen);
  }

  // --- what the result looks like -------------------------------------------------------------

  lemma TrimSlice(s: string, p: char -> bool) returns (lo: nat, hi: nat)
    ensures lo <= hi <= |s| && Trim(s, p) == s[lo..hi]
  {
    lo := Lead(s, p);
    var l := s[lo..];
    hi := |s| - Trail(l, p);
    assert l[..|l| - Trail(l, p)] == s[lo..hi];
  }

  lemma {:induction false} CollapseChars(s: string, ok: char -> bool)
    requires forall i :: 0 <= i < |s| ==> ok(s[i])
    ensures forall i :: 0 <= i < |CollapseRuns(s)| ==> ok(CollapseRuns(s)[i])
  {
    if s != [] {
      CollapseChars(s[1..], ok);
    }
  }

  function Stable(lower: Lowering): char -> bool { c => Dashed(lower, c) == c }

  /** The result is in lower case without blanks, underscores or dots, has no two hyphens
      in a row, and none at its ends. */
  lemma NormalizedShape(lower: Lowering, s: string)
    requires Lawful(lower)
    ensures var r := Normalized(lower, s);
            && !HasDouble(r)
            && (r != [] ==> r[0] != '-' && r[|r| - 1] != '-')
            && forall i :: 0 <= i < |r| ==> Stable(lower)(r[i])
  {
    hide CollapseRuns, MapDashes, Trim;
    var m := MapDashes(lower, TrimSpace(s));
    var c := CollapseRuns(m);
    CollapseNoDouble(m);
    assert forall i :: 0 <= i < |m| ==> Stable(lower)(m[i]);
    CollapseChars(m, Stable(lower));
    TrimEnds(c, IsHyphen);
    var lo, hi := TrimSlice(c, IsHyphen);
    var r := c[lo..hi];
    assert r == Normalized(lower, s);
    forall i | 0 <= i < |r| - 1 ensures !(r[i] == '-' && r[i + 1] == '-') {
      assert r[i] == c[lo + i] && r[i + 1] == c[lo + i + 1];
    }
  }

  /** Normalising a result again only trims white space off its ends: the result is a
      fixed point exactly when it has none there. */
  lemma FixedPointIff(lower: Lowering, s: string)
    requires Lawful(lower)
    ensures Normalized(lower, Normalized(lower, s)) == Normalized(lower, s) <==> TrimSpace(Normalized(lower, s)) == Normalized(lower, s)
  {
    var r := Normalized(lower, s);
    NormalizedShape(lower, s);
    if TrimSpace(r) == r {
      assert MapDashes(lower, r) == r;
      CollapseFixed(r);
      TrimKeeps(r, IsHyphen);
    } else {
      TrimmedStays(lower, r);
    }
  }

  /** A string that lost characters to trimming normalises to something shorter. */
  lemma TrimmedStays(lower: Lowering, r: string)
    requires TrimSpace(r) != r
    ensures |Normalized(lower, r)| < |r|
  {
    var t := TrimSpace(r);
    var lo, hi := TrimSlice(r, IsSpace);
    assert r[0..|r|] == r;
    CollapseLength(MapDashes(lower, t));
    var lo', hi' := TrimSlice(CollapseRuns(MapDashes(lower, t)), IsHyphen);
  }

  lemma {:induction false} CollapseLength(s: string)
    ensures |CollapseRuns(s)| <= |s|
  {
    if s != [] {
      CollapseLength(s[1..]);
    }
  }

  // --- the same, seen from the input ------------------------------------------------------------

  /** A character that becomes a hyphen. */
  function Separator(lower: Lowering): char -> bool { c => IsHyphen(Dashed(lower, c)) }

  function FirstNot(s: string, p: char -> bool): Option<char> {
    if s == [] then None else if p(s[0]) then FirstNot(s[1..], p) else Some(s[0])
  }

  function LastNot(s: string, p: char -> bool): Option<char> {
    if s == [] then None
    else
      var l := LastNot(s[1..], p);
      if l.Some? then l else if p(s[0]) then None else Some(s[0])
  }

  lemma {:induction false} FirstNotAt(s: string, p: char -> bool, i: nat)
    requires i <= |s| && (forall k :: 0 <= k < i ==> p(s[k])) && (i < |s| ==> !p(s[i]))
    ensures FirstNot(s, p) == if i < |s| then Some(s[i]) else None
  {
    if i > 0 { FirstNotAt(s[1..], p, i - 1); }
  }

  lemma {:induction false} LastNotAt(s: string, p: char -> bool, i: int)
    requires -1 <= i < |s| && (forall k :: i < k < |s| ==> p(s[k])) && (i >= 0 ==> !p(s[i]))
    ensures LastNot(s, p) == if i >= 0 then Some(s[i]) else None
  {
    if s != [] { LastNotAt(s[1..], p, if i >= 0 then i - 1 else -1); }
  }

  lemma LastKept(s: string, p: char -> bool, lo: nat)
    requires lo < |s| && !p(s[lo])
    ensures var r := TrimRight(s[lo..], p); r != [] && r[0] == s[lo] && LastNot(s, p) == Some(r[|r| - 1])
  {
    hide LastNot;
    var l := s[lo..];
    var n := |l| - Trail(l, p);
    assert !p(l[0]);
    assert forall k :: lo + n <= k < |s| ==> s[k] == l[k - lo];
    LastNotAt(s, p, lo + n - 1);
  }

  /** The ends of a trimmed string are the first and last characters it keeps. */
  lemma TrimNots(s: string, p: char -> bool)
    ensures var r := Trim(s, p);
            && (r == [] ==> FirstNot(s, p) == None && LastNot(s, p) == None)
            && (r != [] ==> FirstNot(s, p) == Some(r[0]) && LastNot(s, p) == Some(r[|r| - 1]))
  {
    var lo := Lead(s, p);
    FirstNotAt(s, p, lo);
    if lo < |s| {
      LastKept(s, p, lo);
    } else {
      LastNotAt(s, p, -1);
    }
  }

  lemma {:induction false} CollapseNots(s: string)
    ensures FirstNot(CollapseRuns(s), IsHyphen) == FirstNot(s, IsHyphen)
    ensures LastNot(CollapseRuns(s), IsHyphen) == LastNot(s, IsHyphen)
  {
    if s != [] {
      CollapseNots(s[1..]);
      var rest := CollapseRuns(s[1..]);
      assert ([s[0]] + rest)[1..] == rest;
    }
  }

  function DashedSome(lower: Lowering, c: Option<char>): Option<char> { if c.Some? then Some(Dashed(lower, c.value)) else None }

  lemma {:induction false} MapFirst(lower: Lowering, s: string)
    ensures FirstNot(MapDashes(lower, s), IsHyphen) == DashedSome(lower, FirstNot(s, Separator(lower)))
  {
    hide LastNot, Dashed, MapDashes;
    if s != [] {
      MapFirst(lower, s[1..]);
      assert MapDashes(lower, s)[1..] == MapDashes(lower, s[1..]);
    }
  }

  lemma {:induction false} MapLast(lower: Lowering, s: string)
    ensures LastNot(MapDashes(lower, s), IsHyphen) == DashedSome(lower, LastNot(s, Separator(lower)))
  {
    hide FirstNot, Dashed, MapDashes;
    if s != [] {
      MapLast(lower, s[1..]);
      assert MapDashes(lower, s)[1..] == MapDashes(lower, s[1..]);
    }
  }

  /** What is left of the input without the white space, then the separators, around it. */
  function Core(lower: Lowering, s: string): string { Trim(TrimSpace(s), Separator(lower)) }

  lemma TrimmedIff(s: string)
    ensures TrimSpace(s) == s <==> (s == [] || (!IsSpace(s[0]) && !IsSpace(s[|s| - 1])))
  {
    TrimEnds(s, IsSpace);
    if s != [] && !IsSpace(s[0]) && !IsSpace(s[|s| - 1]) { TrimKeeps(s, IsSpace); }
    if s == [] { TrimKeeps(s, IsSpace); }
  }

  /** The result begins and ends with what the core begins and ends with. */
  lemma CoreEnds(lower: Lowering, s: string)
    ensures var r, u := Normalized(lower, s), Core(lower, s);
      && (u == [] <==> r == [])
      && (u != [] ==> r[0] == Dashed(lower, u[0]) && r[|r| - 1] == Dashed(lower, u[|u| - 1]))
  {
    hide Trim, TrimSpace, CollapseRuns, MapDashes, FirstNot, LastNot, Dashed;
    var t := TrimSpace(s);
    TrimNots(t, Separator(lower));
    MapFirst(lower, t);
    MapLast(lower, t);
    CollapseNots(MapDashes(lower, t));
    TrimNots(CollapseRuns(MapDashes(lower, t)), IsHyphen);
  }

  lemma DashedSpace(lower: Lowering, c: char)
    requires Lawful(lower) && !Separator(lower)(c)
    ensures IsSpace(Dashed(lower, c)) <==> IsSpace(c)
  {
    hide IsSpace;
  }

  /** Normalising twice changes nothing exactly if no white space comes to light at the ends
      of the input once white space, and then separators, are taken off. */
  lemma IdempotentIff(lower: Lowering, s: string)
    requires Lawful(lower)
    ensures Normalized(lower, Normalized(lower, s)) == Normalized(lower, s) <==> TrimSpace(Core(lower, s)) == Core(lower, s)
  {
    hide Trim, TrimSpace, Normalized, Dashed, Separator, IsSpace, Lawful;
    var r, u := Normalized(lower, s), Core(lower, s);
    CoreEnds(lower, s);
    TrimEnds(TrimSpace(s), Separator(lower));
    if u != [] {
      DashedSpace(lower, u[0]);
      DashedSpace(lower, u[|u| - 1]);
    }
    TrimmedIff(r);
    TrimmedIff(u);
    FixedPointIff(lower, s);
  }

  /** Any string the tag validator accepts after normalisation is a fixed point, with no
      double, leading or trailing hyphen. */
  lemma AcceptedIsFixed(lower: Lowering, s: string)
    requires Lawful(lower)
    requires ValidDeviceTag(Normalized(lower, s))
    ensures var r := Normalized(lower, s);
            && Normalized(lower, r) == r && !HasDouble(r) && r[0] != '-' && r[|r| - 1] != '-'
  {
    var r := Normalized(lower, s);
    NormalizedShape(lower, s);
    assert IsTagChar(r[0]) && IsTagChar(r[|r| - 1]);
    TrimKeeps(r, IsSpace);
    FixedPointIff(lower, s);
  }

  lemma TabKept(lower: Lowering)
    requires Lawful(lower)
    ensures Normalized(lower, "-\t-") == "\t"
  {
    TrimKeeps("-\t-", IsSpace);
    assert lower('-') == '-' && lower('\t') == '\t';
    assert MapDashes(lower, "-\t-") == "-\t-";
    CollapseFixed("-\t-");
    assert Lead("-\t-", IsHyphen) == 1 && "-\t-"[1..] == "\t-";
    assert Trail("\t-", IsHyphen) == 1 && "\t-"[..1] == "\t";
  }

  lemma TabLost(lower: Lowering)
    ensures Normalized(lower, "\t") == ""
  {
    assert Lead("\t", IsSpace) == 1 && TrimSpace("\t") == "";
    assert MapDashes(lower, "") == "" && CollapseRuns("") == "";
  }

  /** A tab inside hyphens survives the first pass and is trimmed by the second, so
      normalising is not idempotent on every input. */
  lemma NotIdempotent(lower: Lowering)
    requires Lawful(lower)
    ensures Normalized(lower, "-\t-") == "\t" && Normalized(lower, "\t") == ""
  {
    hide Normalized;
    TabKept(lower);
    TabLost(lower);
  }

  // --- the result as words ----------------------------------------------------------------------

  /** The words of a text: its stretches without hyphens. */
  function Words(s: string): seq<string> { NonEmpty(Split(s, '-')) }

  function NonEmpty(parts: seq<string>): (r: seq<string>)
    ensures forall i :: 0 <= i < |r| ==> r[i] != "" && r[i] in parts
  {
    if parts == [] then [] else (if parts[0] == "" then [] else [parts[0]]) + NonEmpty(parts[1..])
  }

  function Opening(s: string): string { if s != [] && s[0] == '-' then "-" else "" }

  function Closing(s: string): string {
    if s != [] && s[|s| - 1] == '-' && Words(s) != [] then "-" else ""
  }

  lemma WordsAfterHyphen(t: string)
    ensures Words(['-'] + t) == Words(t)
  {
    assert (['-'] + t)[1..] == t;
    assert ([[]] + Split(t, '-'))[1..] == Split(t, '-');
  }

  lemma WordsAfterLetter(c: char, t: string)
    requires c != '-'
    ensures t == [] || t[0] == '-' ==> Words([c] + t) == [[c]] + Words(t)
    ensures t != [] && t[0] != '-' ==> Words(t) != [] && Words([c] + t) == [[c] + Words(t)[0]] + Words(t)[1..]
  {
    assert ([c] + t)[1..] == t;
    var r := Split(t, '-');
    assert ([[c] + r[0]] + r[1..])[1..] == r[1..];
    assert [c] + [] == [c];
  }

  lemma {:induction false} SomeWord(t: string)
    requires t != [] && t[|t| - 1] != '-'
    ensures Words(t) != []
  {
    assert t == [t[0]] + t[1..];
    if t[0] == '-' {
      SomeWord(t[1..]);
      WordsAfterHyphen(t[1..]);
    } else {
      WordsAfterLetter(t[0], t[1..]);
    }
  }

  lemma JoinCons(w: string, rest: seq<string>)
    ensures Join([w] + rest, '-') == if rest == [] then w else w + ['-'] + Join(rest, '-')
  {
    assert ([w] + rest)[1..] == rest && ([w] + rest)[0] == w;
  }

  lemma JoinGrown(w: string, rest: seq<string>)
    requires rest != []
    ensures Join([w + rest[0]] + rest[1..], '-') == w + Join(rest, '-')
  {
    hide Join;
    JoinCons(w + rest[0], rest[1..]);
    JoinCons(rest[0], rest[1..]);
    assert [rest[0]] + rest[1..] == rest;
    assert w + rest[0] + ['-'] + Join(rest[1..], '-') == w + (rest[0] + ['-'] + Join(rest[1..], '-'));
  }

  /** Collapsing keeps the words, joined by single hyphens, and at each end a hyphen if there
      was one. */
  lemma {:induction false} CollapsedWords(s: string)
    ensures CollapseRuns(s) == Opening(s) + Join(Words(s), '-') + Closing(s)
  {
    if s == [] {
      NoText();
    } else {
      var c, t := s[0], s[1..];
      assert s == [c] + t;
      CollapsedWords(t);
      if c == '-' { HyphenFirst(t); } else { LetterFirst(c, t); }
    }
  }

  lemma NoText()
    ensures CollapseRuns([]) == [] && Words([]) == [] && Opening([]) == [] && Closing([]) == []
    ensures CollapseRuns([]) == Opening([]) + Join(Words([]), '-') + Closing([])
  {
    assert Split([], '-') == [[]];
  }

  lemma CollapseCons(c: char, t: string)
    ensures CollapseRuns([c] + t) == if c == '-' && t != [] && t[0] == '-' then CollapseRuns(t) else [c] + CollapseRuns(t)
  {
    assert ([c] + t)[1..] == t;
  }

  lemma HyphenFirst(t: string)
    requires CollapseRuns(t) == Opening(t) + Join(Words(t), '-') + Closing(t)
    ensures CollapseRuns(['-'] + t) == Opening(['-'] + t) + Join(Words(['-'] + t), '-') + Closing(['-'] + t)
  {
    hide Words, CollapseRuns, Join, Closing;
    WordsAfterHyphen(t);
    CollapseCons('-', t);
    NoText();
    NoWordsJoin();
    HyphenEnds(t);
  }

  lemma HyphenEnds(t: string)
    ensures t != [] ==> Closing(['-'] + t) == Closing(t)
    ensures t == [] ==> Closing(['-'] + t) == ""
  {
    hide Words;
    WordsAfterHyphen(t);
    NoText();
    var s := ['-'] + t;
    assert t != [] ==> s[|s| - 1] == t[|t| - 1];
  }

  lemma NoWordsJoin()
    ensures Join([], '-') == []
  {
  }

  lemma LetterFirst(c: char, t: string)
    requires c != '-' && CollapseRuns(t) == Opening(t) + Join(Words(t), '-') + Closing(t)
    ensures CollapseRuns([c] + t) == Opening([c] + t) + Join(Words([c] + t), '-') + Closing([c] + t)
  {
    hide Words, CollapseRuns, Join, Opening, Closing;
    WordsAfterLetter(c, t);
    CollapseCons(c, t);
    NoWordsJoin();
    Ends(c, t);
    if t == [] {
      NoText();
      JoinCons([c], []);
    } else if t[0] == '-' {
      JoinCons([c], Words(t));
      Glue(c, ['-'], Join(Words(t), '-'), Closing(t));
    } else {
      JoinGrown([c], Words(t));
      Glue(c, [], Join(Words(t), '-'), Closing(t));
    }
  }

  lemma Glue(c: char, dash: string, joined: string, closing: string)
    ensures [c] + (dash + joined + closing) == [c] + dash + joined + closing
    ensures dash == [] ==> [c] + (dash + joined + closing) == [] + ([c] + joined) + closing
  {
  }

  /** The hyphens kept at the ends of a text that begins with a letter. */
  lemma Ends(c: char, t: string)
    requires c != '-'
    ensures Opening([c] + t) == "" && (t == [] ==> Closing([c] + t) == "")
    ensures t != [] ==> Opening(t) == if t[0] == '-' then "-" else ""
    ensures Words(t) == [] ==> Closing(t) == ""
    ensures t != [] ==> Closing([c] + t) == if Words(t) == [] then "-" else Closing(t)
  {
    hide Words;
    WordsAfterLetter(c, t);
    var s := [c] + t;
    assert t != [] ==> s[|s| - 1] == t[|t| - 1];
    if t != [] && t[|t| - 1] != '-' { SomeWord(t); }
  }

  ghost predicate Hyphenless(words: seq<string>) {
    forall i :: 0 <= i < |words| ==> words[i] != "" && Free(words[i], '-')
  }

  lemma WordsPlain(s: string)
    ensures Hyphenless(Words(s))
  {
    SplitPiecesFree(s, '-');
  }

  lemma {:induction false} JoinedEnds(words: seq<string>)
    requires Hyphenless(words) && words != []
    ensures var r := Join(words, '-'); r != [] && r[0] != '-' && r[|r| - 1] != '-'
  {
    if |words| > 1 { JoinedEnds(words[1..]); }
  }

  lemma TrimHyphens(a: string, core: string, b: string)
    requires a in {"", "-"} && b in {"", "-"} && (core != [] ==> core[0] != '-' && core[|core| - 1] != '-')
    requires core == [] ==> b == ""
    ensures Trim(a + core + b, IsHyphen) == core
  {
    hide TrimRight;
    assert a + core + b == a + (core + b);
    LeftHyphen(a, core + b);
    RightHyphen(core, b);
  }

  lemma LeftHyphen(a: string, rest: string)
    requires a in {"", "-"} && (rest != [] ==> rest[0] != '-')
    ensures TrimLeft(a + rest, IsHyphen) == rest
  {
    LeadOf(a, rest, IsHyphen);
  }

  lemma RightHyphen(core: string, b: string)
    requires b in {"", "-"} && (core != [] ==> core[|core| - 1] != '-')
    ensures TrimRight(core + b, IsHyphen) == core
  {
    assert Trail(core, IsHyphen) == 0 && core[..|core|] == core && core + "" == core;
    if b == "-" {
      assert (core + b)[..|core|] == core && (core + b)[|core|] == '-';
      assert Trail(core + b, IsHyphen) == 1;
    }
  }

  /** What the normalisation is for: the words of the trimmed name, in lower case, cut at
      blanks, underscores, dots and hyphens, joined by single hyphens. */
  lemma NormalizedWords(lower: Lowering, s: string)
    ensures Normalized(lower, s) == Join(Words(MapDashes(lower, TrimSpace(s))), '-')
  {
    hide CollapseRuns, MapDashes, Words, Join, Trim, TrimSpace;
    var m := MapDashes(lower, TrimSpace(s));
    CollapsedWords(m);
    WordsPlain(m);
    NoWordsJoin();
    if Words(m) != [] { JoinedEnds(Words(m)); }
    TrimHyphens(Opening(m), Join(Words(m), '-'), Closing(m));
  }

  /** Where words are cut, and that nothing else but case changes. */
  lemma CutsAt(lower: Lowering, c: char)
    requires Lawful(lower)
    ensures c in {' ', '_', '.', '-'} ==> Dashed(lower, c) == '-'
    ensures c !in {' ', '_', '.', '-'} && c < '\U{80}' ==>
      Dashed(lower, c) == if 'A' <= c <= 'Z' then (c as int + 32) as char else c
  {
  }
}
