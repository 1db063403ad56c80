/** What the parser reads: the three expressions matched exactly, and the interface parameters
    a file sets, stated on its lines and on its text. */
module PeerParams {
  import opened Wrappers
  import opened Text
  import opened ConfLines
  import opened PeerConf
  import opened PeerLaws

  // --- the expressions, matched exactly ------------------------------------------------------------

  /** A string the class `\s*` matches. */
  predicate Blanks(s: string) { forall i :: 0 <= i < |s| ==> s[i] in {'\t', '\n', '\U{0C}', '\r', ' '} }

  predicate WordOf(s: string, p: char -> bool) { s != [] && forall i :: 0 <= i < |s| ==> p(s[i]) }

  /** What the group of `\s*(.+?)\s*$` captures: text without blank ends, or, of blanks alone,
      the last one. */
  predicate Captured(v: string, after: string) {
    v != [] && if IsReSpace(v[0]) then |v| == 1 && after == [] else !IsReSpace(v[|v| - 1])
  }

  lemma SpaceClass(s: string)
    ensures Blanks(s) <==> forall i :: 0 <= i < |s| ==> IsReSpace(s[i])
  {
    forall i | 0 <= i < |s| ensures IsReSpace(s[i]) <==> s[i] in {'\t', '\n', '\U{0C}', '\r', ' '} {}
  }

  /** A run of blanks, then something else. */
  lemma LeftOf(a: string, rest: string)
    requires Blanks(a) && (rest == [] || !IsReSpace(rest[0]))
    ensures TrimLeft(a + rest, IsReSpace) == rest
  {
    SpaceClass(a);
    LeadOf(a, rest, IsReSpace);
  }

  lemma {:induction false} TrailOf(a: string, b: string)
    requires Blanks(b) && (a == [] || !IsReSpace(a[|a| - 1]))
    ensures TrimRight(a + b, IsReSpace) == a
  {
    SpaceClass(b);
    if b == [] {
      assert a + b == a;
    } else {
      var n := |b| - 1;
      assert (a + b)[..|a + b| - 1] == a + b[..n] && (a + b)[|a + b| - 1] == b[n];
      TrailOf(a, b[..n]);
    }
  }

  lemma LeftBlanks(s: string)
    ensures var k := Lead(s, IsReSpace); Blanks(s[..k]) && s == s[..k] + TrimLeft(s, IsReSpace)
  {
    hide Lead, IsReSpace;
    var head := s[..Lead(s, IsReSpace)];
    SpaceClass(head);
    forall i | 0 <= i < |head| ensures IsReSpace(head[i]) { assert head[i] == s[i]; }
  }

  lemma RightBlanks(s: string)
    ensures var k := |s| - Trail(s, IsReSpace); Blanks(s[k..]) && s == TrimRight(s, IsReSpace) + s[k..]
  {
    hide Trail, IsReSpace, Blanks;
    var k := |s| - Trail(s, IsReSpace);
    TailBlanks(s, k);
    assert s == s[..k] + s[k..];
  }

  lemma TailBlanks(s: string, k: nat)
    requires k <= |s| && forall i :: k <= i < |s| ==> IsReSpace(s[i])
    ensures Blanks(s[k..])
  {
    hide IsReSpace, Blanks;
    var tail := s[k..];
    forall i | 0 <= i < |tail| ensures IsReSpace(tail[i]) { assert tail[i] == s[k + i]; }
    SpaceClass(tail);
  }

  /** The text before the group, the group and what follows it. */
  ghost predicate Value(s: string, b: string, x: string, v: string, y: string) {
    Blanks(b) && Blanks(x) && Blanks(y) && Captured(v, y) && s == b + ("=" + (x + (v + y)))
  }

  /** What `ValuePart` makes of the text after the equals sign. */
  function Capture(tail: string): string
    requires tail != []
  {
    var v := Trim(tail, IsReSpace);
    if v == [] then [tail[|tail| - 1]] else v
  }

  lemma AllBlank(tail: string)
    ensures Trim(tail, IsReSpace) == [] <==> Blanks(tail)
  {
    SpaceClass(tail);
    var l := TrimLeft(tail, IsReSpace);
    if Blanks(tail) {
      LeadAll(tail, IsReSpace);
    } else {
      assert l[0] == tail[Lead(tail, IsReSpace)];
    }
  }

  lemma CaptureGiven(x: string, v: string, y: string)
    requires Blanks(x) && Blanks(y) && Captured(v, y)
    ensures Capture(x + (v + y)) == v
  {
    hide Trim;
    var tail := x + (v + y);
    AllBlank(tail);
    SpaceClass(tail);
    if IsReSpace(v[0]) {
      SpaceClass(x);
      assert tail == x + v;
    } else {
      assert tail[|x|] == v[0];
      TrimGiven(x, v, y);
    }
  }

  lemma TrimGiven(x: string, v: string, y: string)
    requires Blanks(x) && Blanks(y) && v != [] && !IsReSpace(v[0]) && !IsReSpace(v[|v| - 1])
    ensures Trim(x + (v + y), IsReSpace) == v
  {
    hide TrimLeft, TrimRight, Blanks;
    LeftOf(x, v + y);
    TrailOf(v, y);
  }

  lemma CaptureTaken(tail: string) returns (x: string, y: string)
    requires tail != []
    ensures Blanks(x) && Blanks(y) && Captured(Capture(tail), y) && tail == x + (Capture(tail) + y)
  {
    AllBlank(tail);
    if Blanks(tail) {
      x, y := tail[..|tail| - 1], [];
      BlankTaken(tail);
    } else {
      x, y := InkTaken(tail);
    }
  }

  lemma BlankTaken(tail: string)
    requires tail != [] && Blanks(tail)
    ensures Blanks(tail[..|tail| - 1]) && Captured([tail[|tail| - 1]], [])
    ensures tail == tail[..|tail| - 1] + ([tail[|tail| - 1]] + [])
  {
    SpaceClass(tail);
  }

  lemma InkTaken(tail: string) returns (x: string, y: string)
    requires Trim(tail, IsReSpace) != []
    ensures Blanks(x) && Blanks(y) && Captured(Trim(tail, IsReSpace), y) && tail == x + (Trim(tail, IsReSpace) + y)
  {
    hide TrimLeft, TrimRight, Blanks;
    var l := TrimLeft(tail, IsReSpace);
    x, y := tail[..Lead(tail, IsReSpace)], l[|l| - Trail(l, IsReSpace)..];
    LeftBlanks(tail);
    RightBlanks(l);
    TrimEnds(tail, IsReSpace);
  }

  lemma ValueGiven(s: string, b: string, x: string, v: string, y: string)
    requires Value(s, b, x, v, y)
    ensures ValuePart(s) == Some(v)
  {
    hide Blanks, Captured;
    var tail := x + (v + y);
    LeftOf(b, "=" + tail);
    assert ("=" + tail)[1..] == tail && ("=" + tail)[|tail|] == tail[|tail| - 1] by { assert v != [] by { CapturedSome(v, y); } }
    CaptureGiven(x, v, y);
  }

  lemma CapturedSome(v: string, y: string)
    requires Captured(v, y)
    ensures v != []
  {
  }

  lemma ValueTaken(s: string) returns (b: string, x: string, y: string)
    requires ValuePart(s).Some?
    ensures Value(s, b, x, ValuePart(s).value, y)
  {
    hide Blanks, Captured;
    var r := TrimLeft(s, IsReSpace);
    b := s[..Lead(s, IsReSpace)];
    LeftBlanks(s);
    var tail := r[1..];
    assert r == "=" + tail && tail[|tail| - 1] == r[|r| - 1];
    x, y := CaptureTaken(tail);
  }

  ghost predicate SetsTo(ln: string, name: string, v: string) {
    exists a, b, x, y :: Blanks(a) && ln == a + (name + (b + ("=" + (x + (v + y))))) && Value(b + ("=" + (x + (v + y))), b, x, v, y)
  }

  /** `^\s*<name>\s*=\s*(.+?)\s*$` matches, with that capture, exactly the lines of this form. */
  lemma SettingIff(ln: string, name: string, v: string)
    requires name != [] && !IsReSpace(name[0])
    ensures Setting(ln, name) == Some(v) <==> SetsTo(ln, name, v)
  {
    hide ValuePart, Value, Blanks;
    if Setting(ln, name) == Some(v) {
      var s := TrimLeft(ln, IsReSpace);
      LeftBlanks(ln);
      var b, x, y := ValueTaken(s[|name|..]);
      assert s[|name|..] == b + ("=" + (x + (v + y))) by { OfValue(s[|name|..], b, x, v, y); }
      assert s == name + s[|name|..];
    }
    if a, b, x, y :| Blanks(a) && ln == a + (name + (b + ("=" + (x + (v + y))))) && Value(b + ("=" + (x + (v + y))), b, x, v, y) {
      var rest := b + ("=" + (x + (v + y)));
      LeftOf(a, name + rest);
      assert (name + rest)[|name|..] == rest && name <= name + rest;
      ValueGiven(rest, b, x, v, y);
    }
  }

  lemma OfValue(s: string, b: string, x: string, v: string, y: string)
    requires Value(s, b, x, v, y)
    ensures s == b + ("=" + (x + (v + y))) && Blanks(b)
  {
  }

  ghost predicate ParamName(name: string) { name != [] && IsLetter(name[0]) && WordOf(name, IsAlnum) }

  /** `^\s*([A-Za-z][A-Za-z0-9]*)\s*=\s*(.+?)\s*$`, name first. */
  lemma AnySettingIff(ln: string, name: string, v: string)
    ensures AnySetting(ln) == Some((name, v)) <==> ParamName(name) && SetsTo(ln, name, v)
  {
    hide ValuePart, Value, Blanks, ParamName, SetsTo;
    if AnySetting(ln) == Some((name, v)) {
      NameTaken(ln, name, v);
      SettingIff(ln, name, v);
    }
    if ParamName(name) && SetsTo(ln, name, v) { NameGiven(ln, name, v); }
  }

  lemma NameTaken(ln: string, name: string, v: string)
    requires AnySetting(ln) == Some((name, v))
    ensures ParamName(name) && !IsReSpace(name[0]) && Setting(ln, name) == Some(v)
  {
    hide ValuePart;
    var s := TrimLeft(ln, IsReSpace);
    assert s == name + s[|name|..];
    assert name == s[..Lead(s, IsAlnum)];
  }

  lemma NameGiven(ln: string, name: string, v: string)
    requires ParamName(name) && SetsTo(ln, name, v)
    ensures AnySetting(ln) == Some((name, v))
  {
    hide ValuePart;
    var a, b, x, y :| Blanks(a) && ln == a + (name + (b + ("=" + (x + (v + y))))) && Value(b + ("=" + (x + (v + y))), b, x, v, y);
    var rest := b + ("=" + (x + (v + y)));
    NotAlnum(b, "=" + (x + (v + y)));
    LeftOf(a, name + rest);
    LeadOf(name, rest, IsAlnum);
    assert (name + rest)[|name|..] == rest && (name + rest)[..|name|] == name;
    ValueGiven(rest, b, x, v, y);
  }

  lemma NotAlnum(b: string, rest: string)
    requires Blanks(b) && rest != [] && rest[0] == '='
    ensures !IsAlnum((b + rest)[0])
  {
    if b == [] {
      assert (b + rest)[0] == '=';
    } else {
      assert (b + rest)[0] == b[0];
    }
  }

  ghost predicate Header(ln: string, word: string) {
    WordOf(word, IsWord) && exists blanks :: Blanks(blanks) && ln == "[" + (word + ("]" + blanks))
  }

  /** `^\[(\w+)\]\s*$`, and the name is put in lower case. */
  lemma SectionNameIff(ln: string, name: string)
    ensures SectionName(ln) == Some(name) <==> exists word :: Header(ln, word) && name == ToLower(word)
  {
    if SectionName(ln) == Some(name) {
      var n := Lead(ln[1..], IsWord);
      var word, rest := ln[1..1 + n], ln[1 + n..];
      var blanks := rest[1..];
      assert forall i :: 0 <= i < |word| ==> word[i] == ln[1..][i];
      SpaceClass(blanks);
      assert ln == "[" + (word + ("]" + blanks));
      assert Header(ln, word);
    }
    if word :| Header(ln, word) && name == ToLower(word) {
      var blanks :| Blanks(blanks) && ln == "[" + (word + ("]" + blanks));
      HeaderGiven(ln, word, blanks);
    }
  }

  lemma HeaderGiven(ln: string, word: string, blanks: string)
    requires WordOf(word, IsWord) && Blanks(blanks) && ln == "[" + (word + ("]" + blanks))
    ensures SectionName(ln) == Some(ToLower(word))
  {
    var rest := "]" + blanks;
    assert ln[1..] == word + rest;
    LeadOf(word, rest, IsWord);
    assert ln[1 + |word|..] == rest && rest[1..] == blanks && ln[1..1 + |word|] == word;
    SpaceClass(blanks);
    LeadAll(blanks, IsReSpace);
  }

  // --- the parameters, on lines -------------------------------------------------------------------------

  /** The last header before line `i` is line `h`. */
  predicate Under(lines: seq<Line>, h: nat, i: nat) {
    h < i < |lines| && lines[h].section.Some? && forall k :: h < k <= i ==> lines[k].section.None?
  }

  /** Line `i` sets an interface parameter of that name. */
  ghost predicate SetsParam(lines: seq<Line>, i: nat, name: string) {
    && i < |lines| && lines[i].param.Some? && lines[i].param.value.0 == name
    && exists h: nat :: Under(lines, h, i) && lines[h].section == Some("interface")
  }

  /** The section in force after the first `n` lines. */
  lemma {:induction false} SectionIs(lines: seq<Line>, n: nat)
    requires n < |lines| && lines[n].section.None?
    ensures ParseTo(lines, n).section == "interface" <==> exists h: nat :: Under(lines, h, n) && lines[h].section == Some("interface")
  {
    if n > 0 {
      var l := lines[n - 1];
      if l.section.Some? {
        assert Under(lines, n - 1, n);
        forall h: nat | Under(lines, h, n) ensures h == n - 1 {}
      } else {
        SectionIs(lines, n - 1);
        forall h: nat | h < n - 1 ensures Under(lines, h, n) <==> Under(lines, h, n - 1) {}
        forall h: nat | Under(lines, h, n) ensures h < n - 1 {}
      }
    }
  }

  /** After the first `n` lines a name has the value its last setting among them gives it. */
  ghost predicate LastAmong(lines: seq<Line>, n: nat, name: string, i: nat) {
    i < n <= |lines| && SetsParam(lines, i, name) && forall k :: i < k < n ==> !SetsParam(lines, k, name)
  }

  lemma {:induction false} ParamsTo(lines: seq<Line>, n: nat, name: string)
    requires n <= |lines|
    ensures var params := ParseTo(lines, n).params;
      && (name in params <==> exists i: nat :: LastAmong(lines, n, name, i))
      && (forall i: nat :: LastAmong(lines, n, name, i) ==> params[name] == lines[i].param.value.1)
  {
    hide SetsParam;
    if n > 0 {
      ParamsTo(lines, n - 1, name);
      ParamStep(lines, n - 1, name);
      if SetsParam(lines, n - 1, name) {
        assert LastAmong(lines, n, name, n - 1);
      } else {
        SameLast(lines, n - 1, n, name);
      }
    }
  }

  lemma SameLast(lines: seq<Line>, m: nat, n: nat, name: string)
    requires m + 1 == n <= |lines| && !SetsParam(lines, m, name)
    ensures forall i: nat :: LastAmong(lines, n, name, i) <==> LastAmong(lines, m, name, i)
  {
    hide SetsParam;
    forall i: nat ensures LastAmong(lines, n, name, i) <==> LastAmong(lines, m, name, i) {
      if LastAmong(lines, n, name, i) { assert i != m; }
    }
  }

  lemma ParamStep(lines: seq<Line>, n: nat, name: string)
    requires n < |lines|
    ensures var was, now := ParseTo(lines, n).params, ParseTo(lines, n + 1).params;
      && (SetsParam(lines, n, name) ==> name in now && now[name] == lines[n].param.value.1)
      && (!SetsParam(lines, n, name) ==> (name in now <==> name in was) && (name in was ==> now[name] == was[name]))
  {
    hide ParseTo;
    OneStep(lines, n);
    if lines[n].section.None? {
      SectionIs(lines, n);
    } else {
      assert !SetsParam(lines, n, name);
    }
  }

  lemma OneStep(lines: seq<Line>, n: nat)
    requires n < |lines|
    ensures ParseTo(lines, n + 1) == Step(ParseTo(lines, n), lines, n)
  {
  }

  /** The parameters are exactly what the lines under an `[Interface]` header set, the last
      setting of a name deciding its value. */
  lemma ParamsExact(lines: seq<Line>, name: string)
    ensures name in Params(lines) <==> exists i: nat :: SetsParam(lines, i, name)
    ensures forall i: nat :: SetsParam(lines, i, name) && (forall k :: i < k < |lines| ==> !SetsParam(lines, k, name)) ==>
              name in Params(lines) && Params(lines)[name] == lines[i].param.value.1
  {
    hide SetsParam;
    ParamsTo(lines, |lines|, name);
    assert forall i: nat :: SetsParam(lines, i, name) ==> i < |lines| by { InRange(lines, name); }
    forall i: nat | SetsParam(lines, i, name) && forall k :: i < k < |lines| ==> !SetsParam(lines, k, name)
      ensures LastAmong(lines, |lines|, name, i) {}
    if i: nat :| SetsParam(lines, i, name) {
      var j := LastSetting(lines, |lines|, name, i);
    }
  }

  lemma InRange(lines: seq<Line>, name: string)
    ensures forall i: nat :: SetsParam(lines, i, name) ==> i < |lines|
  {
  }

  lemma {:induction false} LastSetting(lines: seq<Line>, n: nat, name: string, i: nat) returns (j: nat)
    requires i < n <= |lines| && SetsParam(lines, i, name)
    ensures LastAmong(lines, n, name, j)
  {
    hide SetsParam;
    if SetsParam(lines, n - 1, name) {
      j := n - 1;
    } else {
      j := LastSetting(lines, n - 1, name, i);
    }
  }

  // --- the parameters, on text -----------------------------------------------------------------------------

  /** A printed setting of a parameter. */
  lemma ParamRead(name: string, value: string)
    requires ParamName(name) && Printable(value)
    ensures var l := Classify(name + (" = " + value)); l.param == Some((name, value)) && l.section.None?
  {
    hide Setting, Trim, TrimRight;
    var rest := " = " + value;
    var ln := name + rest;
    assert ln[0] == name[0] && !IsAlnum(' ') && !IsReSpace(name[0]);
    LeadOf(name, rest, IsAlnum);
    assert Lead(ln, IsReSpace) == 0 && ln[0..] == ln;
    assert ln[|name|..] == rest && ln[..|name|] == name;
    SpacedValue(value);
  }

  lemma InterfaceName()
    ensures SectionName("[Interface]") == Some("interface")
  {
    hide SectionName;
    var word := "Interface";
    var ln := "[Interface]";
    assert ln == "[" + (word + ("]" + []));
    HeaderGiven(ln, word, []);
    assert ToLower(word) == "interface";
  }

  lemma InterfaceHeader()
    ensures Classify("[Interface]").section == Some("interface")
  {
    hide SectionName, Setting, AnySetting, TrimSpace;
    InterfaceName();
  }

  ghost predicate Settings(settings: seq<(string, string)>) {
    forall i :: 0 <= i < |settings| ==> ParamName(settings[i].0) && Printable(settings[i].1)
  }

  /** The lines of an interface section. */
  function SectionLines(settings: seq<(string, string)>): seq<string> {
    ["[Interface]"] + seq(|settings|, i requires 0 <= i < |settings| => settings[i].0 + (" = " + settings[i].1))
  }

  lemma SectionFree(settings: seq<(string, string)>)
    requires Settings(settings)
    ensures AllFree(SectionLines(settings), '\n')
  {
    hide ParamName, Printable, Free;
    var ls := SectionLines(settings);
    HeaderFree();
    forall i | 0 <= i < |ls| ensures Free(ls[i], '\n') {
      if i > 0 { ParamFree(settings[i - 1].0, settings[i - 1].1); }
    }
  }

  lemma HeaderFree()
    ensures Free("[Interface]", '\n')
  {
  }

  lemma SectionClasses(settings: seq<(string, string)>)
    requires Settings(settings)
    ensures var lines := ClassifyAll(SectionLines(settings));
      && |lines| == |settings| + 1 && lines[0].section == Some("interface")
      && forall i :: 1 <= i < |lines| ==> lines[i].param == Some(settings[i - 1]) && lines[i].section.None?
  {
    hide Classify, ParamName, Printable;
    var ls := SectionLines(settings);
    InterfaceHeader();
    forall i | 1 <= i < |ls|
      ensures Classify(ls[i]).param == Some(settings[i - 1]) && Classify(ls[i]).section.None?
    {
      ParamRead(settings[i - 1].0, settings[i - 1].1);
    }
  }

  lemma SectionRead(settings: seq<(string, string)>)
    requires Settings(settings)
    ensures LinesOf(Join(SectionLines(settings), '\n')) == ClassifyAll(SectionLines(settings))
  {
    hide Settings, Split, Join, AllFree;
    SectionFree(settings);
    SplitJoin(SectionLines(settings), '\n');
  }

  lemma ParamFree(name: string, value: string)
    requires ParamName(name) && Printable(value)
    ensures Free(name + (" = " + value), '\n')
  {
    assert !IsAlnum('\n');
    assert Free(" = " + value, '\n');
  }

  /** Reading a printed interface section: each name has the value of its last line, and no
      other name has one. */
  lemma ParamsOfText(settings: seq<(string, string)>, name: string)
    requires Settings(settings)
    ensures var params := Params(LinesOf(Join(SectionLines(settings), '\n')));
      && (name in params <==> exists i :: 0 <= i < |settings| && settings[i].0 == name)
      && forall i :: 0 <= i < |settings| && settings[i].0 == name && (forall k :: i < k < |settings| ==> settings[k].0 != name) ==>
           name in params && params[name] == settings[i].1
  {
    hide LinesOf, ClassifyAll, SectionLines, Settings, SetsParam, Params;
    var lines := LinesOf(Join(SectionLines(settings), '\n'));
    SectionRead(settings);
    SectionClasses(settings);
    ParamsExact(lines, name);
    forall i: nat ensures SetsParam(lines, i, name) <==> 1 <= i <= |settings| && settings[i - 1].0 == name {
      SetsOne(lines, settings, i, name);
    }
    if i :| 0 <= i < |settings| && settings[i].0 == name { assert SetsParam(lines, i + 1, name); }
    forall i | 0 <= i < |settings| && settings[i].0 == name && forall k :: i < k < |settings| ==> settings[k].0 != name
      ensures name in Params(lines) && Params(lines)[name] == settings[i].1
    {
      assert SetsParam(lines, i + 1, name);
      assert forall k :: i + 1 < k < |lines| ==> !SetsParam(lines, k, name);
      assert lines[i + 1].param == Some(settings[i]);
    }
  }

  lemma SetsOne(lines: seq<Line>, settings: seq<(string, string)>, i: nat, name: string)
    requires |lines| == |settings| + 1 && lines[0].section == Some("interface")
    requires forall i :: 1 <= i < |lines| ==> lines[i].param == Some(settings[i - 1]) && lines[i].section.None?
    ensures SetsParam(lines, i, name) <==> 1 <= i <= |settings| && settings[i - 1].0 == name
  {
    if 1 <= i <= |settings| {
      assert Under(lines, 0, i);
    }
  }

  // --- the comment a header takes -------------------------------------------------------------------------

  lemma CommentKept(ln: string)
    requires ln != [] && ln[0] == '#' && !IsSpace(ln[|ln| - 1])
    ensures Classify(ln).comment == ln && Classify(ln).section.None?
  {
    hide Setting, AnySetting;
    TrimKeeps(ln, IsSpace);
    assert "#"[0] == '#' && "#" <= ln;
  }

  /** A peer takes the line directly above its header as its comment, whatever that comment
      says. */
  lemma CommentAbove(ln: string)
    requires ln != [] && ln[0] == '#' && !IsSpace(ln[|ln| - 1]) && Free(ln, '\n')
    ensures var peers := Peers(LinesOf(ln + "\n" + "[Peer]")); |peers| == 1 && peers[0].comment == ln
  {
    hide Classify, Split;
    HeaderClass();
    CommentKept(ln);
    var header := "[Peer]";
    assert Free(header, '\n');
    SplitFree(header, '\n');
    SplitField(ln, header, '\n');
    var lines := LinesOf(ln + "\n" + header);
    assert lines == [Classify(ln), Classify(header)];
    OneStep(lines, 0);
    OneStep(lines, 1);
    assert ParseTo(lines, 0) == START;
    assert ParseTo(lines, 1) == Parse("", None, [], map[]) || lines[0].param.Some?;
  }

  // --- a block's settings ---------------------------------------------------------------------------------

  lemma KeyRead(value: string)
    requires Printable(value)
    ensures var l := Classify("PublicKey" + (" = " + value)); l.key == Some(value) && l.allowed.None? && l.section.None?
  {
    hide Classify;
    KeyLineClass(value);
  }

  lemma AllowedRead(value: string)
    requires Printable(value)
    ensures var l := Classify("AllowedIPs" + (" = " + value)); l.allowed == Some(value) && l.key.None? && l.section.None?
  {
    hide Setting, AnySetting, TrimSpace;
    var name := "AllowedIPs";
    var ln := name + (" = " + value);
    assert ln[0] == name[0] == 'A' && KEY_NAME[0] == 'P';
    SettingRead(name, value);
    OtherSetting(ln, KEY_NAME);
  }

  /** A text of one block with its key and addresses parses to that peer. */
  lemma PeerOfText(key: string, allowed: string)
    requires Printable(key) && Printable(allowed)
    ensures var peers := Peers(LinesOf("[Peer]" + "\n" + (("PublicKey" + (" = " + key)) + "\n" + ("AllowedIPs" + (" = " + allowed)))));
      |peers| == 1 && peers[0].key == key && peers[0].allowed == allowed
  {
    hide Classify, Split, Free, Printable;
    var header, k, a := "[Peer]", "PublicKey" + (" = " + key), "AllowedIPs" + (" = " + allowed);
    BlockFree(key, allowed);
    SplitFree(a, '\n');
    SplitField(k, a, '\n');
    SplitField(header, k + "\n" + a, '\n');
    HeaderClass();
    KeyRead(key);
    AllowedRead(allowed);
    var lines := LinesOf(header + "\n" + (k + "\n" + a));
    assert lines == [Classify(header), Classify(k), Classify(a)];
    OneStep(lines, 0);
    OneStep(lines, 1);
    OneStep(lines, 2);
    assert ParseTo(lines, 0) == START;
    assert ParseTo(lines, 1).cur == Some(Entry("", "", "", 0, 0));
  }

  lemma BlockFree(key: string, allowed: string)
    requires Printable(key) && Printable(allowed)
    ensures Free("[Peer]", '\n') && Free("PublicKey" + (" = " + key), '\n') && Free("AllowedIPs" + (" = " + allowed), '\n')
  {
    assert Free(" = " + key, '\n') && Free(" = " + allowed, '\n');
  }
}
