/** The `.env` file that bash sources and the templates read: a reader for one
    variable and an editor that replaces or appends its line. */
module EnvFile {
  import opened Text

  // --- the reader -------------------------------------------------------------------

  /** A line as the reader looks at it: trimmed, without one `export `. */
  function Normal(raw: string): string { TrimPrefix(TrimSpace(raw), "export ") }

  predicate Reads(raw: string, key: string) { key + "=" <= Normal(raw) }

  /** One layer of matching quotes is stripped. */
  function Unquote(val: string): string {
    if |val| >= 2 && val[0] == val[|val| - 1] && (val[0] == '\'' || val[0] == '"')
    then val[1..|val| - 1]
    else val
  }

  function Reader(key: string): string -> bool { raw => Reads(raw, key) }

  function Value(raw: string, key: string): string {
    Unquote(TrimPrefix(Normal(raw), key + "="))
  }

  function ReadLines(lines: seq<string>, key: string): string {
    var i := FirstWhere(lines, Reader(key));
    if i < |lines| then Value(lines[i], key) else ""
  }

  /** `readEnvVar`. */
  function ReadEnvVar(content: string, key: string): string {
    ReadLines(Split(content, '\n'), key)
  }

  // --- the editor -------------------------------------------------------------------

  predicate Edits(raw: string, key: string) {
    key + "=" <= TrimSpace(raw) || "export " + key + "=" <= TrimSpace(raw)
  }

  function Editor(key: string): string -> bool { raw => Edits(raw, key) }

  /** The first line the editor would replace, or the number of lines. */
  function FirstEdit(lines: seq<string>, key: string): nat { FirstWhere(lines, Editor(key)) }

  /** The text after the edit. */
  function Edited(content: string, key: string, newLine: string): string {
    var lines := Split(content, '\n');
    var i := FirstEdit(lines, key);
    if i < |lines| then Join(lines[i := newLine], '\n')
    else (if EndsLine(content) then content else content + ['\n']) + newLine + ['\n']
  }

  lemma FirstEditIs(lines: seq<string>, key: string)
    ensures var i := FirstEdit(lines, key);
      i <= |lines| && (i < |lines| ==> Edits(lines[i], key)) && forall j :: 0 <= j < i ==> !Edits(lines[j], key)
  {
    hide Edits;
    var i := FirstEdit(lines, key);
    forall j | 0 <= j < i ensures !Edits(lines[j], key) { assert !Editor(key)(lines[j]); }
  }

  /** The loop of the editor: overwrite the first matching slot only. */
  method ReplaceFirst(original: seq<string>, key: string, newLine: string)
    returns (lines: seq<string>, replaced: bool)
    ensures replaced <==> FirstEdit(original, key) < |original|
    ensures lines == if replaced then original[FirstEdit(original, key) := newLine] else original
  {
    hide Edits, FirstEdit;
    lines := original;
    replaced := false;
    ghost var first := FirstEdit(original, key);
    FirstEditIs(original, key);
    for i := 0 to |lines|
      invariant |lines| == |original|
      invariant replaced <==> first < i
      invariant replaced ==> lines == original[first := newLine]
      invariant !replaced ==> lines == original
    {
      if !replaced && Edits(lines[i], key) {
        lines := lines[i := newLine];
        replaced := true;
      }
    }
  }

  /** `replaceOrAppendEnvLine`. */
  method ReplaceOrAppendEnvLine(content: string, key: string, newLine: string) returns (out: string)
    ensures out == Edited(content, key, newLine)
  {
    var lines, replaced := ReplaceFirst(Split(content, '\n'), key, newLine);
    out := Join(lines, '\n');
    if replaced { return; }
    JoinSplit(content, '\n');
    if !EndsLine(out) {
      out := out + ['\n'];
    }
    out := out + newLine + ['\n'];
  }

  // --- reader and editor agree -------------------------------------------------------

  /** The reader and the editor pick the same lines unless the key itself begins with
      `export `. */
  lemma SameLines(raw: string, key: string)
    requires !("export " <= key)
    ensures Reads(raw, key) <==> Edits(raw, key)
  {
    var t := TrimSpace(raw);
    var exported := "export " + key + "=";
    if exported <= t {
      PrefixChars(exported, t);
      assert "export " <= exported && exported[7..] == key + "=";
    }
    if "export " <= t {
      if key + "=" <= t { NotExport(key, t); }
      assert t == "export " + t[7..];
      ShiftPrefix("export ", key + "=", t[7..]);
      assert exported == "export " + (key + "=");
    }
  }

  lemma ShiftPrefix(p: string, a: string, b: string)
    ensures p + a <= p + b <==> a <= b
  {
    if p + a <= p + b {
      assert (p + b)[|p|..|p| + |a|] == a;
      assert b[..|a|] == (p + b)[|p|..|p| + |a|];
    }
    if a <= b {
      assert b == a + b[|a|..];
      assert p + b == (p + a) + b[|a|..];
    }
  }

  /** `export ` has no `=`, so a shorter key cannot share a line with it. */
  lemma NotExport(key: string, t: string)
    requires key + "=" <= t && "export " <= t
    ensures "export " <= key
  {
    PrefixChars(key + "=", t);
    PrefixChars("export ", t);
    assert (key + "=")[|key|] == '=' && Free("export ", '=');
    assert forall i :: 0 <= i < |key| ==> key[i] == (key + "=")[i];
  }

  /** The line the rotation writes: `key='value'`. */
  function Assignment(key: string, value: string): string { key + "='" + value + "'" }

  function SetVar(content: string, key: string, value: string): string {
    Edited(content, key, Assignment(key, value))
  }

  /** Keys the file format can carry. */
  ghost predicate Settable(key: string) {
    Free(key, '\n') && (key != "" ==> !IsSpace(key[0])) && !("export " <= key)
  }

  lemma AssignmentNormal(key: string, value: string)
    requires Settable(key) && Free(value, '\n')
    ensures TrimSpace(Assignment(key, value)) == Normal(Assignment(key, value)) == Assignment(key, value)
    ensures Reads(Assignment(key, value), key) && Free(Assignment(key, value), '\n')
    ensures Value(Assignment(key, value), key) == value
  {
    var a := Assignment(key, value);
    AssignmentShape(key, value);
    TrimKeeps(a, IsSpace);
    if "export " <= a { NotExport(key, a); }
  }

  lemma AssignmentShape(key: string, value: string)
    ensures var a := Assignment(key, value);
            && a != [] && a[0] == (if key == "" then '=' else key[0]) && a[|a| - 1] == '\''
            && key + "=" <= a && Unquote(TrimPrefix(a, key + "=")) == value
            && (Free(key, '\n') && Free(value, '\n') ==> Free(a, '\n'))
  {
    var a := Assignment(key, value);
    var quoted := ['\''] + value + ['\''];
    assert a == (key + "=") + quoted;
    assert a[|key| + 1..] == quoted;
    assert quoted[1..|value| + 1] == value;
  }

  /** The lines of the edited text: every other line is kept verbatim. */
  lemma EditedLines(content: string, key: string, newLine: string)
    requires Free(newLine, '\n')
    ensures var lines := Split(content, '\n');
            var i := FirstEdit(lines, key);
            Split(Edited(content, key, newLine), '\n') ==
            if i < |lines| then lines[i := newLine]
            else FullLines(content) + [newLine, []]
  {
    var lines := Split(content, '\n');
    SplitPiecesFree(content, '\n');
    if FirstEdit(lines, key) < |lines| {
      SplitJoin(lines[FirstEdit(lines, key) := newLine], '\n');
    } else {
      NewLineLast(content, newLine);
    }
  }

  lemma NewLineLast(content: string, newLine: string)
    requires Free(newLine, '\n')
    ensures var base := if EndsLine(content) then content else content + ['\n'];
            Split(base + newLine + ['\n'], '\n') == FullLines(content) + [newLine, []]
  {
    if EndsLine(content) {
      var body := content[..|content| - 1];
      LastLine(content);
      SnocLine(body, newLine);
      assert content + newLine + ['\n'] == body + ['\n'] + (newLine + ['\n'] + []);
    } else {
      SnocLine(content, newLine);
      assert content + ['\n'] + newLine + ['\n'] == content + ['\n'] + (newLine + ['\n'] + []);
    }
  }

  lemma SnocLine(body: string, newLine: string)
    requires Free(newLine, '\n')
    ensures Split(body + ['\n'] + (newLine + ['\n'] + []), '\n') == Split(body, '\n') + [newLine, []]
  {
    SplitFree(newLine, '\n');
    SplitAppend(newLine, [], '\n');
    SplitAppend(body, newLine + ['\n'] + [], '\n');
  }

  /** How the edited lines `before + [newLine] + after` stem from the original ones. */
  ghost predicate Around(lines: seq<string>, before: seq<string>, after: seq<string>, key: string) {
    && before <= lines
    && (forall i :: 0 <= i < |before| ==> !Reads(before[i], key) && !Edits(before[i], key))
    && var rest := lines[|before|..];
       || (after == [[]] && (rest == [] || rest == [[]]))
       || (rest != [] && after == rest[1..] && Reads(rest[0], key))
  }

  lemma EditPlace(content: string, key: string, newLine: string) returns (before: seq<string>, after: seq<string>)
    requires Settable(key) && Free(newLine, '\n')
    ensures Split(Edited(content, key, newLine), '\n') == before + [newLine] + after
    ensures Around(Split(content, '\n'), before, after, key)
  {
    var lines := Split(content, '\n');
    EditedLines(content, key, newLine);
    EditPlaceLines(lines, key);
    if FirstEdit(lines, key) < |lines| {
      before, after := Replacing(lines, key, newLine);
    } else {
      if EndsLine(content) { LastLine(content); }
      before, after := Appending(lines, FullLines(content), key, newLine);
    }
  }

  lemma Replacing(lines: seq<string>, key: string, newLine: string) returns (before: seq<string>, after: seq<string>)
    requires var i := FirstEdit(lines, key);
             i < |lines| && Reads(lines[i], key) && forall j :: 0 <= j < i ==> !Reads(lines[j], key) && !Edits(lines[j], key)
    ensures lines[FirstEdit(lines, key) := newLine] == before + [newLine] + after
    ensures Around(lines, before, after, key)
  {
    hide Reads, Edits, FirstEdit;
    var i := FirstEdit(lines, key);
    before, after := lines[..i], lines[i + 1..];
    assert lines[i..][1..] == after && lines[i..][0] == lines[i];
  }

  lemma Appending(lines: seq<string>, kept: seq<string>, key: string, newLine: string)
    returns (before: seq<string>, after: seq<string>)
    requires lines == kept || lines == kept + [[]]
    requires forall j :: 0 <= j < |lines| ==> !Reads(lines[j], key) && !Edits(lines[j], key)
    ensures kept + [newLine, []] == before + [newLine] + after
    ensures Around(lines, before, after, key)
  {
    before, after := kept, [[]];
    assert forall j :: 0 <= j < |kept| ==> kept[j] == lines[j];
  }

  lemma EditPlaceLines(lines: seq<string>, key: string)
    requires Settable(key)
    ensures var i := FirstEdit(lines, key);
            && (forall j :: 0 <= j < i ==> !Reads(lines[j], key) && !Edits(lines[j], key))
            && (i < |lines| ==> Reads(lines[i], key))
  {
    var i := FirstEdit(lines, key);
    if i < |lines| { SameLines(lines[i], key); }
    forall j | 0 <= j < i ensures !Reads(lines[j], key) && !Edits(lines[j], key) {
      assert !Editor(key)(lines[j]);
      SameLines(lines[j], key);
    }
  }

  /** Reading stops at the first line for the key. */
  lemma ReadsAt(lines: seq<string>, key: string, i: nat)
    requires i <= |lines| && forall j :: 0 <= j < i ==> !Reads(lines[j], key)
    requires i < |lines| ==> Reads(lines[i], key)
    ensures ReadLines(lines, key) == if i < |lines| then Value(lines[i], key) else ""
  {
    FirstIs(lines, Reader(key), i);
  }

  /** Setting a variable and reading it back gives the value, for every text. */
  lemma ReadAfterSet(content: string, key: string, value: string)
    requires Settable(key) && Free(value, '\n')
    ensures ReadEnvVar(SetVar(content, key, value), key) == value
  {
    var a := Assignment(key, value);
    AssignmentNormal(key, value);
    var before, after := EditPlace(content, key, a);
    ReadsAt(before + [a] + after, key, |before|);
  }

  ghost predicate AlwaysReadsBack(key: string) {
    forall content, value :: Free(value, '\n') ==> ReadEnvVar(SetVar(content, key, value), key) == value
  }

  /** Exactly the settable keys always read back what was set. */
  lemma SettableIff(key: string)
    ensures AlwaysReadsBack(key) <==> Settable(key)
  {
    if Settable(key) {
      forall content, value | Free(value, '\n')
        ensures ReadEnvVar(SetVar(content, key, value), key) == value
      {
        ReadAfterSet(content, key, value);
      }
    } else {
      UnsettableLost(key);
      assert Free("x", '\n');
    }
  }

  lemma SetEmpty(key: string)
    ensures SetVar("", key, "x") == "\n" + Assignment(key, "x") + "\n"
  {
    assert TrimSpace("") == "" && !Edits("", key) && Split("", '\n') == [""];
    assert FirstEdit([""], key) == 1;
  }

  /** An empty file given an unsettable key reads as if the key were absent. */
  lemma UnsettableLost(key: string)
    requires !Settable(key)
    ensures ReadEnvVar(SetVar("", key, "x"), key) == ""
  {
    hide Normal, Edited, Assignment;
    var a := Assignment(key, "x");
    SetEmpty(key);
    var text := "\n" + a + "\n";
    var lines := Split(text, '\n');
    SplitPiecesFree(text, '\n');
    if Free(key, '\n') {
      assert Free(a, '\n') by { AssignmentShape(key, "x"); }
      NewLineLast("", a);
      assert "" + ['\n'] + a + ['\n'] == text;
      assert FullLines("") == [""] && lines == ["", a, []];
      EmptyUnread(key);
      UnsettableUnread(key);
    } else {
      forall i | 0 <= i < |lines| ensures !Reads(lines[i], key) {
        NewlineUnread(lines[i], key);
      }
    }
    ReadsAt(lines, key, |lines|);
  }

  lemma NewlineUnread(raw: string, key: string)
    requires Free(raw, '\n') && !Free(key, '\n')
    ensures !Reads(raw, key)
  {
    assert Free(Normal(raw), '\n');
    var k :| 0 <= k < |key| && key[k] == '\n';
    assert (key + "=")[k] == '\n';
    if Reads(raw, key) {
      PrefixChars(key + "=", Normal(raw));
    }
  }

  /** Trimming or dropping `export ` shifts the line off its own key. */
  lemma UnsettableUnread(key: string)
    requires Free(key, '\n') && !Settable(key)
    ensures !Reads(Assignment(key, "x"), key)
  {
    hide TrimSpace, Lead;
    var a := Assignment(key, "x");
    assert a[|a| - 1] == '\'' && a[0] == key[0] && !IsSpace('\'');
    var n := TrimOnlyLeft(a);
    if n == 0 {
      assert "export " <= key <= a && a[0..] == a;
    }
    var k := if "export " <= a[n..] then n + 7 else n;
    assert Normal(a) == a[k..];
    ShiftedUnread(key, k);
  }

  /** No later part of the line begins with the key and `=`. */
  lemma ShiftedUnread(key: string, k: nat)
    requires 1 <= k <= |Assignment(key, "x")|
    ensures !(key + "=" <= Assignment(key, "x")[k..])
  {
    var a := Assignment(key, "x");
    assert a == key + "='x'";
    assert a[|key|..] == "='x'" && forall i :: 1 <= i < 4 ==> a[|key| + i] == "='x'"[i] != '=';
    assert (key + "=")[|key|] == '=';
  }

  lemma TrimOnlyLeft(a: string) returns (n: nat)
    requires a != [] && !IsSpace(a[|a| - 1])
    ensures n == Lead(a, IsSpace) < |a| && TrimSpace(a) == a[n..]
  {
    n := Lead(a, IsSpace);
    var t := a[n..];
    assert t[|t| - 1] == a[|a| - 1];
    assert t[..|t|] == t;
  }

  // --- what an edit leaves alone ------------------------------------------------------

  /** A line cannot be read for two keys without `=`. */
  lemma OneKey(raw: string, key: string, other: string)
    requires Free(key, '=') && Free(other, '=') && Reads(raw, key) && Reads(raw, other)
    ensures key == other
  {
    var n := Normal(raw);
    PrefixChars(key + "=", n);
    PrefixChars(other + "=", n);
    assert (key + "=")[|key|] == '=' && (other + "=")[|other|] == '=';
    assert forall i :: 0 <= i < |key| ==> key[i] == (key + "=")[i];
    assert forall i :: 0 <= i < |other| ==> other[i] == (other + "=")[i];
  }

  /** Every other key reads as before. */
  lemma OthersUntouched(content: string, key: string, value: string, other: string)
    requires Settable(key) && Free(value, '\n')
    requires Free(key, '=') && Free(other, '=') && key != other
    ensures ReadEnvVar(SetVar(content, key, value), other) == ReadEnvVar(content, other)
  {
    var a := Assignment(key, value);
    AssignmentNormal(key, value);
    var before, after := EditPlace(content, key, a);
    var lines := Split(content, '\n');
    var rest := lines[|before|..];
    assert lines == before + rest;
    if Reads(a, other) { OneKey(a, key, other); }
    if rest != [] && Reads(rest[0], key) && Reads(rest[0], other) { OneKey(rest[0], key, other); }
    EmptyUnread(other);
    SameReading(before, a, after, rest, other);
  }

  lemma EmptyUnread(key: string)
    ensures !Reads([], key)
  {
    assert Normal([]) == [];
  }

  /** Texts that differ in one unread line read alike. */
  lemma SameReading(before: seq<string>, a: string, after: seq<string>, rest: seq<string>, key: string)
    requires !Reads(a, key) && !Reads([], key)
    requires || (after == [[]] && (rest == [] || rest == [[]]))
             || (rest != [] && after == rest[1..] && !Reads(rest[0], key))
    ensures ReadLines(before + [a] + after, key) == ReadLines(before + rest, key)
  {
    hide Reads, ReadLines;
    if rest != [] && after == rest[1..] && !Reads(rest[0], key) {
      SameButOne(before, a, rest, key);
    } else {
      UnreadTail(before, key);
      UnreadTail(before + [a], key);
      UnreadLine(before, a, key);
      assert before + [] == before;
    }
  }

  lemma SameButOne(before: seq<string>, a: string, rest: seq<string>, key: string)
    requires rest != [] && !Reads(a, key) && !Reads(rest[0], key)
    ensures ReadLines(before + [a] + rest[1..], key) == ReadLines(before + rest, key)
  {
    hide Reads, Value;
    var was, now := before + [a] + rest[1..], before + rest;
    assert !Reader(key)(a) && !Reader(key)(rest[0]);
    FirstSame(was, now, |before|, Reader(key));
  }

  lemma UnreadTail(lines: seq<string>, key: string)
    requires !Reads([], key)
    ensures ReadLines(lines + [[]], key) == ReadLines(lines, key)
  {
    UnreadLine(lines, [], key);
  }

  lemma UnreadLine(lines: seq<string>, a: string, key: string)
    requires !Reads(a, key)
    ensures ReadLines(lines + [a], key) == ReadLines(lines, key)
  {
    FirstSnoc(lines, a, Reader(key));
  }

  /** Setting the same value again changes nothing. */
  lemma SetTwice(content: string, key: string, value: string)
    requires Settable(key) && Free(value, '\n')
    ensures SetVar(SetVar(content, key, value), key, value) == SetVar(content, key, value)
  {
    var a := Assignment(key, value);
    AssignmentNormal(key, value);
    var before, after := EditPlace(content, key, a);
    var once := SetVar(content, key, value);
    var lines := Split(once, '\n');
    assert lines[|before|] == a;
    SameLines(a, key);
    assert forall j :: 0 <= j < |before| ==> lines[j] == before[j];
    FirstIs(lines, Editor(key), |before|);
    assert lines[|before| := a] == lines;
    JoinSplit(once, '\n');
  }

  // --- the spellings of a value ----------------------------------------------------------------

  ghost predicate White(s: string) { forall i :: 0 <= i < |s| ==> IsSpace(s[i]) }

  lemma {:induction false} TrailWhite(a: string, b: string)
    requires White(b) && (a == [] || !IsSpace(a[|a| - 1]))
    ensures TrimRight(a + b, IsSpace) == a
  {
    if b == [] {
      assert a + b == a;
    } else {
      var n := |b| - 1;
      assert (a + b)[..|a + b| - 1] == a + b[..n] && (a + b)[|a + b| - 1] == b[n];
      TrailWhite(a, b[..n]);
    }
  }

  lemma TrimWhite(before: string, s: string, after: string)
    requires White(before) && White(after) && s != [] && !IsSpace(s[0]) && !IsSpace(s[|s| - 1])
    ensures TrimSpace(before + (s + after)) == s
  {
    hide IsSpace;
    LeadOf(before, s + after, IsSpace);
    assert (before + (s + after))[|before|..] == s + after;
    TrailWhite(s, after);
  }

  /** What bash accepts of the forms this file uses: blanks around the line, an optional
      `export `, and a value bare, in single or in double quotes. */
  lemma Spelled(before: string, exported: bool, key: string, written: string, after: string)
    requires White(before) && White(after) && Settable(key) && key != "" && (written != "" ==> !IsSpace(written[|written| - 1]))
    ensures var line := before + ((if exported then "export " else "") + (key + "=" + written) + after);
      Reads(line, key) && Value(line, key) == Unquote(written)
  {
    var body := key + "=" + written;
    var s := (if exported then "export " else "") + body;
    var line := before + (s + after);
    assert s[|s| - 1] == (if written == "" then '=' else written[|written| - 1]);
    assert s[0] == (if exported then 'e' else key[0]);
    TrimWhite(before, s, after);
    if exported {
      assert s[7..] == body;
    } else {
      if "export " <= body { NotExport(key, body); }
      assert s == body;
    }
    assert Normal(line) == body;
    assert body[|key| + 1..] == written && key + "=" <= body;
  }

  /** One pair of matching quotes goes, whichever they are; anything else stays. */
  lemma Unquoted(v: string)
    ensures Unquote("'" + v + "'") == v && Unquote("\"" + v + "\"") == v
    ensures v == "" || v[0] !in {'\'', '"'} || v[|v| - 1] != v[0] || |v| == 1 ==> Unquote(v) == v
  {
    assert ("'" + v + "'")[1..|v| + 1] == v && ("\"" + v + "\"")[1..|v| + 1] == v;
  }
}
