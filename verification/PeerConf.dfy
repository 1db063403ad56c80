/** `gw0.conf`: the regular expressions, the parser, the appender and the two removers
    of the WireGuard peer list, over the file's text. */
module PeerConf {
  import opened Wrappers
  import opened Text
  import opened ConfLines

  // --- the regular expressions ----------------------------------------------------------

  predicate IsLetter(c: char) { 'A' <= c <= 'Z' || 'a' <= c <= 'z' }

  predicate IsAlnum(c: char) { IsLetter(c) || IsDigit(c) }

  predicate IsWord(c: char) { IsAlnum(c) || c == '_' }

  function Lower(c: char): char {
    if 'A' <= c <= 'Z' then (c as int - 'A' as int + 'a' as int) as char else c
  }

  function ToLower(s: string): (r: string)
    ensures |r| == |s| && forall i :: 0 <= i < |s| ==> r[i] == Lower(s[i])
  {
    seq(|s|, i requires 0 <= i < |s| => Lower(s[i]))
  }

  /** `^\[(\w+)\]\s*$`, the name in lower case. */
  function SectionName(ln: string): Option<string> {
    if ln == [] || ln[0] != '[' then None
    else
      var n := Lead(ln[1..], IsWord);
      var rest := ln[1 + n..];
      if n == 0 || rest == [] || rest[0] != ']' || Lead(rest[1..], IsReSpace) < |rest| - 1 then None
      else Some(ToLower(ln[1..1 + n]))
  }

  /** `\s*=\s*(.+?)\s*$`: the value without the blanks around it; if it is all blanks the
      last one is captured. */
  function ValuePart(s: string): Option<string> {
    var r := TrimLeft(s, IsReSpace);
    if r == [] || r[0] != '=' || |r| == 1 then None
    else
      var v := Trim(r[1..], IsReSpace);
      Some(if v == [] then [r[|r| - 1]] else v)
  }

  /** `^\s*<name>\s*=\s*(.+?)\s*$`. */
  function Setting(ln: string, name: string): Option<string> {
    var s := TrimLeft(ln, IsReSpace);
    if name <= s then ValuePart(s[|name|..]) else None
  }

  /** `^\s*([A-Za-z][A-Za-z0-9]*)\s*=\s*(.+?)\s*$`. */
  function AnySetting(ln: string): Option<(string, string)> {
    var s := TrimLeft(ln, IsReSpace);
    if s == [] || !IsLetter(s[0]) then None
    else
      var n := Lead(s, IsAlnum);
      var v := ValuePart(s[n..]);
      if v.None? then None else Some((s[..n], v.value))
  }

  function Trimmed(v: Option<string>): Option<string> {
    if v.None? then None else Some(TrimSpace(v.value))
  }

  const KEY_NAME := "PublicKey"
  const ALLOWED_NAME := "AllowedIPs"
  const MARK := "# peer:"

  /** What a line of text means. */
  function Classify(ln: string): Line {
    var t := TrimSpace(ln);
    Line(SectionName(ln), AnySetting(ln), Trimmed(Setting(ln, KEY_NAME)), Trimmed(Setting(ln, ALLOWED_NAME)),
         if "#" <= t then t else "", MARK <= t, t == "")
  }

  function MapLines(ls: seq<string>, f: string -> Line): (r: seq<Line>)
    ensures |r| == |ls| && forall i :: 0 <= i < |ls| ==> r[i] == f(ls[i])
  {
    seq(|ls|, i requires 0 <= i < |ls| => f(ls[i]))
  }

  function ClassifyAll(ls: seq<string>): seq<Line> { MapLines(ls, Classify) }

  function LinesOf(content: string): seq<Line> { ClassifyAll(Split(content, '\n')) }

  // --- the parser --------------------------------------------------------------------------

  /** `parsedConf`. */
  datatype ParsedConf = ParsedConf(raw: string, peers: seq<Entry>, params: map<string, string>)

  function Parsed(raw: string): ParsedConf {
    ParsedConf(raw, Peers(LinesOf(raw)), Params(LinesOf(raw)))
  }

  /** `loadConf` on the file's content. */
  method LoadConf(content: string) returns (pc: ParsedConf)
    ensures pc == Parsed(content)
  {
    var lines := LinesOf(content);
    var peers, params := ParseLines(lines);
    pc := ParsedConf(content, peers, params);
  }

  // --- comment and blank lines set nothing ---------------------------------------------------

  /** The first character a setting could start with is a space or the first the trimmed
      line has. */
  lemma FirstKept(ln: string)
    ensures var s := TrimLeft(ln, IsReSpace);
            s == [] || IsSpace(s[0]) || (TrimSpace(ln) != [] && s[0] == TrimSpace(ln)[0])
  {
    var k, n := Lead(ln, IsReSpace), Lead(ln, IsSpace);
    if k < |ln| && !IsSpace(ln[k]) {
      assert k == n;
      var t := ln[n..];
      assert TrimLeft(ln, IsSpace) == t && Trail(t, IsSpace) < |t|;
      assert TrimSpace(ln)[0] == t[0];
    }
  }

  lemma MarkedNeutral(ln: string)
    requires Classify(ln).mark || Classify(ln).blank
    ensures Neutral(Classify(ln))
  {
    FirstKept(ln);
    assert MARK[0] == '#' && KEY_NAME[0] == 'P' && ALLOWED_NAME[0] == 'A';
    if MARK <= TrimSpace(ln) { PrefixChars(MARK, TrimSpace(ln)); }
    NotSection(ln);
  }

  lemma NotSection(ln: string)
    requires TrimSpace(ln) == [] || TrimSpace(ln)[0] != '['
    ensures SectionName(ln) == None
  {
    if ln != [] && ln[0] == '[' {
      assert Lead(ln, IsReSpace) == 0 && ln[0..] == ln;
      FirstKept(ln);
    }
  }

  lemma AllClassified(content: string)
    ensures Classified(LinesOf(content))
  {
    var ls := Split(content, '\n');
    forall i | 0 <= i < |ls| && (LinesOf(content)[i].mark || LinesOf(content)[i].blank)
      ensures Neutral(LinesOf(content)[i])
    {
      MarkedNeutral(ls[i]);
    }
  }
}
