/** The `# peer: <name> (added <time> by <actor>)` comment: the regular expression that
    adopts peers without a sidecar record. Repetitions are greedy and give back
    characters one at a time, as the expression engine does. */
module PeerComment {
  import opened Wrappers
  import opened Text
  import opened PeerConf
  import opened PeerLaws
  import opened Rfc3339

  /** What the expression captures. Groups that take no part are empty. */
  datatype Adopted = Adopted(name: string, stamp: string, actor: string)

  predicate IsInk(c: char) { !IsReSpace(c) }

  function SkipSpace(s: string): string { TrimLeft(s, IsReSpace) }

  /** `\s+` followed by `rest`: what is left after at least one blank. */
  function AfterSpaces(s: string): Option<string> {
    if s != [] && IsReSpace(s[0]) then Some(SkipSpace(s)) else None
  }

  /** `\)` and blanks to the end. */
  predicate Closes(s: string) { s != [] && s[0] == ')' && SkipSpace(s[1..]) == [] }

  /** The longest prefix of at most `n` characters after which the group closes. */
  function ActorOf(s: string, n: nat): Option<string>
    requires n <= |s|
  {
    if n == 0 then None
    else if Closes(s[n..]) then Some(s[..n])
    else ActorOf(s, n - 1)
  }

  /** `\s+by\s+(\S+)\)\s*$`. */
  function ByPart(s: string): Option<string> {
    var a := AfterSpaces(s);
    if a.None? || !("by" <= a.value) then None
    else
      var b := AfterSpaces(a.value[2..]);
      if b.None? then None else ActorOf(b.value, Lead(b.value, IsInk))
  }

  /** The time has at most `n` characters; the actor is optional. */
  function StampOf(s: string, n: nat): Option<(string, string)>
    requires n <= |s|
  {
    if n == 0 then None
    else
      var actor := ByPart(s[n..]);
      if actor.Some? then Some((s[..n], actor.value))
      else if Closes(s[n..]) then Some((s[..n], ""))
      else StampOf(s, n - 1)
  }

  const ADDED := "(added"

  /** Everything after the name: blanks, the optional group, blanks. */
  function AfterName(s: string): Option<(string, string)> {
    var r := SkipSpace(s);
    var group :=
      if !(ADDED <= r) then None
      else
        var t := AfterSpaces(r[|ADDED|..]);
        if t.None? then None else StampOf(t.value, Lead(t.value, IsInk));
    if group.Some? then group else if r == [] then Some(("", "")) else None
  }

  function NameOf(s: string, n: nat): Option<Adopted>
    requires n <= |s|
  {
    if n == 0 then None
    else
      var rest := AfterName(s[n..]);
      if rest.Some? then Some(Adopted(s[..n], rest.value.0, rest.value.1)) else NameOf(s, n - 1)
  }

  /** `rePeerComment`. */
  function MatchComment(comment: string): Option<Adopted> {
    if !(MARK <= comment) then None
    else
      var s := SkipSpace(comment[|MARK|..]);
      NameOf(s, Lead(s, IsInk))
  }

  /** `parsePeerComment`: name, actor and time, if it can be read. `other` reads the times
      that are not in the form this program writes. */
  function ParsePeerComment(comment: string, other: string -> Option<Instant>): (string, string, Option<Instant>) {
    match MatchComment(comment)
    case None => ("", "", None)
    case Some(m) => (m.name, m.actor, if m.stamp == "" then None else ReadTime(m.stamp, other))
  }

  // --- reading a printed comment ----------------------------------------------------------------

  ghost predicate Ink(s: string) { s != [] && forall i :: 0 <= i < |s| ==> IsInk(s[i]) }

  lemma InkRun(a: string, rest: string)
    requires Ink(a) && (rest == [] || IsReSpace(rest[0]))
    ensures Lead(a + rest, IsInk) == |a| && SkipSpace(a + rest) == a + rest
    ensures (a + rest)[..|a|] == a && (a + rest)[|a|..] == rest
  {
    LeadOf(a, rest, IsInk);
    assert Lead(a + rest, IsReSpace) == 0 && (a + rest)[0..] == a + rest;
  }

  lemma SpaceThen(rest: string)
    requires rest != [] && IsInk(rest[0])
    ensures AfterSpaces([' '] + rest) == Some(rest) && SkipSpace([' '] + rest) == rest
  {
    SkipOne(rest);
  }

  lemma ActorRead(actor: string)
    requires Ink(actor)
    ensures var s := actor + [')'];
            Lead(s, IsInk) == |s| && ActorOf(s, |s|) == Some(actor)
  {
    var s := actor + [')'];
    LeadAll(s, IsInk);
    assert s[|s|..] == [] && s[|actor|..] == [')'] && s[..|actor|] == actor;
    assert [')'][1..] == [] && SkipSpace([]) == [];
    assert ActorOf(s, |s|) == ActorOf(s, |actor|);
  }

  lemma ByRead(actor: string)
    requires Ink(actor)
    ensures ByPart([' '] + ("by" + ([' '] + (actor + [')'])))) == Some(actor)
  {
    var tail := actor + [')'];
    var part := "by" + ([' '] + tail);
    SpaceThen(part);
    assert part[2..] == [' '] + tail;
    SpaceThen(tail);
    ActorRead(actor);
  }

  lemma StampRead(stamp: string, actor: string)
    requires Ink(stamp) && Ink(actor)
    ensures var s := stamp + ([' '] + ("by" + ([' '] + (actor + [')']))));
            StampOf(s, Lead(s, IsInk)) == Some((stamp, actor))
  {
    InkRun(stamp, [' '] + ("by" + ([' '] + (actor + [')']))));
    ByRead(actor);
  }

  /** `(added <stamp> by <actor>)`. */
  function Group(stamp: string, actor: string): string {
    ADDED + ([' '] + (stamp + ([' '] + ("by" + ([' '] + (actor + [')']))))))
  }

  lemma GroupRead(stamp: string, actor: string)
    requires Ink(stamp) && Ink(actor)
    ensures AfterName([' '] + Group(stamp, actor)) == Some((stamp, actor))
  {
    var g := Group(stamp, actor);
    assert g[0] == ADDED[0] == '(';
    SpaceThen(g);
    var s := stamp + ([' '] + ("by" + ([' '] + (actor + [')']))));
    assert g[|ADDED|..] == [' '] + s;
    SpaceThen(s);
    StampRead(stamp, actor);
  }

  lemma CommentRead(name: string, stamp: string, actor: string)
    requires Ink(name) && Ink(stamp) && Ink(actor)
    ensures MatchComment(MARK + ([' '] + (name + ([' '] + Group(stamp, actor)))))
            == Some(Adopted(name, stamp, actor))
  {
    var s := name + ([' '] + Group(stamp, actor));
    var c := MARK + ([' '] + s);
    assert c[|MARK|..] == [' '] + s;
    SpaceThen(s);
    InkRun(name, [' '] + Group(stamp, actor));
    GroupRead(stamp, actor);
  }

  lemma {:induction false} SanitizeInk(s: string)
    requires Ink(s) && |s| <= 256
    ensures Sanitize(s) == s
  {
    var out := seq(|s|, i requires 0 <= i < |s| => if s[i] == '\n' || s[i] == '\r' then ' ' else s[i]);
    forall i | 0 <= i < |s| ensures out[i] == s[i] {
      assert IsInk(s[i]);
    }
    assert out == s;
  }

  /** The comment `appendPeer` writes is read back: name, actor, and the time to the second. */
  lemma CommentRoundTrip(p: NewPeer, other: string -> Option<Instant>)
    requires Ink(p.name) && |p.name| <= 256 && Ink(p.actor) && |p.actor| <= 256
    ensures ParsePeerComment(CommentLine(p), other) == (p.name, p.actor, Some(ToSecond(p.addedAt)))
  {
    hide Sanitize, Format, MatchComment, ReadTime;
    var stamp := Format(p.addedAt);
    SanitizeInk(p.name);
    SanitizeInk(p.actor);
    CommentShape(p);
    StampInk(p.addedAt);
    CommentRead(p.name, stamp, p.actor);
    FormatRead(p.addedAt, other);
  }

  lemma StampInk(t: Instant)
    ensures Ink(Format(t)) && Format(t) != ""
  {
    hide Format;
    FormatInk(t);
    forall i | 0 <= i < |Format(t)| ensures IsInk(Format(t)[i]) { assert !IsSpace(Format(t)[i]); }
  }

  lemma CommentShape(p: NewPeer)
    requires Sanitize(p.name) == p.name && Sanitize(p.actor) == p.actor
    ensures CommentLine(p) == MARK + ([' '] + (p.name + ([' '] + Group(Format(p.addedAt), p.actor))))
  {
    hide Sanitize, Format;
    assert " (added " == [' '] + (ADDED + [' ']);
    assert " by " == [' '] + ("by" + [' ']);
  }

  /** A comment with a name alone. */
  lemma NameRead(name: string)
    requires Ink(name)
    ensures MatchComment(MARK + ([' '] + name)) == Some(Adopted(name, "", ""))
  {
    var c := MARK + ([' '] + name);
    assert c[|MARK|..] == [' '] + name;
    SpaceThen(name);
    InkRun(name, []);
    assert name + [] == name;
  }

  /** Whatever stands for the actor, the comment is read with the peer's name or not at all. */
  lemma OwnName(p: NewPeer)
    requires Ink(p.name) && |p.name| <= 256 && Free(p.name, '(')
    ensures MatchComment(CommentLine(p)).Some? ==> MatchComment(CommentLine(p)).value.name == p.name
  {
    hide Sanitize, Format, AfterName;
    SanitizeInk(p.name);
    var rest := " (added " + Format(p.addedAt) + " by " + Sanitize(p.actor) + ")";
    var s := p.name + rest;
    assert CommentLine(p) == MARK + ([' '] + s);
    assert (MARK + ([' '] + s))[|MARK|..] == [' '] + s;
    assert s[0] == p.name[0] && rest[0] == ' ';
    SpaceThen(s);
    InkRun(p.name, rest);
    ShorterFails(p.name, rest, |p.name| - 1);
  }

  /** No shorter part of the name is followed by what may follow a name. */
  lemma {:induction false} ShorterFails(name: string, rest: string, n: nat)
    requires n < |name| && Ink(name) && Free(name, '(')
    ensures NameOf(name + rest, n) == None
  {
    if n > 0 {
      NoGroup((name + rest)[n..]);
      ShorterFails(name, rest, n - 1);
    }
  }

  lemma NoGroup(s: string)
    requires s != [] && IsInk(s[0]) && s[0] != '('
    ensures AfterName(s) == None
  {
    assert Lead(s, IsReSpace) == 0 && s[0..] == s;
    assert ADDED[0] == '(';
    if ADDED <= s { PrefixChars(ADDED, s); }
  }
}
