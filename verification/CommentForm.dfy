/** Which comments the adopting expression matches, and which name it takes, stated by the form
    of the text. */
module CommentForm {
  import opened Wrappers
  import opened Text
  import opened PeerConf
  import opened PeerComment
  import opened PeerParams

  // --- the form ------------------------------------------------------------------------------------

  /** `\s+`. */
  predicate Gap(s: string) { s != "" && Blanks(s) }

  /** `(?:\s+by\s+(\S+))?\)` and blanks to the end. */
  ghost predicate ActorForm(s: string, actor: string) {
    || (actor == "" && exists after :: Blanks(after) && s == ")" + after)
    || (Ink(actor) && exists g, h, after :: ByForm(s, g, h, actor, after))
  }

  ghost predicate ByForm(s: string, g: string, h: string, actor: string, after: string) {
    Gap(g) && Gap(h) && Blanks(after) && s == g + ("by" + (h + (actor + (")" + after))))
  }

  /** `\(added\s+(\S+)` and what follows the time. */
  ghost predicate GroupForm(s: string, stamp: string, actor: string) {
    Ink(stamp) && exists g, rest :: Gap(g) && s == "(added" + (g + (stamp + rest)) && ActorForm(rest, actor)
  }

  /** What follows the name. */
  ghost predicate TailForm(s: string, stamp: string, actor: string) {
    || (stamp == "" && actor == "" && Blanks(s))
    || (exists b, group :: Blanks(b) && s == b + group && GroupForm(group, stamp, actor))
  }

  /** `^# peer:\s*(\S+)\s*(?:\(added\s+(\S+)(?:\s+by\s+(\S+))?\))?\s*$`. */
  ghost predicate CommentOf(comment: string, m: Adopted) {
    Ink(m.name) && exists b, rest :: Blanks(b) && comment == "# peer:" + (b + (m.name + rest)) && TailForm(rest, m.stamp, m.actor)
  }

  // --- blanks and gaps ---------------------------------------------------------------------------------

  lemma Skipped(s: string)
    ensures Blanks(s) <==> SkipSpace(s) == []
  {
    SpaceClass(s);
    if Blanks(s) { LeadAll(s, IsReSpace); }
  }

  lemma GapTaken(s: string) returns (g: string)
    requires AfterSpaces(s).Some?
    ensures Gap(g) && s == g + AfterSpaces(s).value
  {
    g := s[..Lead(s, IsReSpace)];
    LeftBlanks(s);
  }

  lemma GapGiven(g: string, rest: string)
    requires Gap(g) && rest != [] && IsInk(rest[0])
    ensures AfterSpaces(g + rest) == Some(rest)
  {
    SpaceClass(g);
    assert (g + rest)[0] == g[0];
    LeftOf(g, rest);
  }

  lemma InkPrefix(s: string, n: nat)
    requires 0 < n <= Lead(s, IsInk)
    ensures Ink(s[..n]) && s == s[..n] + s[n..]
  {
    assert forall i :: 0 <= i < n ==> s[..n][i] == s[i];
  }

  lemma InkLead(a: string, rest: string)
    requires Ink(a)
    ensures Lead(a + rest, IsInk) >= |a| && (a + rest)[..|a|] == a && (a + rest)[|a|..] == rest
    ensures (a + rest)[0] == a[0] && IsInk(a[0])
  {
    assert forall i :: 0 <= i < |a| ==> (a + rest)[i] == a[i];
  }

  // --- from a match to the form ------------------------------------------------------------------------------

  lemma CloseTaken(s: string)
    ensures Closes(s) <==> exists after :: Blanks(after) && s == ")" + after
  {
    if Closes(s) {
      Skipped(s[1..]);
      assert s == ")" + s[1..];
    }
    if after :| Blanks(after) && s == ")" + after {
      Skipped(after);
      assert s[1..] == after;
    }
  }

  lemma {:induction false} ActorTaken(s: string, n: nat)
    requires n <= Lead(s, IsInk) && ActorOf(s, n).Some?
    ensures var actor := ActorOf(s, n).value; Ink(actor) && exists after :: Blanks(after) && s == actor + (")" + after)
  {
    if Closes(s[n..]) {
      InkPrefix(s, n);
      CloseTaken(s[n..]);
      var after :| Blanks(after) && s[n..] == ")" + after;
      assert s == s[..n] + (")" + after);
    } else {
      ActorTaken(s, n - 1);
    }
  }

  lemma ByTaken(s: string)
    requires ByPart(s).Some?
    ensures ActorForm(s, ByPart(s).value)
  {
    hide Blanks, Ink;
    var g := GapTaken(s);
    var a := AfterSpaces(s).value;
    var tail := a[2..];
    assert a == "by" + tail;
    var h := GapTaken(tail);
    var b := AfterSpaces(tail).value;
    ActorTaken(b, Lead(b, IsInk));
    var after :| Blanks(after) && b == ByPart(s).value + (")" + after);
    assert ByForm(s, g, h, ByPart(s).value, after);
  }

  lemma {:induction false} StampTaken(s: string, n: nat)
    requires n <= Lead(s, IsInk) && StampOf(s, n).Some?
    ensures var (stamp, actor) := StampOf(s, n).value;
      Ink(stamp) && exists rest :: s == stamp + rest && ActorForm(rest, actor)
  {
    hide ActorForm, ByPart, Closes;
    var (stamp, actor) := StampOf(s, n).value;
    if ByPart(s[n..]).Some? {
      InkPrefix(s, n);
      ByTaken(s[n..]);
      assert s == stamp + s[n..] && ActorForm(s[n..], actor);
    } else if Closes(s[n..]) {
      InkPrefix(s, n);
      CloseForm(s[n..]);
      assert s == stamp + s[n..] && ActorForm(s[n..], actor);
    } else {
      StampTaken(s, n - 1);
    }
  }

  lemma CloseForm(s: string)
    requires Closes(s)
    ensures ActorForm(s, "")
  {
    CloseTaken(s);
  }

  lemma TailTaken(s: string)
    requires AfterName(s).Some?
    ensures TailForm(s, AfterName(s).value.0, AfterName(s).value.1)
  {
    hide ActorForm, StampOf, Blanks, Ink;
    var r := SkipSpace(s);
    LeftBlanks(s);
    Skipped(s);
    if r != [] {
      var tail := r[|ADDED|..];
      assert r == "(added" + tail;
      var g := GapTaken(tail);
      var t := AfterSpaces(tail).value;
      StampTaken(t, Lead(t, IsInk));
      var (stamp, actor) := AfterName(s).value;
      var rest :| t == stamp + rest && ActorForm(rest, actor);
      assert r == "(added" + (g + (stamp + rest));
      assert GroupForm(r, stamp, actor);
    }
  }

  lemma {:induction false} NameTaken(s: string, n: nat)
    requires n <= Lead(s, IsInk) && NameOf(s, n).Some?
    ensures var m := NameOf(s, n).value;
      Ink(m.name) && exists rest :: s == m.name + rest && TailForm(rest, m.stamp, m.actor)
  {
    hide TailForm, AfterName;
    if AfterName(s[n..]).Some? {
      InkPrefix(s, n);
      TailTaken(s[n..]);
      var m := NameOf(s, n).value;
      assert s == m.name + s[n..] && TailForm(s[n..], m.stamp, m.actor);
    } else {
      NameTaken(s, n - 1);
    }
  }

  lemma MatchTaken(comment: string)
    requires MatchComment(comment).Some?
    ensures CommentOf(comment, MatchComment(comment).value)
  {
    hide TailForm, NameOf, Blanks;
    var tail := comment[|MARK|..];
    var s := SkipSpace(tail);
    LeftBlanks(tail);
    assert comment == "# peer:" + tail;
    NameTaken(s, Lead(s, IsInk));
    var m := MatchComment(comment).value;
    var rest :| s == m.name + rest && TailForm(rest, m.stamp, m.actor);
    var b := tail[..Lead(tail, IsReSpace)];
    assert comment == "# peer:" + (b + (m.name + rest));
  }

  // --- from the form to a match --------------------------------------------------------------------------------

  lemma {:induction false} ActorFound(s: string, k: nat, n: nat)
    requires 0 < k <= n <= |s| && Closes(s[k..])
    ensures ActorOf(s, n).Some?
  {
    if n > k && !Closes(s[n..]) { ActorFound(s, k, n - 1); }
  }

  lemma ByFound(s: string, actor: string)
    requires Ink(actor) && ActorForm(s, actor)
    ensures ByPart(s).Some?
  {
    hide Blanks, Closes;
    var g, h, after :| ByForm(s, g, h, actor, after);
    var last := ")" + after;
    var b := actor + last;
    var a := "by" + (h + b);
    assert IsInk("by"[0]) && a[0] == "by"[0] && a[2..] == h + b;
    GapGiven(g, a);
    InkLead(actor, last);
    GapGiven(h, b);
    CloseTaken(last);
    ActorFound(b, |actor|, Lead(b, IsInk));
  }

  lemma {:induction false} StampFound(s: string, k: nat, n: nat)
    requires 0 < k <= n <= |s| && (ByPart(s[k..]).Some? || Closes(s[k..]))
    ensures StampOf(s, n).Some?
  {
    hide ByPart, Closes;
    if n > k && ByPart(s[n..]).None? && !Closes(s[n..]) { StampFound(s, k, n - 1); }
  }

  lemma EndFound(rest: string, actor: string)
    requires ActorForm(rest, actor)
    ensures ByPart(rest).Some? || Closes(rest)
  {
    hide ByPart, Closes;
    if Ink(actor) { ByFound(rest, actor); } else { CloseTaken(rest); }
  }

  lemma GroupFound(b: string, group: string, stamp: string, actor: string)
    requires Blanks(b) && GroupForm(group, stamp, actor)
    ensures AfterName(b + group).Some?
  {
    hide Blanks, StampOf, ActorForm;
    var g, rest :| Gap(g) && group == "(added" + (g + (stamp + rest)) && ActorForm(rest, actor);
    assert group[0] == "(added"[0] == '(' && ADDED <= group && group[|ADDED|..] == g + (stamp + rest);
    LeftOf(b, group);
    InkLead(stamp, rest);
    GapGiven(g, stamp + rest);
    EndFound(rest, actor);
    StampFound(stamp + rest, |stamp|, Lead(stamp + rest, IsInk));
  }

  lemma TailFound(s: string, stamp: string, actor: string)
    requires TailForm(s, stamp, actor)
    ensures AfterName(s).Some?
  {
    hide GroupForm, AfterName;
    if Blanks(s) {
      BlankTail(s);
    } else {
      var b, group :| Blanks(b) && s == b + group && GroupForm(group, stamp, actor);
      GroupFound(b, group, stamp, actor);
    }
  }

  lemma BlankTail(s: string)
    requires Blanks(s)
    ensures AfterName(s) == Some(("", ""))
  {
    Skipped(s);
    assert ADDED[0] == '(';
  }

  /** The search takes a name at least as long as any other that fits. */
  lemma {:induction false} NameFound(s: string, k: nat, n: nat)
    requires 0 < k <= n <= |s| && AfterName(s[k..]).Some?
    ensures NameOf(s, n).Some? && |NameOf(s, n).value.name| >= k
  {
    hide AfterName;
    if n > k && AfterName(s[n..]).None? { NameFound(s, k, n - 1); }
  }

  lemma MatchFound(comment: string, m: Adopted)
    requires CommentOf(comment, m)
    ensures MatchComment(comment).Some? && m.name <= MatchComment(comment).value.name
  {
    hide TailForm, AfterName, Blanks, NameOf;
    var b, rest :| Blanks(b) && comment == "# peer:" + (b + (m.name + rest)) && TailForm(rest, m.stamp, m.actor);
    var s := m.name + rest;
    assert MARK <= comment && comment[|MARK|..] == b + s;
    InkLead(m.name, rest);
    LeftOf(b, s);
    TailFound(rest, m.stamp, m.actor);
    NameFound(s, |m.name|, Lead(s, IsInk));
    NameIsPrefix(s, Lead(s, IsInk));
    assert s[..|m.name|] == m.name;
    ShorterPrefix(s, m.name, NameOf(s, Lead(s, IsInk)).value.name);
  }

  lemma ShorterPrefix(s: string, a: string, b: string)
    requires a <= s && b <= s && |a| <= |b|
    ensures a <= b
  {
  }

  lemma {:induction false} NameIsPrefix(s: string, n: nat)
    requires n <= |s| && NameOf(s, n).Some?
    ensures NameOf(s, n).value.name <= s
  {
    hide AfterName;
    if AfterName(s[n..]).None? { NameIsPrefix(s, n - 1); }
  }

  /** A comment is adopted exactly if it has the expression's form; what is captured spells the
      comment, and the name is the longest that does. */
  lemma MatchIff(comment: string)
    ensures MatchComment(comment).Some? <==> exists m :: CommentOf(comment, m)
    ensures MatchComment(comment).Some? ==>
      && CommentOf(comment, MatchComment(comment).value)
      && forall m :: CommentOf(comment, m) ==> m.name <= MatchComment(comment).value.name
  {
    hide CommentOf, MatchComment;
    if MatchComment(comment).Some? { MatchTaken(comment); }
    forall m | CommentOf(comment, m) ensures MatchComment(comment).Some? && m.name <= MatchComment(comment).value.name {
      MatchFound(comment, m);
    }
  }
}
