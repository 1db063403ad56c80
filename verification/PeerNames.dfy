/** The validators of user names and device tags, and the peer name made of both. */
module PeerNames {
  import opened Wrappers
  import opened Text

  predicate IsLow(c: char) { 'a' <= c <= 'z' }

  predicate IsUserChar(c: char) { IsLow(c) || IsDigit(c) || c == '_' || c == '-' }

  predicate IsTagChar(c: char) { IsLow(c) || IsDigit(c) || c == '-' }

  /** `reUsername`: `^[a-z][a-z0-9_-]{0,31}$`. */
  predicate ValidUsername(s: string) {
    1 <= |s| <= 32 && IsLow(s[0]) && Lead(s, IsUserChar) == |s|
  }

  /** `reDeviceTag`: `^[a-z0-9][a-z0-9-]{0,31}$`. */
  predicate ValidDeviceTag(s: string) {
    1 <= |s| <= 32 && (IsLow(s[0]) || IsDigit(s[0])) && Lead(s, IsTagChar) == |s|
  }

  /** `peerNameFor`. */
  function PeerNameFor(user: string, tag: string): Option<string> {
    if ValidUsername(user) && ValidDeviceTag(tag) then Some(user + "-" + tag) else None
  }

  /** The two patterns, character by character. */
  lemma ValidIff(s: string)
    ensures ValidUsername(s) <==>
      && 1 <= |s| <= 32 && 'a' <= s[0] <= 'z'
      && forall i :: 0 <= i < |s| ==> 'a' <= s[i] <= 'z' || '0' <= s[i] <= '9' || s[i] in "_-"
    ensures ValidDeviceTag(s) <==>
      && 1 <= |s| <= 32 && s[0] != '-'
      && forall i :: 0 <= i < |s| ==> 'a' <= s[i] <= 'z' || '0' <= s[i] <= '9' || s[i] == '-'
  {
    assert forall i :: 0 <= i < Lead(s, IsUserChar) ==> IsUserChar(s[i]);
    assert forall i :: 0 <= i < Lead(s, IsTagChar) ==> IsTagChar(s[i]);
  }

  /** A user's prefix begins the name of another user's device exactly if the names differ only
      by hyphens and what stands between them: never between user names without hyphens. */
  lemma PrefixTakes(user: string, owner: string, tag: string)
    ensures user + "-" <= owner + "-" + tag <==>
      || user == owner
      || user + "-" <= owner
      || (owner + "-" <= user && user[|owner| + 1..] + "-" <= tag)
  {
    var name := owner + "-" + tag;
    if |user| == |owner| {
      assert name[..|user|] == owner && (user + "-" <= name ==> (user + "-")[..|user|] == name[..|user|]);
    } else if |user| < |owner| {
      assert name[..|user| + 1] == owner[..|user| + 1];
    } else {
      LongerUser(user, owner, tag);
    }
  }

  lemma LongerUser(user: string, owner: string, tag: string)
    requires |user| > |owner|
    ensures user + "-" <= owner + "-" + tag <==> owner + "-" <= user && user[|owner| + 1..] + "-" <= tag
  {
    if user + "-" <= owner + "-" + tag { TakesLonger(user, owner, tag); }
    if owner + "-" <= user && user[|owner| + 1..] + "-" <= tag { LongerTakes(user, owner, tag); }
  }

  lemma TakesLonger(user: string, owner: string, tag: string)
    requires |user| > |owner| && user + "-" <= owner + "-" + tag
    ensures owner + "-" <= user && user[|owner| + 1..] + "-" <= tag
  {
    var head := owner + "-";
    var rest := user[|head|..];
    assert head == (head + tag)[..|head|] == (user + "-")[..|head|] == user[..|head|];
    assert (user + "-")[|head|..] == rest + "-";
    assert (head + tag)[|head|..|user| + 1] == tag[..|rest| + 1];
  }

  lemma LongerTakes(user: string, owner: string, tag: string)
    requires |user| > |owner| && owner + "-" <= user && user[|owner| + 1..] + "-" <= tag
    ensures user + "-" <= owner + "-" + tag
  {
    var head := owner + "-";
    var rest := user[|head|..];
    var more := tag[|rest| + 1..];
    assert user == head + rest && tag == (rest + "-") + more;
    assert head + tag == (user + "-") + more;
  }
}
