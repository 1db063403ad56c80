/** `users_database.yml`: an ordered list of key and value nodes with a map of the
    decoded users beside it. */
module UsersDb {
  import opened Wrappers
  import opened Text
  import opened Sequences
  import opened PeerNames

  /** One user's record; a value node is its encoding. */
  datatype User = User(disabled: bool, displayName: string, password: string, email: string, groups: seq<string>)

  /** One key node and the value node after it. */
  datatype Pair = Pair(name: string, user: User)

  // --- the node list -------------------------------------------------------------------------

  /** The first pair of that name, or the number of pairs. */
  function Find(content: seq<Pair>, name: string): (i: nat)
    ensures i <= |content| && (i < |content| ==> content[i].name == name)
    ensures forall j :: 0 <= j < i ==> content[j].name != name
  {
    if content == [] || content[0].name == name then 0 else 1 + Find(content[1..], name)
  }

  /** The list read as a map, as loading does: a later pair of one name wins. */
  function Index(content: seq<Pair>): map<string, User> {
    if content == [] then map[]
    else
      var last := content[|content| - 1];
      Index(content[..|content| - 1])[last.name := last.user]
  }

  function Upserted(content: seq<Pair>, name: string, u: User): seq<Pair> {
    var i := Find(content, name);
    if i < |content| then content[i := Pair(name, u)] else content + [Pair(name, u)]
  }

  function Dropped(content: seq<Pair>, name: string): seq<Pair> {
    var i := Find(content, name);
    if i < |content| then content[..i] + content[i + 1..] else content
  }

  ghost predicate DistinctUsers(content: seq<Pair>) {
    forall i, j :: 0 <= i < j < |content| ==> content[i].name != content[j].name
  }

  /** One pair was the first of that name, and is now `p`. */
  ghost predicate ReplacesFirst(was: seq<Pair>, p: Pair, now: seq<Pair>) {
    exists i :: 0 <= i < |was| && was[i].name == p.name && (forall j :: 0 <= j < i ==> was[j].name != p.name) && now == was[i := p]
  }

  ghost predicate RemovesFirst(was: seq<Pair>, name: string, now: seq<Pair>) {
    exists i :: 0 <= i < |was| && was[i].name == name && (forall j :: 0 <= j < i ==> was[j].name != name)
      && now == was[..i] + was[i + 1..]
  }

  datatype Failure = InvalidUsername | UserNotFound

  datatype Store = Store(content: seq<Pair>, users: map<string, User>)

  class UsersDB {
    var content: seq<Pair>
    var users: map<string, User>

    /** `loadUsersDB`: index every pair in order. */
    constructor (pairs: seq<Pair>)
      ensures View() == Store(pairs, Index(pairs))
    {
      content := pairs;
      var m: map<string, User> := map[];
      for i := 0 to |pairs|
        invariant m == Index(pairs[..i])
      {
        assert pairs[..i + 1][..i] == pairs[..i];
        m := m[pairs[i].name := pairs[i].user];
      }
      assert pairs[..|pairs|] == pairs;
      users := m;
    }

    function View(): Store
      reads this
    {
      Store(content, users)
    }

    /** `upsert`: replace the first pair of that name, or append one. */
    method Upsert(name: string, u: User) returns (r: Result<(), Failure>)
      modifies this
      ensures r.Ok? <==> ValidUsername(name)
      ensures View() == Apply(old(View()), Put(name, u))
      ensures r.Ok? && (forall p :: p in old(content) ==> p.name != name) ==> content == old(content) + [Pair(name, u)]
      ensures r.Ok? && (exists p :: p in old(content) && p.name == name) ==> ReplacesFirst(old(content), Pair(name, u), content)
    {
      if !ValidUsername(name) { return Err(InvalidUsername); }
      for i := 0 to |content|
        invariant i <= Find(content, name)
        invariant View() == old(View())
      {
        if content[i].name == name {
          content := content[i := Pair(name, u)];
          users := users[name := u];
          return Ok(());
        }
      }
      content := content + [Pair(name, u)];
      users := users[name := u];
      return Ok(());
    }

    /** `remove`: drop the first pair of that name. */
    method Remove(name: string) returns (r: Result<(), Failure>)
      modifies this
      ensures r.Ok? <==> exists p :: p in old(content) && p.name == name
      ensures View() == Apply(old(View()), Drop(name))
      ensures r.Ok? ==> RemovesFirst(old(content), name, content)
    {
      for i := 0 to |content|
        invariant i <= Find(content, name)
        invariant View() == old(View())
      {
        if content[i].name == name {
          assert content[i] in content;
          content := content[..i] + content[i + 1..];
          users := users - {name};
          return Ok(());
        }
      }
      return Err(UserNotFound);
    }

    /** `listSorted`. */
    method ListSorted() returns (names: seq<string>)
      ensures SortedNames(names) && NameSet(names) == users.Keys && NoRepeats(names)
    {
      var out := Keys(users.Keys);
      var a := new string[|out|](i requires 0 <= i < |out| => out[i]);
      assert a[..] == out;
      SortStrings(a);
      names := a[..];
      PermutationFacts(out, names);
    }
  }

  // --- operations over a run ---------------------------------------------------------------------

  datatype Op = Put(name: string, user: User) | Drop(name: string)

  function Apply(s: Store, op: Op): Store {
    match op
    case Put(name, u) =>
      if ValidUsername(name) then Store(Upserted(s.content, name, u), s.users[name := u]) else s
    case Drop(name) =>
      if Find(s.content, name) < |s.content| then Store(Dropped(s.content, name), s.users - {name}) else s
  }

  function Run(s: Store, ops: seq<Op>): Store
    decreases |ops|
  {
    if ops == [] then s else Run(Apply(s, ops[0]), ops[1..])
  }

  ghost predicate Agree(s: Store) { s.users == Index(s.content) }

  /** Of several pairs of one name the last counts. */
  lemma {:induction false} IndexLast(content: seq<Pair>, i: nat)
    requires i < |content| && forall j :: i < j < |content| ==> content[j].name != content[i].name
    ensures content[i].name in Index(content) && Index(content)[content[i].name] == content[i].user
  {
    if i < |content| - 1 {
      IndexLast(content[..|content| - 1], i);
    }
  }

  /** With distinct names, the map holds exactly the pairs. */
  lemma {:induction false} IndexPairs(content: seq<Pair>)
    requires DistinctUsers(content)
    ensures forall i :: 0 <= i < |content| ==>
              content[i].name in Index(content) && Index(content)[content[i].name] == content[i].user
    ensures forall k :: k in Index(content) ==> Find(content, k) < |content|
  {
    hide Find;
    if content != [] {
      var n := |content| - 1;
      var front, last := content[..n], content[n];
      IndexPairs(front);
      FindMore(content);
      assert Index(content) == Index(front)[last.name := last.user];
      forall i | 0 <= i < |content|
        ensures content[i].name in Index(content) && Index(content)[content[i].name] == content[i].user
      {
        if i < n { assert front[i] == content[i] && content[i].name != last.name; }
      }
    }
  }

  lemma FindMore(content: seq<Pair>)
    requires content != []
    ensures forall k :: Find(content[..|content| - 1], k) < |content| - 1 ==> Find(content, k) < |content|
    ensures Find(content, content[|content| - 1].name) < |content|
  {
    var front := content[..|content| - 1];
    forall k | Find(front, k) < |front| ensures Find(content, k) < |content| {
      assert content[Find(front, k)].name == k;
    }
  }

  /** A map with exactly the pairs of a list is the list read as a map. */
  lemma IndexIs(content: seq<Pair>, m: map<string, User>)
    requires DistinctUsers(content)
    requires forall i :: 0 <= i < |content| ==> content[i].name in m && m[content[i].name] == content[i].user
    requires forall k :: k in m ==> Find(content, k) < |content|
    ensures m == Index(content)
  {
    hide Index, Find;
    IndexPairs(content);
    var x := Index(content);
    forall k ensures (k in m <==> k in x) && (k in m && k in x ==> m[k] == x[k]) {
      if k in m || k in x {
        var i := Find(content, k);
        assert content[i].name == k;
      }
    }
  }

  /** An update keeps every name at its position. */
  lemma UpsertKeepsDistinct(content: seq<Pair>, name: string, u: User)
    requires DistinctUsers(content)
    ensures DistinctUsers(Upserted(content, name, u))
    ensures Index(Upserted(content, name, u)) == Index(content)[name := u]
  {
    var i := Find(content, name);
    var next := Upserted(content, name, u);
    if i == |content| {
      assert next[..|next| - 1] == content;
    } else {
      IndexPairs(content);
      var m := Index(content)[name := u];
      forall k | k in m ensures Find(next, k) < |next| {
        var j := if k == name then i else Find(content, k);
        assert next[j].name == k;
      }
      IndexIs(next, m);
    }
  }

  /** What is where after the first pair of the name is gone. */
  lemma DroppedAt(content: seq<Pair>, name: string)
    requires DistinctUsers(content)
    ensures var i, next := Find(content, name), Dropped(content, name);
      && |next| == (if i < |content| then |content| - 1 else |content|)
      && (forall j :: 0 <= j < |next| ==> next[j] == content[if j < i then j else j + 1] && next[j].name != name)
  {
    hide Find;
  }

  lemma DroppedDistinct(content: seq<Pair>, name: string)
    requires DistinctUsers(content)
    ensures DistinctUsers(Dropped(content, name))
  {
    hide Find, Dropped;
    DroppedAt(content, name);
  }

  lemma DropKeepsDistinct(content: seq<Pair>, name: string)
    requires DistinctUsers(content)
    ensures DistinctUsers(Dropped(content, name))
    ensures Index(Dropped(content, name)) == Index(content) - {name}
  {
    hide Index, Find, Dropped, DistinctUsers;
    var i := Find(content, name);
    var next := Dropped(content, name);
    IndexPairs(content);
    var m := Index(content) - {name};
    DroppedAt(content, name);
    DroppedDistinct(content, name);
    forall j | 0 <= j < |next| ensures next[j].name in m && m[next[j].name] == next[j].user {
    }
    forall k | k in m ensures Find(next, k) < |next| {
      var j := Find(content, k);
      assert next[if j < i then j else j - 1].name == k;
    }
    IndexIs(next, m);
  }

  lemma {:induction false} RunAgrees(s: Store, ops: seq<Op>)
    requires DistinctUsers(s.content) && Agree(s)
    ensures DistinctUsers(Run(s, ops).content) && Agree(Run(s, ops))
    decreases |ops|
  {
    if ops != [] {
      match ops[0] {
        case Put(name, u) => UpsertKeepsDistinct(s.content, name, u);
        case Drop(name) => DropKeepsDistinct(s.content, name);
      }
      RunAgrees(Apply(s, ops[0]), ops[1..]);
    }
  }

  ghost predicate AlwaysAgrees(content: seq<Pair>) {
    forall ops :: Agree(Run(Store(content, Index(content)), ops))
  }

  /** The map and the node list agree after every sequence of operations exactly when the
      file names no user twice. */
  lemma AgreesIffDistinct(content: seq<Pair>)
    ensures AlwaysAgrees(content) <==> DistinctUsers(content)
  {
    hide Index, Find;
    var s := Store(content, Index(content));
    if DistinctUsers(content) {
      forall ops ensures Agree(Run(s, ops)) { RunAgrees(s, ops); }
    } else {
      var i, j :| 0 <= i < j < |content| && content[i].name == content[j].name;
      var name := content[i].name;
      RepeatedLeft(content, i, j);
      var ops := [Drop(name)];
      assert Run(s, ops) == Run(Apply(s, ops[0]), ops[1..]) == Apply(s, Drop(name));
      assert !Agree(Run(s, ops));
    }
  }

  lemma {:induction false} IndexHas(content: seq<Pair>, i: nat)
    requires i < |content|
    ensures content[i].name in Index(content)
  {
    if i < |content| - 1 {
      IndexHas(content[..|content| - 1], i);
    }
  }

  /** Removing a repeated name leaves its second pair in the list. */
  lemma RepeatedLeft(content: seq<Pair>, i: nat, j: nat)
    requires i < j < |content| && content[i].name == content[j].name
    ensures Find(content, content[i].name) < |content|
    ensures content[i].name in Index(Dropped(content, content[i].name))
  {
    hide Index, Find;
    var k := Find(content, content[i].name);
    var next := Dropped(content, content[i].name);
    assert k <= i;
    ShiftDown(content, k, j);
    IndexHas(next, j - 1);
  }

  lemma ShiftDown(content: seq<Pair>, k: nat, j: nat)
    requires k < j < |content|
    ensures var next := content[..k] + content[k + 1..];
            |next| == |content| - 1 && next[j - 1] == content[j]
  {
  }

  /** One operation leaves the pairs of other names as they are, in their order. */
  lemma OneKeepsOrder(s: Store, op: Op, names: set<string>)
    requires op.name in names
    ensures Untouched(Apply(s, op).content, names) == Untouched(s.content, names)
  {
    hide Find, Untouched;
    var name := op.name;
    var i := Find(s.content, name);
    if i < |s.content| {
      var a, b := s.content[..i], s.content[i + 1..];
      assert s.content == a + [s.content[i]] + b;
      OneOut(a, s.content[i], b, names);
      if op.Put? {
        assert s.content[i := Pair(name, op.user)] == a + [Pair(name, op.user)] + b;
        OneOut(a, Pair(name, op.user), b, names);
      } else {
        UntouchedAppend(a, b, names);
      }
    } else if op.Put? {
      OneOut(s.content, Pair(name, op.user), [], names);
      assert s.content + [Pair(name, op.user)] + [] == s.content + [Pair(name, op.user)] && s.content + [] == s.content;
      UntouchedAppend(s.content, [], names);
    }
  }

  lemma OneOut(a: seq<Pair>, p: Pair, b: seq<Pair>, names: set<string>)
    requires p.name in names
    ensures Untouched(a + [p] + b, names) == Untouched(a, names) + Untouched(b, names)
  {
    hide Untouched;
    UntouchedAppend(a + [p], b, names);
    UntouchedAppend(a, [p], names);
    NotOther(p, names);
  }

  lemma NotOther(p: Pair, names: set<string>)
    requires p.name in names
    ensures Untouched([p], names) == []
  {
    assert [p][..0] == [];
  }

  /** The pairs whose names are not among `names`, in order. */
  function Untouched(content: seq<Pair>, names: set<string>): seq<Pair> {
    if content == [] then []
    else
      var last := content[|content| - 1];
      Untouched(content[..|content| - 1], names) + if last.name in names then [] else [last]
  }

  lemma {:induction false} UntouchedAppend(a: seq<Pair>, b: seq<Pair>, names: set<string>)
    ensures Untouched(a + b, names) == Untouched(a, names) + Untouched(b, names)
  {
    if b == [] {
      assert a + b == a;
    } else {
      var n := |b| - 1;
      UntouchedAppend(a, b[..n], names);
      assert (a + b)[..|a| + n] == a + b[..n] && (a + b)[|a| + n] == b[n];
    }
  }

  /** Over every sequence of operations, the users none of them names keep their nodes and
      their order. */
  lemma {:induction false} OthersKeepOrder(s: Store, ops: seq<Op>, names: set<string>)
    requires forall op :: op in ops ==> op.name in names
    ensures Untouched(Run(s, ops).content, names) == Untouched(s.content, names)
    decreases |ops|
  {
    hide Untouched, Apply;
    if ops != [] {
      OneKeepsOrder(s, ops[0], names);
      OthersKeepOrder(Apply(s, ops[0]), ops[1..], names);
    }
  }

  /** An update in place does not move the user. */
  lemma UpdateKeepsPosition(content: seq<Pair>, name: string, u: User)
    requires Find(content, name) < |content|
    ensures Find(Upserted(content, name, u), name) == Find(content, name)
    ensures |Upserted(content, name, u)| == |content|
  {
    var i := Find(content, name);
    var next := Upserted(content, name, u);
    assert next[i].name == name && forall j :: 0 <= j < i ==> next[j].name != name;
  }

  /** A new user comes after all the others; every old pair keeps its position. */
  lemma NewComesLast(s: Store, name: string, u: User)
    requires ValidUsername(name) && forall p :: p in s.content ==> p.name != name
    ensures var next := Apply(s, Put(name, u)).content;
      && |next| == |s.content| + 1 && next[|s.content|] == Pair(name, u)
      && forall i :: 0 <= i < |s.content| ==> next[i] == s.content[i]
  {
    assert Find(s.content, name) == |s.content|;
  }

  // --- sorting -------------------------------------------------------------------------------------

  ghost predicate SortedNames(s: seq<string>) {
    forall i, j :: 0 <= i < j < |s| ==> Leq(s[i], s[j])
  }

  function NameSet(s: seq<string>): set<string> { set x | x in s }

  /** `sortStrings`: insertion sort in place. */
  method SortStrings(s: array<string>)
    modifies s
    ensures SortedNames(s[..]) && multiset(s[..]) == multiset(old(s[..]))
  {
    if s.Length == 0 { return; }
    for i := 1 to s.Length
      invariant SortedNames(s[..i])
      invariant multiset(s[..]) == multiset(old(s[..]))
    {
      Insert(s, i);
    }
    assert s[..s.Length] == s[..];
  }

  /** All of the first `n` entries but the `j`th are sorted, and those after it are not
      below it. */
  ghost predicate SortedBut(s: seq<string>, j: nat) {
    && (forall a, b :: 0 <= a < b < |s| && a != j && b != j ==> Leq(s[a], s[b]))
    && (forall b :: j < b < |s| ==> Leq(s[j], s[b]))
  }

  /** The inner loop: sink the `i`th entry to its place among the sorted ones before it. */
  method Insert(s: array<string>, i: nat)
    requires i < s.Length && SortedNames(s[..i])
    modifies s
    ensures SortedNames(s[..i + 1]) && multiset(s[..]) == multiset(old(s[..]))
  {
    var j: nat := i;
    while j > 0 && !Leq(s[j - 1], s[j])
      invariant j <= i
      invariant SortedBut(s[..i + 1], j)
      invariant multiset(s[..]) == multiset(old(s[..]))
    {
      ghost var before := s[..i + 1];
      LeqTotal(s[j - 1], s[j]);
      s[j - 1], s[j] := s[j], s[j - 1];
      assert s[..i + 1] == before[j - 1 := before[j]][j := before[j - 1]];
      SinkStep(before, j);
      j := j - 1;
    }
    SunkSorted(s[..i + 1], j);
  }

  lemma SinkStep(s: seq<string>, j: nat)
    requires 0 < j < |s| && SortedBut(s, j) && Leq(s[j], s[j - 1])
    ensures SortedBut(s[j - 1 := s[j]][j := s[j - 1]], j - 1)
  {
  }

  lemma SunkSorted(s: seq<string>, j: nat)
    requires j < |s| && SortedBut(s, j) && (j == 0 || Leq(s[j - 1], s[j]))
    ensures SortedNames(s)
  {
    forall a, b | 0 <= a < b < |s| ensures Leq(s[a], s[b]) {
      if b == j && a < j - 1 { LeqTransitive(s[a], s[j - 1], s[j]); }
    }
  }

  /** The keys in some order. */
  method Keys(ks: set<string>) returns (out: seq<string>)
    ensures NoRepeats(out) && NameSet(out) == ks
  {
    out := [];
    var rest := ks;
    while rest != {}
      invariant NoRepeats(out) && NameSet(out) + rest == ks && NameSet(out) !! rest
    {
      var k :| k in rest;
      assert k !in NameSet(out);
      assert NameSet(out + [k]) == NameSet(out) + {k};
      out := out + [k];
      rest := rest - {k};
    }
  }

  lemma PermutationFacts(a: seq<string>, b: seq<string>)
    requires multiset(a) == multiset(b) && NoRepeats(a)
    ensures NameSet(b) == NameSet(a) && NoRepeats(b)
  {
    forall x ensures x in b <==> x in a {
      assert x in multiset(a) <==> x in a;
      assert x in multiset(b) <==> x in b;
    }
    NoRepeatCounts(a);
    forall i, j | 0 <= i < j < |b| ensures b[i] != b[j] {
      if b[i] == b[j] { TwiceCounts(b, i, j); }
    }
  }

  lemma {:induction false} NoRepeatCounts(a: seq<string>)
    requires NoRepeats(a)
    ensures forall x :: multiset(a)[x] <= 1
  {
    if a != [] {
      var n := |a| - 1;
      NoRepeatCounts(a[..n]);
      assert a == a[..n] + [a[n]];
      assert a[n] !in a[..n];
    }
  }

  lemma TwiceCounts(b: seq<string>, i: nat, j: nat)
    requires i < j < |b| && b[i] == b[j]
    ensures multiset(b)[b[i]] >= 2
  {
    assert b == b[..j] + [b[j]] + b[j + 1..];
    assert b[i] in b[..j];
  }
}
