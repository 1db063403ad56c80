/** Text as the Go standard library sees it: splitting and joining on one
    separator, trimming, and decimal numbers. Strings are sequences of Unicode
    characters. */
module Text {
  import opened Wrappers

  // --- split and join ---------------------------------------------------------

  /** `strings.Split(s, sep)` for a one-character separator. */
  function Split(s: string, sep: char): (parts: seq<string>)
    ensures |parts| >= 1
  {
    if s == [] then [[]]
    else
      var rest := Split(s[1..], sep);
      if s[0] == sep then [[]] + rest else [[s[0]] + rest[0]] + rest[1..]
  }

  /** `strings.Join(parts, sep)`. */
  function Join(parts: seq<string>, sep: char): string {
    if parts == [] then []
    else if |parts| == 1 then parts[0]
    else parts[0] + [sep] + Join(parts[1..], sep)
  }

  ghost predicate Free(s: string, sep: char) {
    forall i :: 0 <= i < |s| ==> s[i] != sep
  }

  ghost predicate AllFree(parts: seq<string>, sep: char) {
    forall i :: 0 <= i < |parts| ==> Free(parts[i], sep)
  }

  lemma {:induction false} SplitPiecesFree(s: string, sep: char)
    ensures AllFree(Split(s, sep), sep)
  {
    if s != [] {
      SplitPiecesFree(s[1..], sep);
    }
  }

  lemma {:induction false} JoinSplit(s: string, sep: char)
    ensures Join(Split(s, sep), sep) == s
  {
    if s != [] {
      JoinSplit(s[1..], sep);
      var rest := Split(s[1..], sep);
      assert s == [s[0]] + s[1..];
      if s[0] == sep {
        assert Split(s, sep)[1..] == rest;
      } else {
        assert Split(s, sep)[1..] == rest[1..];
        assert Join(Split(s, sep), sep) == [s[0]] + Join(rest, sep);
      }
    }
  }

  lemma {:induction false} SplitFree(s: string, sep: char)
    requires Free(s, sep)
    ensures Split(s, sep) == [s]
  {
    if s != [] {
      SplitFree(s[1..], sep);
      assert [s[0]] + s[1..] == s;
    }
  }

  lemma {:induction false} SplitAppend(a: string, b: string, sep: char)
    ensures Split(a + [sep] + b, sep) == Split(a, sep) + Split(b, sep)
  {
    var all := a + [sep] + b;
    if a == [] {
      assert all[1..] == b && all[0] == sep;
    } else {
      SplitAppend(a[1..], b, sep);
      assert all[1..] == a[1..] + [sep] + b && all[0] == a[0];
      SplitHeads(Split(a[1..], sep), Split(b, sep), a[0]);
    }
  }

  /** Peel one field. */
  lemma SplitField(field: string, rest: string, sep: char)
    requires Free(field, sep)
    ensures Split(field + [sep] + rest, sep) == [field] + Split(rest, sep)
  {
    SplitFree(field, sep);
    SplitAppend(field, rest, sep);
  }

  lemma SplitHeads(p: seq<string>, q: seq<string>, c: char)
    requires p != []
    ensures [[]] + (p + q) == ([[]] + p) + q
    ensures [[c] + (p + q)[0]] + (p + q)[1..] == ([[c] + p[0]] + p[1..]) + q
  {
    assert (p + q)[1..] == p[1..] + q;
  }

  lemma {:induction false} SplitJoin(parts: seq<string>, sep: char)
    requires parts != [] && AllFree(parts, sep)
    ensures Split(Join(parts, sep), sep) == parts
  {
    SplitFree(parts[0], sep);
    if |parts| > 1 {
      SplitJoin(parts[1..], sep);
      SplitAppend(parts[0], Join(parts[1..], sep), sep);
      assert parts == [parts[0]] + parts[1..];
    }
  }

  // --- trimming ----------------------------------------------------------------

  /** `unicode.IsSpace`. */
  predicate IsSpace(c: char) {
    || '\t' <= c <= '\r' || c == ' ' || c == '\U{85}' || c == '\U{A0}' || c == '\U{1680}'
    || '\U{2000}' <= c <= '\U{200A}' || c == '\U{2028}' || c == '\U{2029}'
    || c == '\U{202F}' || c == '\U{205F}' || c == '\U{3000}'
  }

  /** The class `\s` of a Go regular expression: narrower than `IsSpace`. */
  predicate IsReSpace(c: char) {
    c == '\t' || c == '\n' || c == '\U{0C}' || c == '\r' || c == ' '
  }

  /** How many leading characters satisfy `p`. */
  function Lead(s: string, p: char -> bool): (n: nat)
    ensures n <= |s|
    ensures forall i :: 0 <= i < n ==> p(s[i])
    ensures n < |s| ==> !p(s[n])
  {
    if s != [] && p(s[0]) then 1 + Lead(s[1..], p) else 0
  }

  /** How many trailing characters satisfy `p`. */
  function Trail(s: string, p: char -> bool): (n: nat)
    ensures n <= |s|
    ensures forall i :: |s| - n <= i < |s| ==> p(s[i])
    ensures n < |s| ==> !p(s[|s| - n - 1])
  {
    if s != [] && p(s[|s| - 1]) then 1 + Trail(s[..|s| - 1], p) else 0
  }

  function TrimLeft(s: string, p: char -> bool): string { s[Lead(s, p)..] }

  function TrimRight(s: string, p: char -> bool): string { s[..|s| - Trail(s, p)] }

  /** `strings.TrimFunc`: both ends. */
  function Trim(s: string, p: char -> bool): string { TrimRight(TrimLeft(s, p), p) }

  /** `strings.TrimSpace`. */
  function TrimSpace(s: string): string { Trim(s, IsSpace) }

  /** A string whose ends are kept by `p` is untouched by trimming. */
  lemma TrimKeeps(s: string, p: char -> bool)
    requires s != [] ==> !p(s[0]) && !p(s[|s| - 1])
    ensures Trim(s, p) == s
  {
    assert Lead(s, p) == 0 && s[0..] == s;
    assert Trail(s, p) == 0 && s[..|s|] == s;
  }

  /** What trimming leaves has no end to trim. */
  lemma TrimEnds(s: string, p: char -> bool)
    ensures var r := Trim(s, p); r != [] ==> !p(r[0]) && !p(r[|r| - 1])
  {
    var l := TrimLeft(s, p);
    var r := TrimRight(l, p);
    if r != [] {
      assert l[0] == s[Lead(s, p)];
      assert r[0] == l[0];
    }
  }

  /** Text before a string that starts with a kept character is trimmed alone. */
  lemma {:induction false} LeadOf(a: string, b: string, p: char -> bool)
    requires forall i :: 0 <= i < |a| ==> p(a[i])
    requires b == [] || !p(b[0])
    ensures Lead(a + b, p) == |a|
  {
    assert forall i :: 0 <= i < |a| ==> (a + b)[i] == a[i];
    if b != [] {
      assert (a + b)[|a|] == b[0];
    }
  }

  lemma LeadAll(s: string, p: char -> bool)
    requires forall i :: 0 <= i < |s| ==> p(s[i])
    ensures Lead(s, p) == |s|
  {
  }

  // --- decimal numbers -----------------------------------------------------------

  predicate IsDigit(c: char) { '0' <= c <= '9' }

  ghost predicate AllDigits(s: string) {
    forall i :: 0 <= i < |s| ==> IsDigit(s[i])
  }

  function DigitChar(d: nat): char
    requires d < 10
  {
    ('0' as int + d) as char
  }

  /** `%d` of a natural number. */
  function Decimal(n: nat): (s: string)
    ensures s != [] && AllDigits(s)
  {
    if n < 10 then [DigitChar(n)] else Decimal(n / 10) + [DigitChar(n % 10)]
  }

  /** The number a run of digits denotes. A character that is no digit would count as zero; no
      caller passes one. */
  function DigitsValue(s: string): nat {
    if s == [] then 0
    else
      var c := s[|s| - 1];
      DigitsValue(s[..|s| - 1]) * 10 + (if IsDigit(c) then c as int - '0' as int else 0)
  }

  lemma {:induction false} DecimalValue(n: nat)
    ensures DigitsValue(Decimal(n)) == n
  {
    if n >= 10 {
      DecimalValue(n / 10);
      var s := Decimal(n / 10);
      assert (s + [DigitChar(n % 10)])[..|s|] == s;
    } else {
      assert DigitsValue([DigitChar(n)][..0]) == 0;
    }
  }

  /** `strconv.Atoi` on a 64-bit platform. */
  function Atoi(s: string): Option<int> {
    var signed := s != [] && (s[0] == '-' || s[0] == '+');
    var digits := if signed then s[1..] else s;
    if digits == [] || Lead(digits, IsDigit) < |digits| then None
    else
      var v: int := DigitsValue(digits);
      var n := if signed && s[0] == '-' then -v else v;
      if -0x8000_0000_0000_0000 <= n < 0x8000_0000_0000_0000 then Some(n) else None
  }

  /** Printing and parsing agree on every number an `int` holds. */
  lemma AtoiDecimal(n: nat)
    requires n < 0x8000_0000_0000_0000
    ensures Atoi(Decimal(n)) == Some(n)
  {
    DecimalValue(n);
  }

  // --- searching ---------------------------------------------------------------------

  /** The first position whose entry satisfies `p`, or the length. */
  function FirstWhere(lines: seq<string>, p: string -> bool): (i: nat)
    ensures i <= |lines|
    ensures i < |lines| ==> p(lines[i])
    ensures forall j :: 0 <= j < i ==> !p(lines[j])
  {
    if lines == [] || p(lines[0]) then 0 else 1 + FirstWhere(lines[1..], p)
  }

  lemma FirstIs(lines: seq<string>, p: string -> bool, i: nat)
    requires i <= |lines| && (forall j :: 0 <= j < i ==> !p(lines[j])) && (i < |lines| ==> p(lines[i]))
    ensures FirstWhere(lines, p) == i
  {
  }

  /** Searches in two texts that differ in one entry, not matched in either, end at
      the same place. */
  lemma FirstSame(was: seq<string>, now: seq<string>, k: nat, p: string -> bool)
    requires |was| == |now| && k < |was| && !p(was[k]) && !p(now[k])
    requires forall j :: 0 <= j < |was| && j != k ==> was[j] == now[j]
    ensures FirstWhere(was, p) == FirstWhere(now, p)
    ensures var i := FirstWhere(was, p); i < |was| ==> was[i] == now[i]
  {
    var i := FirstWhere(was, p);
    assert forall j :: 0 <= j < i ==> !p(now[j]);
    FirstIs(now, p, i);
  }

  /** A last entry that is not matched changes no search. */
  lemma FirstSnoc(lines: seq<string>, a: string, p: string -> bool)
    requires !p(a)
    ensures var i := FirstWhere(lines, p);
            FirstWhere(lines + [a], p) == if i < |lines| then i else |lines| + 1
  {
    var i := FirstWhere(lines, p);
    FirstIs(lines + [a], p, if i < |lines| then i else |lines| + 1);
  }

  // --- prefixes --------------------------------------------------------------------

  /** `strings.HasPrefix(s, p)` is `p <= s`; `strings.HasSuffix(s, "\n")` is this. */
  predicate EndsLine(s: string) { s != [] && s[|s| - 1] == '\n' }

  /** A text that ends in a newline has an empty last line. */
  lemma LastLine(s: string)
    requires EndsLine(s)
    ensures Split(s, '\n') == Split(s[..|s| - 1], '\n') + [[]]
  {
    assert s == s[..|s| - 1] + ['\n'] + [];
    SplitAppend(s[..|s| - 1], [], '\n');
  }

  lemma PrefixChars(p: string, s: string)
    requires p <= s
    ensures |p| <= |s| && forall i :: 0 <= i < |p| ==> s[i] == p[i]
  {
  }

  /** The lines of a text without the empty one after a final newline. */
  function FullLines(s: string): seq<string> {
    var lines := Split(s, '\n');
    if EndsLine(s) then lines[..|lines| - 1] else lines
  }

  /** `strings.TrimPrefix`. */
  function TrimPrefix(s: string, p: string): string {
    if p <= s then s[|p|..] else s
  }

  // --- order --------------------------------------------------------------------------

  /** Go's `<=` on strings: by characters, a prefix first. */
  predicate Leq(a: string, b: string) {
    a == [] || (b != [] && (a[0] < b[0] || (a[0] == b[0] && Leq(a[1..], b[1..]))))
  }

  lemma {:induction false} LeqTotal(a: string, b: string)
    ensures Leq(a, b) || Leq(b, a)
  {
    if a != [] && b != [] { LeqTotal(a[1..], b[1..]); }
  }

  lemma {:induction false} LeqTransitive(a: string, b: string, c: string)
    requires Leq(a, b) && Leq(b, c)
    ensures Leq(a, c)
  {
    if a != [] && b != [] && c != [] && a[0] == b[0] == c[0] { LeqTransitive(a[1..], b[1..], c[1..]); }
  }

  /** One string is not above another exactly if it is a prefix, or smaller at the first place
      where they differ. */
  lemma {:induction false} LeqIff(a: string, b: string)
    ensures Leq(a, b) <==> a <= b || exists i :: SmallerAt(a, b, i)
  {
    if a != [] && b != [] {
      LeqIff(a[1..], b[1..]);
      if a[0] == b[0] {
        assert a == [a[0]] + a[1..] && b == [b[0]] + b[1..];
        if i :| SmallerAt(a[1..], b[1..], i) { assert SmallerAt(a, b, i + 1) by { SmallerCons(a, b, i); } }
        if i :| SmallerAt(a, b, i) { assert SmallerAt(a[1..], b[1..], i - 1); }
      } else if a[0] < b[0] {
        assert SmallerAt(a, b, 0);
      } else {
        forall i ensures !SmallerAt(a, b, i) {}
      }
    }
  }

  predicate SmallerAt(a: string, b: string, i: int) {
    0 <= i < |a| && i < |b| && a[i] < b[i] && forall j :: 0 <= j < i ==> a[j] == b[j]
  }

  lemma SmallerCons(a: string, b: string, i: int)
    requires a != [] && b != [] && a[0] == b[0] && SmallerAt(a[1..], b[1..], i)
    ensures SmallerAt(a, b, i + 1)
  {
    forall j | 0 <= j < i + 1 ensures a[j] == b[j] {
      if j > 0 { assert a[1..][j - 1] == b[1..][j - 1]; }
    }
  }

  // --- reading numbers ------------------------------------------------------------------

  function Power10(n: nat): nat { if n == 0 then 1 else 10 * Power10(n - 1) }

  lemma DigitsSnoc(s: string, c: char)
    requires IsDigit(c)
    ensures DigitsValue(s + [c]) == DigitsValue(s) * 10 + (c as int - '0' as int)
  {
    assert (s + [c])[..|s|] == s;
  }

  /** A run of digits is read by place value. */
  lemma {:induction false} PlaceValue(a: string, b: string)
    requires AllDigits(a) && AllDigits(b)
    ensures DigitsValue(a + b) == DigitsValue(a) * Power10(|b|) + DigitsValue(b)
  {
    if b == [] {
      assert a + b == a;
    } else {
      hide DigitsValue, Power10;
      var front, c := b[..|b| - 1], b[|b| - 1];
      assert b == front + [c] && a + b == (a + front) + [c];
      PlaceValue(a, front);
      DigitsSnoc(front, c);
      DigitsSnoc(a + front, c);
      TenMore(|front|);
      TenTimes(DigitsValue(a), Power10(|front|), DigitsValue(front));
    }
  }

  lemma TenMore(n: nat)
    ensures Power10(n + 1) == 10 * Power10(n)
  {
  }

  lemma TenTimes(x: nat, y: nat, z: nat)
    ensures (x * y + z) * 10 == x * (10 * y) + z * 10
  {
    assert x * (10 * y) == (x * y) * 10;
  }

  lemma OneDigit(c: char)
    requires IsDigit(c)
    ensures DigitsValue([c]) == c as int - '0' as int
  {
    assert [c][..0] == [];
  }

  ghost predicate Signed(s: string, sign: string, digits: string) {
    sign in {"", "+", "-"} && digits != [] && AllDigits(digits) && s == sign + digits
  }

  lemma AtoiSigned(s: string, sign: string, digits: string)
    requires Signed(s, sign, digits)
    ensures var v: int := DigitsValue(digits);
      Atoi(s) ==
      if sign == "-" then (if v <= 0x8000_0000_0000_0000 then Some(-v) else None)
      else if v < 0x8000_0000_0000_0000 then Some(v) else None
  {
    hide Lead, DigitsValue;
    LeadAll(digits, IsDigit);
    assert IsDigit(digits[0]);
    if sign == "" {
      assert s == digits;
    } else {
      assert s[0] == sign[0] && s[1..] == digits;
    }
  }

  /** A number is read exactly from an optional sign and a run of digits, in the range of 64
      bits. */
  lemma AtoiSomeIff(s: string)
    ensures Atoi(s).Some? <==> exists sign, digits ::
      Signed(s, sign, digits) && DigitsValue(digits) < 0x8000_0000_0000_0000 + (if sign == "-" then 1 else 0)
  {
    hide DigitsValue;
    if Atoi(s).Some? {
      var signed := s[0] == '-' || s[0] == '+';
      var sign, digits := if signed then s[..1] else "", if signed then s[1..] else s;
      assert Signed(s, sign, digits) by { assert signed ==> s[..1] == [s[0]]; }
    }
    if sign, digits :| Signed(s, sign, digits) && DigitsValue(digits) < 0x8000_0000_0000_0000 + (if sign == "-" then 1 else 0) {
      AtoiSigned(s, sign, digits);
    }
  }
}
