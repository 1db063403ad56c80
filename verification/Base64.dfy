/** Unpadded base64 (sections 3.2 and 4 of RFC 4648) as Go's
    `base64.RawStdEncoding` writes and reads it, and the dotted variant that Authelia
    hashes use. */
module Base64 {
  import opened Wrappers

  type Byte = x: nat | x < 256

  // --- the alphabet ---------------------------------------------------------------

  function Symbol(v: nat): (c: char)
    requires v < 64
    ensures SymbolValue(c) == Some(v)
  {
    if v < 26 then ('A' as int + v) as char
    else if v < 52 then ('a' as int + v - 26) as char
    else if v < 62 then ('0' as int + v - 52) as char
    else if v == 62 then '+'
    else '/'
  }

  function SymbolValue(c: char): (v: Option<nat>)
    ensures v.Some? ==> v.value < 64
  {
    if 'A' <= c <= 'Z' then Some(c as int - 'A' as int)
    else if 'a' <= c <= 'z' then Some(c as int - 'a' as int + 26)
    else if '0' <= c <= '9' then Some(c as int - '0' as int + 52)
    else if c == '+' then Some(62)
    else if c == '/' then Some(63)
    else None
  }

  predicate InAlphabet(c: char) { SymbolValue(c).Some? }

  ghost predicate AllAlphabet(s: string) { forall i :: 0 <= i < |s| ==> InAlphabet(s[i]) }

  // --- encoding ---------------------------------------------------------------------

  function Encode(b: seq<Byte>): (s: string)
    ensures AllAlphabet(s) && (b != [] ==> s != [])
  {
    if b == [] then []
    else if |b| == 1 then [Symbol(b[0] / 4), Symbol(b[0] % 4 * 16)]
    else if |b| == 2 then [Symbol(b[0] / 4), Symbol(b[0] % 4 * 16 + b[1] / 16), Symbol(b[1] % 16 * 4)]
    else
      [Symbol(b[0] / 4), Symbol(b[0] % 4 * 16 + b[1] / 16),
       Symbol(b[1] % 16 * 4 + b[2] / 64), Symbol(b[2] % 64)] + Encode(b[3..])
  }

  // --- decoding ---------------------------------------------------------------------

  /** Line breaks are skipped wherever they stand. */
  function DropBreaks(s: string): string {
    if s == [] then []
    else if s[0] == '\r' || s[0] == '\n' then DropBreaks(s[1..])
    else [s[0]] + DropBreaks(s[1..])
  }

  /** Four symbols make three bytes; a last group of two or three makes one or two, its
      spare bits ignored; one symbol alone, or a character outside the alphabet, is an
      error. */
  function DecodeGroups(s: string): Option<seq<Byte>> {
    if s == [] then Some([])
    else if |s| == 1 then None
    else
      var v0, v1 := SymbolValue(s[0]), SymbolValue(s[1]);
      if v0.None? || v1.None? then None
      else
        var b0: Byte := v0.value * 4 + v1.value / 16;
        if |s| == 2 then Some([b0])
        else
          var v2 := SymbolValue(s[2]);
          if v2.None? then None
          else
            var b1: Byte := v1.value % 16 * 16 + v2.value / 4;
            if |s| == 3 then Some([b0, b1])
            else
              var v3 := SymbolValue(s[3]);
              var rest := DecodeGroups(s[4..]);
              if v3.None? || rest.None? then None
              else
                var b2: Byte := v2.value % 4 * 64 + v3.value;
                Some([b0, b1, b2] + rest.value)
  }

  function Decode(s: string): Option<seq<Byte>> { DecodeGroups(DropBreaks(s)) }

  // --- round trip ---------------------------------------------------------------------

  lemma {:induction false} NoBreaks(s: string)
    requires AllAlphabet(s)
    ensures DropBreaks(s) == s
  {
    if s != [] {
      assert InAlphabet(s[0]) && s == [s[0]] + s[1..];
      NoBreaks(s[1..]);
    }
  }

  /** Regrouping three bytes as four sextets and back. */
  lemma Regroup(x: Byte, y: Byte, z: Byte)
    ensures x / 4 * 4 + (x % 4 * 16 + y / 16) / 16 == x
    ensures (x % 4 * 16 + y / 16) % 16 * 16 + (y % 16 * 4 + z / 64) / 4 == y
    ensures (y % 16 * 4 + z / 64) % 4 * 64 + z % 64 == z
  {
    assert (x % 4 * 16 + y / 16) / 16 == x % 4 && (x % 4 * 16 + y / 16) % 16 == y / 16;
    assert (y % 16 * 4 + z / 64) / 4 == y % 16 && (y % 16 * 4 + z / 64) % 4 == z / 64;
  }

  lemma DecodeFour(x: Byte, y: Byte, z: Byte, tail: string)
    requires DecodeGroups(tail).Some?
    ensures DecodeGroups([Symbol(x / 4), Symbol(x % 4 * 16 + y / 16),
                          Symbol(y % 16 * 4 + z / 64), Symbol(z % 64)] + tail)
            == Some([x, y, z] + DecodeGroups(tail).value)
  {
    var s := [Symbol(x / 4), Symbol(x % 4 * 16 + y / 16), Symbol(y % 16 * 4 + z / 64), Symbol(z % 64)] + tail;
    assert s[4..] == tail;
    Regroup(x, y, z);
  }

  lemma DecodeOne(x: Byte)
    ensures DecodeGroups([Symbol(x / 4), Symbol(x % 4 * 16)]) == Some([x])
  {
    Regroup(x, 0, 0);
  }

  lemma DecodeTwo(x: Byte, y: Byte)
    ensures DecodeGroups([Symbol(x / 4), Symbol(x % 4 * 16 + y / 16), Symbol(y % 16 * 4)]) == Some([x, y])
  {
    Regroup(x, y, 0);
  }

  lemma DecodeNone()
    ensures DecodeGroups([]) == Some([])
  {
  }

  lemma {:induction false} GroupsRoundTrip(b: seq<Byte>)
    ensures DecodeGroups(Encode(b)) == Some(b)
  {
    hide DecodeGroups, Symbol;
    DecodeNone();
    if |b| == 1 {
      DecodeOne(b[0]);
      assert b == [b[0]];
    } else if |b| == 2 {
      DecodeTwo(b[0], b[1]);
      assert b == [b[0], b[1]];
    } else if |b| >= 3 {
      GroupsRoundTrip(b[3..]);
      DecodeFour(b[0], b[1], b[2], Encode(b[3..]));
      assert b == [b[0], b[1], b[2]] + b[3..];
    }
  }

  /** Every byte string is read back from its encoding. */
  lemma RoundTrip(b: seq<Byte>)
    ensures Decode(Encode(b)) == Some(b)
  {
    NoBreaks(Encode(b));
    GroupsRoundTrip(b);
  }

  // --- the dotted variant -----------------------------------------------------------

  /** `strings.ReplaceAll(s, "+", ".")`. */
  function PlusToDot(s: string): (r: string)
    ensures |r| == |s|
  {
    seq(|s|, i requires 0 <= i < |s| => if s[i] == '+' then '.' else s[i])
  }

  /** `oidcBase64Encode`. */
  function OidcEncode(b: seq<Byte>): string { PlusToDot(Encode(b)) }

  /** The class `[A-Za-z0-9./]` of Authelia's hashes. */
  predicate InHashAlphabet(c: char) { c != '+' && (c == '.' || InAlphabet(c)) }

  ghost predicate AllHashAlphabet(s: string) { forall i :: 0 <= i < |s| ==> InHashAlphabet(s[i]) }

  lemma OidcAlphabet(b: seq<Byte>)
    ensures AllHashAlphabet(OidcEncode(b)) && (b != [] ==> OidcEncode(b) != [])
  {
    var s := Encode(b);
    forall i | 0 <= i < |s| ensures InHashAlphabet(OidcEncode(b)[i]) {
      assert InAlphabet(s[i]);
    }
  }

  /** Rewriting `+` loses nothing: distinct bytes stay distinct. */
  lemma OidcInjective(a: seq<Byte>, b: seq<Byte>)
    requires OidcEncode(a) == OidcEncode(b)
    ensures a == b
  {
    var s, t := Encode(a), Encode(b);
    assert |s| == |OidcEncode(a)| == |t|;
    forall i | 0 <= i < |s| ensures s[i] == t[i] {
      assert OidcEncode(a)[i] == OidcEncode(b)[i];
      assert InAlphabet(s[i]) && InAlphabet(t[i]);
    }
    assert s == t;
    RoundTrip(a);
    RoundTrip(b);
  }

  /** Reading the dotted variant. */
  function OidcDecode(s: string): Option<seq<Byte>> { Decode(DotToPlus(s)) }

  function DotToPlus(s: string): (r: string)
    ensures |r| == |s|
  {
    seq(|s|, i requires 0 <= i < |s| => if s[i] == '.' then '+' else s[i])
  }

  lemma OidcRoundTrip(b: seq<Byte>)
    ensures OidcDecode(OidcEncode(b)) == Some(b)
  {
    var s := Encode(b);
    forall i | 0 <= i < |s| ensures DotToPlus(PlusToDot(s))[i] == s[i] {
      assert InAlphabet(s[i]);
    }
    assert DotToPlus(PlusToDot(s)) == s;
    RoundTrip(b);
  }

  // --- the standard's alphabet and bit order ------------------------------------------------

  /** Table 1 of RFC 4648: which character stands for which six bits. */
  lemma Alphabet(v: nat)
    requires v < 64
    ensures 0 <= v < 26 ==> Symbol(v) as int == 'A' as int + v
    ensures 26 <= v < 52 ==> Symbol(v) as int == 'a' as int + (v - 26)
    ensures 52 <= v < 62 ==> Symbol(v) as int == '0' as int + (v - 52)
    ensures (v == 62 ==> Symbol(v) == '+') && (v == 63 ==> Symbol(v) == '/')
  {
  }

  function SixBits(c: char): nat { if SymbolValue(c).Some? then SymbolValue(c).value else 0 }

  /** Four characters spell the 24 bits of three bytes, first byte and first character highest. */
  lemma FourSpellThree(b: seq<Byte>)
    requires |b| >= 3
    ensures var s := Encode(b);
      |s| >= 4 &&
      ((SixBits(s[0]) * 64 + SixBits(s[1])) * 64 + SixBits(s[2])) * 64 + SixBits(s[3]) == (b[0] as int * 256 + b[1] as int) * 256 + b[2] as int
  {
    var x, y, z := b[0], b[1], b[2];
    assert x == x / 4 * 4 + x % 4 && y == y / 16 * 16 + y % 16 && z == z / 64 * 64 + z % 64;
  }

  /** A last group spells its bytes with zero bits after them. */
  lemma LastSpells(b: seq<Byte>)
    ensures |b| == 1 ==> var s := Encode(b); |s| == 2 && SixBits(s[0]) * 64 + SixBits(s[1]) == b[0] as int * 16
    ensures |b| == 2 ==>
      var s := Encode(b);
      |s| == 3 && (SixBits(s[0]) * 64 + SixBits(s[1])) * 64 + SixBits(s[2]) == (b[0] as int * 256 + b[1] as int) * 4
  {
    if |b| == 1 {
      assert b[0] == b[0] / 4 * 4 + b[0] % 4;
    } else if |b| == 2 {
      assert b[0] == b[0] / 4 * 4 + b[0] % 4 && b[1] == b[1] / 16 * 16 + b[1] % 16;
    }
  }

  // --- what is decoded ---------------------------------------------------------------------------

  lemma DropOne(c: char, s: string)
    ensures DropBreaks([c] + s) == (if c in {'\r', '\n'} then [] else [c]) + DropBreaks(s)
  {
    assert ([c] + s)[1..] == s;
  }

  lemma {:induction false} GroupsIff(s: string)
    ensures DecodeGroups(s).Some? <==> AllAlphabet(s) && |s| % 4 != 1
    ensures DecodeGroups(s).Some? ==> |DecodeGroups(s).value| == |s| * 3 / 4
  {
    hide DecodeGroups, AllAlphabet;
    if |s| >= 4 {
      GroupsIff(s[4..]);
      FirstFour(s);
    } else {
      LastGroup(s);
    }
  }

  lemma LastGroup(s: string)
    requires |s| < 4
    ensures DecodeGroups(s).Some? <==> AllAlphabet(s) && |s| != 1
    ensures DecodeGroups(s).Some? ==> |DecodeGroups(s).value| == |s| * 3 / 4
  {
    hide SymbolValue;
  }

  lemma FirstFour(s: string)
    requires |s| >= 4
    ensures AllAlphabet(s) <==> InAlphabet(s[0]) && InAlphabet(s[1]) && InAlphabet(s[2]) && InAlphabet(s[3]) && AllAlphabet(s[4..])
    ensures var rest := DecodeGroups(s[4..]);
      && (DecodeGroups(s).Some? <==>
            InAlphabet(s[0]) && InAlphabet(s[1]) && InAlphabet(s[2]) && InAlphabet(s[3]) && rest.Some?)
      && (DecodeGroups(s).Some? ==> |DecodeGroups(s).value| == 3 + |rest.value|)
  {
    hide SymbolValue;
    assert s == s[..4] + s[4..];
    forall i | 4 <= i < |s| ensures s[i] == s[4..][i - 4] {}
  }

  /** Apart from line breaks, a text decodes exactly if it is in the alphabet and no character
      is left alone; four characters make three bytes, a last two or three one or two. */
  lemma DecodeIff(s: string)
    ensures var t := DropBreaks(s);
      && (Decode(s).Some? <==> AllAlphabet(t) && |t| % 4 != 1)
      && (Decode(s).Some? ==> |Decode(s).value| == |t| * 3 / 4)
  {
    GroupsIff(DropBreaks(s));
  }
}
