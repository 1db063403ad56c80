/** Authelia password hashes: the PHC string for argon2id and its verifier. The key
    derivation itself is a parameter. */
module PasswordHash {
  import opened Wrappers
  import opened Text
  import opened Base64

  const ITERATIONS := 3
  const MEMORY_KIB := 65536
  const PARALLELISM := 4
  const KEY_LEN := 32
  const VERSION := 19

  /** `argon2.IDKey(password, salt, time, memory, threads, keyLen)`. */
  type Kdf = (string, seq<Byte>, nat, nat, nat, nat) -> seq<Byte>

  /** The derivation returns as many bytes as it is asked for. */
  ghost predicate FillsKey(kdf: Kdf) {
    forall pw, salt, t, m, p, len :: |kdf(pw, salt, t, m, p, len)| == len
  }

  datatype HashError = EmptyPassword | Malformed | KdfPanics

  // --- printing ---------------------------------------------------------------------

  function Params(m: nat, t: nat, p: nat): string {
    "m=" + (Decimal(m) + (",t=" + (Decimal(t) + (",p=" + Decimal(p)))))
  }

  /** `$argon2id$v=19$m=<m>,t=<t>,p=<p>$<salt>$<hash>`. */
  function Phc(m: nat, t: nat, p: nat, salt: seq<Byte>, hash: seq<Byte>): string {
    "" + "$" + ("argon2id" + "$" + ("v=" + Decimal(VERSION) + "$" +
      (Params(m, t, p) + "$" + (Encode(salt) + "$" + Encode(hash)))))
  }

  /** `argon2idHash` with the salt it drew. */
  function Argon2idHash(kdf: Kdf, password: string, salt: seq<Byte>): Result<string, HashError> {
    if password == "" then Err(EmptyPassword)
    else
      Ok(Phc(MEMORY_KIB, ITERATIONS, PARALLELISM, salt,
             kdf(password, salt, ITERATIONS, MEMORY_KIB, PARALLELISM, KEY_LEN)))
  }

  // --- parsing ----------------------------------------------------------------------

  predicate IsBlank(c: char) { IsSpace(c) && c != '\n' }

  /** `%d` of `fmt.Sscanf` into an unsigned variable: blanks, then digits in range. */
  function ScanNumber(s: string, bound: nat): Option<(nat, string)> {
    var rest := TrimLeft(s, IsBlank);
    var n := Lead(rest, IsDigit);
    if n == 0 || DigitsValue(rest[..n]) >= bound then None
    else Some((DigitsValue(rest[..n]), rest[n..]))
  }

  function ScanLiteral(s: string, literal: string): Option<string> {
    if literal <= s then Some(s[|literal|..]) else None
  }

  /** A literal followed by a number. */
  function ScanField(s: string, literal: string, bound: nat): Option<(nat, string)> {
    var rest := ScanLiteral(s, literal);
    if rest.None? then None else ScanNumber(rest.value, bound)
  }

  /** `Sscanf(s, "m=%d,t=%d,p=%d", ...)` into two `uint32` and a `uint8`; text after the
      last number is not looked at. */
  function ScanParams(s: string): Option<(nat, nat, nat)> {
    var m := ScanField(s, "m=", 0x1_0000_0000);
    if m.None? then None
    else
      var t := ScanField(m.value.1, ",t=", 0x1_0000_0000);
      if t.None? then None
      else
        var p := ScanField(t.value.1, ",p=", 0x100);
        if p.None? then None else Some((m.value.0, t.value.0, p.value.0))
  }

  predicate VersionOk(field: string) {
    "v=" <= field && Atoi(field[2..]) == Some(VERSION)
  }

  /** `argon2idVerify`. */
  function Argon2idVerify(kdf: Kdf, password: string, encoded: string): Result<bool, HashError> {
    if password == "" then Ok(false) else VerifyFields(kdf, password, Split(encoded, '$'))
  }

  predicate HeaderOk(parts: seq<string>) {
    |parts| == 6 && parts[1] == "argon2id" && VersionOk(parts[2])
  }

  function VerifyFields(kdf: Kdf, password: string, parts: seq<string>): Result<bool, HashError> {
    if !HeaderOk(parts) then Err(Malformed)
    else Derive(kdf, password, ScanParams(parts[3]), Decode(parts[4]), Decode(parts[5]))
  }

  function Derive(kdf: Kdf, password: string, params: Option<(nat, nat, nat)>,
                  salt: Option<seq<Byte>>, want: Option<seq<Byte>>): Result<bool, HashError> {
    if params.None? || salt.None? || want.None? then Err(Malformed)
    else
      var (m, t, p) := params.value;
      if t < 1 || p < 1 || want.value == [] then Err(KdfPanics)
      else Ok(kdf(password, salt.value, t, m, p, |want.value|) == want.value)
  }

  // --- what the scan accepts -----------------------------------------------------------------

  /** One number as it may stand in the parameters: blanks, then digits. */
  datatype Field = Field(blanks: string, digits: string)

  function Spell(literal: string, f: Field, rest: string): string { literal + (f.blanks + (f.digits + rest)) }

  ghost predicate InRange(f: Field, bound: nat) {
    && (forall i :: 0 <= i < |f.blanks| ==> IsBlank(f.blanks[i]))
    && f.digits != [] && AllDigits(f.digits) && DigitsValue(f.digits) < bound
  }

  predicate NoDigit(rest: string) { rest == [] || !IsDigit(rest[0]) }

  lemma ScanSpelled(s: string, literal: string, f: Field, rest: string, bound: nat)
    requires InRange(f, bound) && NoDigit(rest) && s == Spell(literal, f, rest)
    ensures ScanField(s, literal, bound) == Some((DigitsValue(f.digits), rest))
  {
    var number := f.digits + rest;
    assert s[|literal|..] == f.blanks + number;
    assert IsDigit(number[0]) && !IsBlank(number[0]);
    LeadOf(f.blanks, number, IsBlank);
    assert (f.blanks + number)[|f.blanks|..] == number;
    LeadOf(f.digits, rest, IsDigit);
    assert number[..|f.digits|] == f.digits && number[|f.digits|..] == rest;
  }

  lemma NumberSpelling(r: string, bound: nat) returns (f: Field)
    requires ScanNumber(r, bound).Some?
    ensures var (v, rest) := ScanNumber(r, bound).value;
      InRange(f, bound) && NoDigit(rest) && r == f.blanks + (f.digits + rest) && v == DigitsValue(f.digits)
  {
    hide Lead, DigitsValue, IsBlank, IsDigit;
    var b := Lead(r, IsBlank);
    var number := r[b..];
    var n := Lead(number, IsDigit);
    f := Field(r[..b], number[..n]);
    assert number == number[..n] + number[n..];
    assert r == r[..b] + number;
  }

  lemma ScannedSpelling(s: string, literal: string, bound: nat) returns (f: Field)
    requires ScanField(s, literal, bound).Some?
    ensures var (v, rest) := ScanField(s, literal, bound).value;
      InRange(f, bound) && NoDigit(rest) && s == Spell(literal, f, rest) && v == DigitsValue(f.digits)
  {
    hide ScanNumber, InRange, NoDigit, DigitsValue;
    var r := s[|literal|..];
    f := NumberSpelling(r, bound);
    assert s == literal + r;
  }

  /** The three fields and what follows them. */
  datatype Spelling = Spelling(m: Field, t: Field, p: Field, tail: string)

  ghost predicate Spells(s: string, x: Spelling) {
    && InRange(x.m, 0x1_0000_0000) && InRange(x.t, 0x1_0000_0000) && InRange(x.p, 0x100) && NoDigit(x.tail)
    && s == Spell("m=", x.m, Spell(",t=", x.t, Spell(",p=", x.p, x.tail)))
  }

  function Values(x: Spelling): (nat, nat, nat) {
    (DigitsValue(x.m.digits), DigitsValue(x.t.digits), DigitsValue(x.p.digits))
  }

  lemma SpellingScanned(s: string, x: Spelling)
    requires Spells(s, x)
    ensures ScanParams(s) == Some(Values(x))
  {
    hide ScanField;
    var last := Spell(",p=", x.p, x.tail);
    var middle := Spell(",t=", x.t, last);
    assert NoDigit(last) && NoDigit(middle);
    ScanSpelled(s, "m=", x.m, middle, 0x1_0000_0000);
    ScanSpelled(middle, ",t=", x.t, last, 0x1_0000_0000);
    ScanSpelled(last, ",p=", x.p, x.tail, 0x100);
  }

  /** The scan gives these values exactly if the text is the three literals, each followed by
      blanks and a run of digits in range, and then anything that does not go on with a
      digit. */
  lemma ScanParamsIff(s: string, values: (nat, nat, nat))
    ensures ScanParams(s) == Some(values) <==> exists x :: Spells(s, x) && Values(x) == values
  {
    if ScanParams(s) == Some(values) {
      hide ScanField;
      var f := ScannedSpelling(s, "m=", 0x1_0000_0000);
      var middle := ScanField(s, "m=", 0x1_0000_0000).value.1;
      var g := ScannedSpelling(middle, ",t=", 0x1_0000_0000);
      var last := ScanField(middle, ",t=", 0x1_0000_0000).value.1;
      var h := ScannedSpelling(last, ",p=", 0x100);
      var x := Spelling(f, g, h, ScanField(last, ",p=", 0x100).value.1);
      assert Spells(s, x) && Values(x) == values;
    }
    if x :| Spells(s, x) && Values(x) == values { SpellingScanned(s, x); }
  }

  /** Blanks, leading zeros and trailing text pass the scan. */
  lemma MalformedAccepted()
    ensures ScanParams("m= 01,t=1,p=1;rest") == Some((1, 1, 1))
  {
    var one := Field("", "1");
    var x := Spelling(Field(" ", "01"), one, one, ";rest");
    assert "1"[..0] == "" && "01"[..1] == "0" && "0"[..0] == "";
    assert DigitsValue("1") == 1 && DigitsValue("01") == 1;
    var last := Spell(",p=", one, ";rest");
    assert last == ",p=1;rest" && Spell(",t=", one, last) == ",t=1,p=1;rest";
    assert Spells("m= 01,t=1,p=1;rest", x);
    SpellingScanned("m= 01,t=1,p=1;rest", x);
  }

  lemma ScanParamsPrinted(m: nat, t: nat, p: nat)
    requires m < 0x1_0000_0000 && t < 0x1_0000_0000 && p < 0x100
    ensures ScanParams(Params(m, t, p)) == Some((m, t, p))
  {
    DecimalValue(m);
    DecimalValue(t);
    DecimalValue(p);
    var x := Spelling(Field("", Decimal(m)), Field("", Decimal(t)), Field("", Decimal(p)), "");
    SpellingPrinted(m, t, p);
    SpellingScanned(Params(m, t, p), x);
  }

  lemma BareSpell(literal: string, digits: string, rest: string)
    ensures Spell(literal, Field("", digits), rest) == literal + (digits + rest)
  {
    assert "" + (digits + rest) == digits + rest;
  }

  lemma SpellingPrinted(m: nat, t: nat, p: nat)
    ensures Params(m, t, p) == Spell("m=", Field("", Decimal(m)),
      Spell(",t=", Field("", Decimal(t)), Spell(",p=", Field("", Decimal(p)), "")))
  {
    hide Spell, Decimal;
    var last := Spell(",p=", Field("", Decimal(p)), "");
    var middle := Spell(",t=", Field("", Decimal(t)), last);
    BareSpell(",p=", Decimal(p), "");
    BareSpell(",t=", Decimal(t), last);
    BareSpell("m=", Decimal(m), middle);
    assert Decimal(p) + "" == Decimal(p);
  }

  // --- splitting what was printed ---------------------------------------------------------

  lemma FieldsFree(m: nat, t: nat, p: nat, salt: seq<Byte>, hash: seq<Byte>)
    ensures Free(Params(m, t, p), '$') && Free(Encode(salt), '$') && Free(Encode(hash), '$')
  {
    assert !IsDigit('$') && !InAlphabet('$');
    assert Free(Decimal(m), '$') && Free(Decimal(t), '$') && Free(Decimal(p), '$');
    assert Free(",p=" + Decimal(p), '$');
    assert Free(Decimal(t) + (",p=" + Decimal(p)), '$');
  }

  lemma NamesFree()
    ensures Free("v=" + Decimal(VERSION), '$') && Free("argon2id", '$') && Free("", '$')
  {
    assert !IsDigit('$');
  }

  lemma PhcFields(m: nat, t: nat, p: nat, salt: seq<Byte>, hash: seq<Byte>)
    ensures Split(Phc(m, t, p, salt, hash), '$')
            == ["", "argon2id", "v=" + Decimal(VERSION), Params(m, t, p), Encode(salt), Encode(hash)]
  {
    hide Params, Encode, Split, Free;
    FieldsFree(m, t, p, salt, hash);
    SplitFree(Encode(hash), '$');
    SplitField(Encode(salt), Encode(hash), '$');
    var r4 := Encode(salt) + "$" + Encode(hash);
    SplitField(Params(m, t, p), r4, '$');
    var r3 := Params(m, t, p) + "$" + r4;
    NamesFree();
    SplitField("v=" + Decimal(VERSION), r3, '$');
    var r2 := "v=" + Decimal(VERSION) + "$" + r3;
    SplitField("argon2id", r2, '$');
    SplitField("", "argon2id" + "$" + r2, '$');
  }

  lemma VersionPrinted()
    ensures VersionOk("v=" + Decimal(VERSION))
  {
    AtoiDecimal(VERSION);
    assert ("v=" + Decimal(VERSION))[2..] == Decimal(VERSION);
  }

  // --- the verifier --------------------------------------------------------------------------

  /** The derivation panics on zero passes, zero lanes or an empty key. Otherwise the
      verifier reads back every parameter, salt and digest a PHC string can hold and
      compares the derived key with the digest. */
  lemma VerifyReadsPhc(kdf: Kdf, password: string, m: nat, t: nat, p: nat, salt: seq<Byte>, want: seq<Byte>)
    requires password != ""
    requires m < 0x1_0000_0000 && t < 0x1_0000_0000 && p < 0x100
    ensures Argon2idVerify(kdf, password, Phc(m, t, p, salt, want))
            == if t < 1 || p < 1 || want == [] then Err(KdfPanics)
               else Ok(kdf(password, salt, t, m, p, |want|) == want)
  {
    PhcFields(m, t, p, salt, want);
    ScanParamsPrinted(m, t, p);
    RoundTrip(salt);
    RoundTrip(want);
    FieldsVerified(kdf, password, Params(m, t, p), Encode(salt), Encode(want));
  }

  lemma FieldsVerified(kdf: Kdf, password: string, params: string, salt: string, want: string)
    ensures VerifyFields(kdf, password, ["", "argon2id", "v=" + Decimal(VERSION), params, salt, want])
            == Derive(kdf, password, ScanParams(params), Decode(salt), Decode(want))
  {
    HeaderPrinted(params, salt, want);
  }

  lemma HeaderPrinted(params: string, salt: string, want: string)
    ensures HeaderOk(["", "argon2id", "v=" + Decimal(VERSION), params, salt, want])
  {
    VersionPrinted();
  }

  /** Against a hash this program made, a password is accepted exactly when it derives
      the same key: the right one always is, and the empty one never. */
  lemma HashThenVerify(kdf: Kdf, password: string, salt: seq<Byte>, attempt: string)
    requires FillsKey(kdf) && password != ""
    ensures var stored := Argon2idHash(kdf, password, salt);
            && stored.Ok?
            && Argon2idVerify(kdf, password, stored.value) == Ok(true)
            && Argon2idVerify(kdf, attempt, stored.value)
               == Ok(attempt != "" && kdf(attempt, salt, 3, 65536, 4, 32) == kdf(password, salt, 3, 65536, 4, 32))
  {
    var key := kdf(password, salt, ITERATIONS, MEMORY_KIB, PARALLELISM, KEY_LEN);
    assert |key| == KEY_LEN;
    VerifyReadsPhc(kdf, password, MEMORY_KIB, ITERATIONS, PARALLELISM, salt, key);
    if attempt != "" {
      VerifyReadsPhc(kdf, attempt, MEMORY_KIB, ITERATIONS, PARALLELISM, salt, key);
    }
  }

  // --- which strings are well formed ----------------------------------------------------------

  ghost predicate Assembled(encoded: string, head: string, version: string, params: string, salt: string, want: string) {
    && Free(head, '$') && Free(version, '$') && Free(params, '$') && Free(salt, '$') && Free(want, '$')
    && encoded == head + "$" + ("argon2id" + "$" + ("v=" + version + "$" + (params + "$" + (salt + "$" + want))))
  }

  ghost predicate Readable(version: string, params: string, salt: string, want: string) {
    Atoi(version) == Some(19) && ScanParams(params).Some? && Decode(salt).Some? && Decode(want).Some?
  }

  lemma {:induction false} JoinSix(parts: seq<string>)
    requires |parts| == 6
    ensures Join(parts, '$') ==
      parts[0] + "$" + (parts[1] + "$" + (parts[2] + "$" + (parts[3] + "$" + (parts[4] + "$" + parts[5]))))
  {
    assert parts[5..] == [parts[5]];
    assert Join(parts[5..], '$') == parts[5];
    JoinFrom(parts, 4);
    JoinFrom(parts, 3);
    JoinFrom(parts, 2);
    JoinFrom(parts, 1);
    JoinFrom(parts, 0);
    assert parts[0..] == parts;
  }

  lemma JoinFrom(parts: seq<string>, i: nat)
    requires i + 1 < |parts|
    ensures Join(parts[i..], '$') == parts[i] + "$" + Join(parts[i + 1..], '$')
  {
    assert parts[i..][1..] == parts[i + 1..];
  }

  lemma SplitAssembled(encoded: string, head: string, version: string, params: string, salt: string, want: string)
    requires Assembled(encoded, head, version, params, salt, want)
    ensures Split(encoded, '$') == [head, "argon2id", "v=" + version, params, salt, want]
  {
    hide Split;
    SplitFree(want, '$');
    SplitField(salt, want, '$');
    var r4 := salt + "$" + want;
    SplitField(params, r4, '$');
    var r3 := params + "$" + r4;
    assert Free("v=" + version, '$');
    SplitField("v=" + version, r3, '$');
    var r2 := "v=" + version + "$" + r3;
    assert Free("argon2id", '$');
    SplitField("argon2id", r2, '$');
    SplitField(head, "argon2id" + "$" + r2, '$');
  }

  lemma TakenApart(encoded: string) returns (head: string, version: string, params: string, salt: string, want: string)
    requires HeaderOk(Split(encoded, '$'))
    ensures Assembled(encoded, head, version, params, salt, want)
    ensures Split(encoded, '$') == [head, "argon2id", "v=" + version, params, salt, want]
  {
    hide Split, Join;
    var parts := Split(encoded, '$');
    head, version, params, salt, want := parts[0], parts[2][2..], parts[3], parts[4], parts[5];
    assert parts[2] == "v=" + version;
    JoinSplit(encoded, '$');
    JoinSix(parts);
    SplitPiecesFree(encoded, '$');
    assert Free(parts[0], '$') && Free(parts[2], '$') && Free(parts[3], '$') && Free(parts[4], '$') && Free(parts[5], '$');
    assert Free(version, '$');
  }

  lemma Verdict(kdf: Kdf, password: string, head: string, version: string, params: string, salt: string, want: string)
    ensures VerifyFields(kdf, password, [head, "argon2id", "v=" + version, params, salt, want]) != Err(Malformed)
            <==> Readable(version, params, salt, want)
  {
    hide ScanParams, Decode, Atoi;
    assert ("v=" + version)[2..] == version;
  }

  /** A stored hash is called malformed exactly if it is not of the form
      `<text>$argon2id$v=<19>$<parameters>$<salt>$<digest>` with readable parts. */
  lemma MalformedIff(kdf: Kdf, password: string, encoded: string)
    requires password != ""
    ensures Argon2idVerify(kdf, password, encoded) != Err(Malformed) <==>
      exists head, version, params, salt, want ::
        Assembled(encoded, head, version, params, salt, want) && Readable(version, params, salt, want)
  {
    hide VerifyFields, Assembled, Readable, HeaderOk, Split;
    if HeaderOk(Split(encoded, '$')) {
      var head, version, params, salt, want := TakenApart(encoded);
      Verdict(kdf, password, head, version, params, salt, want);
    } else {
      NoHeader(kdf, password, Split(encoded, '$'));
    }
    if head, version, params, salt, want :|
      Assembled(encoded, head, version, params, salt, want) && Readable(version, params, salt, want)
    {
      SplitAssembled(encoded, head, version, params, salt, want);
      Verdict(kdf, password, head, version, params, salt, want);
    }
  }

  lemma NoHeader(kdf: Kdf, password: string, parts: seq<string>)
    requires !HeaderOk(parts)
    ensures VerifyFields(kdf, password, parts) == Err(Malformed)
  {
  }
}
