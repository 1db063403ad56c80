/** Rotation of the three OIDC client secrets. A rotation writes the plaintext file,
    then the hash in the env file; it may stop before, between or after the two atomic
    writes, and finalize calls it again on every retry. */
module SecretRotation {
  import opened Wrappers
  import opened Text
  import opened Base64
  import opened EnvFile

  const ROUNDS := 310000
  const KEY_LEN := 64

  /** `pbkdf2.Key(plaintext, salt, rounds, keyLen, sha512.New)`. */
  type Kdf = (string, seq<Byte>, nat, nat) -> seq<Byte>

  ghost predicate FillsKey(kdf: Kdf) {
    forall plain, salt, rounds, len :: |kdf(plain, salt, rounds, len)| == len
  }

  // --- hash strings -------------------------------------------------------------------

  const PREFIX := "pbkdf2-sha512"

  function Fields(digits: string, salt: string, hash: string): string {
    "" + "$" + (PREFIX + "$" + (digits + "$" + (salt + "$" + hash)))
  }

  /** `pbkdf2SHA512Hash`. */
  function Hash(kdf: Kdf, plaintext: string, salt: seq<Byte>): string {
    Fields(Decimal(ROUNDS), OidcEncode(salt), OidcEncode(kdf(plaintext, salt, ROUNDS, KEY_LEN)))
  }

  /** A non-empty run of the class `[A-Za-z0-9./]`. */
  predicate HashText(s: string) { s != [] && Lead(s, InHashAlphabet) == |s| }

  predicate DigitText(s: string) { s != [] && Lead(s, IsDigit) == |s| }

  /** `pbkdf2HashRe`: the characters between dollars cannot be dollars, so matching is
      splitting. */
  predicate HashShaped(s: string) {
    var parts := Split(s, '$');
    && |parts| == 5 && parts[0] == "" && parts[1] == PREFIX
    && DigitText(parts[2]) && HashText(parts[3]) && HashText(parts[4])
  }

  lemma SplitFields(digits: string, salt: string, hash: string)
    requires Free(digits, '$') && Free(salt, '$') && Free(hash, '$')
    ensures Split(Fields(digits, salt, hash), '$') == ["", PREFIX, digits, salt, hash]
  {
    SplitFree(hash, '$');
    SplitField(salt, hash, '$');
    SplitField(digits, salt + "$" + hash, '$');
    SplitField(PREFIX, digits + "$" + (salt + "$" + hash), '$');
    SplitField("", PREFIX + "$" + (digits + "$" + (salt + "$" + hash)), '$');
  }

  lemma TextFree(s: string)
    ensures HashText(s) ==> Free(s, '$') && Free(s, '\n')
    ensures DigitText(s) ==> Free(s, '$') && Free(s, '\n')
  {
    assert !InHashAlphabet('$') && !InHashAlphabet('\n') && !IsDigit('$') && !IsDigit('\n');
  }

  lemma SplitDetermines(s: string, t: string)
    requires Split(s, '$') == Split(t, '$')
    ensures s == t
  {
    JoinSplit(s, '$');
    JoinSplit(t, '$');
  }

  /** The two character classes of the expression. */
  lemma ClassesIff(s: string)
    ensures HashText(s) <==> s != "" && forall i :: 0 <= i < |s| ==>
      'A' <= s[i] <= 'Z' || 'a' <= s[i] <= 'z' || '0' <= s[i] <= '9' || s[i] == '.' || s[i] == '/'
    ensures DigitText(s) <==> s != "" && forall i :: 0 <= i < |s| ==> '0' <= s[i] <= '9'
  {
    assert forall i :: 0 <= i < Lead(s, InHashAlphabet) ==> InHashAlphabet(s[i]);
    assert forall i :: 0 <= i < Lead(s, IsDigit) ==> IsDigit(s[i]);
  }

  /** The splitting test accepts exactly the strings of the regular expression's form. */
  lemma HashShapedIff(s: string)
    ensures HashShaped(s) <==>
            exists d, a, b :: DigitText(d) && HashText(a) && HashText(b) && s == Fields(d, a, b)
  {
    hide Split, Fields, DigitText, HashText, Free;
    if HashShaped(s) {
      var parts := Split(s, '$');
      TextFree(parts[2]);
      TextFree(parts[3]);
      TextFree(parts[4]);
      SplitFields(parts[2], parts[3], parts[4]);
      assert parts == ["", PREFIX, parts[2], parts[3], parts[4]];
      SplitDetermines(s, Fields(parts[2], parts[3], parts[4]));
    }
    if d, a, b :| DigitText(d) && HashText(a) && HashText(b) && s == Fields(d, a, b) {
      TextFree(d);
      TextFree(a);
      TextFree(b);
      SplitFields(d, a, b);
    }
  }

  lemma FieldsOneLine(digits: string, salt: string, hash: string)
    requires Free(digits, '\n') && Free(salt, '\n') && Free(hash, '\n')
    ensures Free(Fields(digits, salt, hash), '\n')
  {
    assert Free(PREFIX, '\n') && Free(salt + "$" + hash, '\n');
    assert Free(digits + "$" + (salt + "$" + hash), '\n');
    assert Free(PREFIX + "$" + (digits + "$" + (salt + "$" + hash)), '\n');
  }

  /** Every hash this program makes has the expected shape, and fits on one line. */
  lemma HashAccepted(kdf: Kdf, plaintext: string, salt: seq<Byte>)
    requires FillsKey(kdf) && salt != []
    ensures HashShaped(Hash(kdf, plaintext, salt)) && Free(Hash(kdf, plaintext, salt), '\n')
  {
    var key := kdf(plaintext, salt, ROUNDS, KEY_LEN);
    assert |key| == KEY_LEN;
    OidcText(salt);
    OidcText(key);
    LeadAll(Decimal(ROUNDS), IsDigit);
    FieldsAccepted(Decimal(ROUNDS), OidcEncode(salt), OidcEncode(key));
  }

  lemma OidcText(b: seq<Byte>)
    requires b != []
    ensures HashText(OidcEncode(b))
  {
    OidcAlphabet(b);
    LeadAll(OidcEncode(b), InHashAlphabet);
  }

  lemma FieldsAccepted(digits: string, salt: string, hash: string)
    requires DigitText(digits) && HashText(salt) && HashText(hash)
    ensures HashShaped(Fields(digits, salt, hash)) && Free(Fields(digits, salt, hash), '\n')
  {
    TextFree(digits);
    TextFree(salt);
    TextFree(hash);
    SplitFields(digits, salt, hash);
    FieldsOneLine(digits, salt, hash);
  }

  // --- verifying a hash ---------------------------------------------------------------------

  /** How the stored value is used: its rounds, salt and digest are read back and the key of
      the secret presented is compared with the digest. */
  function VerifySecret(kdf: Kdf, attempt: string, stored: string): Option<bool> {
    var parts := Split(stored, '$');
    if |parts| != 5 || parts[0] != "" || parts[1] != "pbkdf2-sha512" then None
    else
      var rounds, salt, want := Atoi(parts[2]), OidcDecode(parts[3]), OidcDecode(parts[4]);
      if rounds.None? || rounds.value < 0 || salt.None? || want.None? then None
      else Some(kdf(attempt, salt.value, rounds.value, |want.value|) == want.value)
  }

  /** The value accepts exactly the secrets that derive the key the plaintext derives, over
      310000 rounds and 64 bytes. */
  ghost predicate Accepts(kdf: Kdf, stored: string, plaintext: string, salt: seq<Byte>) {
    forall q :: VerifySecret(kdf, q, stored) == Some(kdf(q, salt, 310000, 64) == kdf(plaintext, salt, 310000, 64))
  }

  lemma RoundsDigits()
    ensures Decimal(ROUNDS) == "310000"
  {
    assert Decimal(31) == "31";
    assert Decimal(310) == "310";
    assert Decimal(3100) == "3100";
    assert Decimal(31000) == "31000";
  }

  /** The five fields of a hash. */
  lemma HashFields(kdf: Kdf, plaintext: string, salt: seq<Byte>)
    ensures Split(Hash(kdf, plaintext, salt), '$')
            == ["", "pbkdf2-sha512", "310000", OidcEncode(salt), OidcEncode(kdf(plaintext, salt, 310000, 64))]
  {
    hide Hash, OidcEncode;
    HashFree(kdf, plaintext, salt);
    RoundsDigits();
  }

  lemma HashFree(kdf: Kdf, plaintext: string, salt: seq<Byte>)
    ensures Split(Hash(kdf, plaintext, salt), '$')
            == ["", PREFIX, Decimal(ROUNDS), OidcEncode(salt), OidcEncode(kdf(plaintext, salt, ROUNDS, KEY_LEN))]
  {
    hide OidcEncode, Decimal;
    DollarFree(salt);
    DollarFree(kdf(plaintext, salt, ROUNDS, KEY_LEN));
    assert Free(Decimal(ROUNDS), '$') by { assert !IsDigit('$'); }
    SplitFields(Decimal(ROUNDS), OidcEncode(salt), OidcEncode(kdf(plaintext, salt, ROUNDS, KEY_LEN)));
  }

  lemma DollarFree(b: seq<Byte>)
    ensures Free(OidcEncode(b), '$')
  {
    OidcAlphabet(b);
    assert !InHashAlphabet('$');
  }

  /** What this program hashes, a verifier accepts, and nothing that derives another key. */
  lemma HashVerifies(kdf: Kdf, plaintext: string, salt: seq<Byte>)
    requires FillsKey(kdf)
    ensures Accepts(kdf, Hash(kdf, plaintext, salt), plaintext, salt)
  {
    hide Hash, OidcEncode, OidcDecode, Split;
    HashFree(kdf, plaintext, salt);
    AtoiDecimal(ROUNDS);
    OidcRoundTrip(salt);
    var key := kdf(plaintext, salt, ROUNDS, KEY_LEN);
    OidcRoundTrip(key);
    assert |key| == 64;
  }

  // --- the rotation ---------------------------------------------------------------------

  /** Which secret to rotate: its env variable and its plaintext file. */
  datatype Target = Target(envVar: string, path: string)

  /** The env file's text and the plaintext files that exist. */
  datatype Files = Files(env: string, plain: map<string, string>)

  /** How far an attempt gets: an error or a crash can stop it before each write. */
  datatype Progress = StopsBeforeWrites | StopsBetweenWrites | Completes

  /** One call, with the random bytes it draws. */
  datatype Attempt = Attempt(target: Target, secret: seq<Byte>, salt: seq<Byte>, progress: Progress)

  function Stored(f: Files, t: Target): string { ReadEnvVar(f.env, t.envVar) }

  predicate HasPlaintext(f: Files, t: Target) { t.path in f.plain && f.plain[t.path] != "" }

  /** A real-looking hash next to a non-empty plaintext file: nothing to do. */
  predicate Healthy(f: Files, t: Target) { HashShaped(Stored(f, t)) && HasPlaintext(f, t) }

  function Plaintext(a: Attempt): string { OidcEncode(a.secret) }

  function NewHash(kdf: Kdf, a: Attempt): string { Hash(kdf, Plaintext(a), a.salt) }

  /** The attempt writes nothing: its arguments are empty, the pair is healthy, or it
      stops too early. */
  predicate NoWrites(f: Files, a: Attempt) {
    a.target.envVar == "" || a.target.path == "" || Healthy(f, a.target) || a.progress.StopsBeforeWrites?
  }

  /** The files after one attempt. */
  function Rotated(kdf: Kdf, f: Files, a: Attempt): Files {
    if NoWrites(f, a) then f
    else
      Files(if a.progress.Completes? then SetVar(f.env, a.target.envVar, NewHash(kdf, a)) else f.env,
            f.plain[a.target.path := Plaintext(a) + "\n"])
  }

  class SecretStore {
    var env: string
    var plain: map<string, string>

    constructor (env: string, plain: map<string, string>)
      ensures View() == Files(env, plain)
    {
      this.env, this.plain := env, plain;
    }

    function View(): Files
      reads this
    {
      Files(env, plain)
    }

    /** `rotateClientSecret`, up to where `a.progress` lets it run. */
    method RotateClientSecret(kdf: Kdf, a: Attempt)
      modifies this
      ensures View() == Rotated(kdf, old(View()), a)
    {
      hide HashShaped, Hash, OidcEncode, ReadEnvVar, Edited, Assignment;
      if a.target.envVar == "" { return; }
      if a.target.path == "" { return; }
      var currentHash := ReadEnvVar(env, a.target.envVar);
      if HashShaped(currentHash) {
        if a.target.path in plain && plain[a.target.path] != "" { return; }
      }
      if a.progress.StopsBeforeWrites? { return; }
      var plaintext := OidcEncode(a.secret);
      var hash := Hash(kdf, plaintext, a.salt);
      plain := plain[a.target.path := plaintext + "\n"];
      if a.progress.StopsBetweenWrites? { return; }
      env := ReplaceOrAppendEnvLine(env, a.target.envVar, Assignment(a.target.envVar, hash));
    }
  }

  /** The stored hash, if it looks like one, accepts the stored plaintext. */
  ghost predicate Paired(kdf: Kdf, f: Files, t: Target) {
    HashShaped(Stored(f, t)) ==> Matches(kdf, f, t)
  }

  ghost predicate Matches(kdf: Kdf, f: Files, t: Target) {
    && t.path in f.plain
    && exists plaintext, salt :: f.plain[t.path] == plaintext + "\n" && Accepts(kdf, Stored(f, t), plaintext, salt)
  }

  /** What the program's own calls meet: a well-formed variable name and random bytes. */
  ghost predicate Proper(a: Attempt) {
    && WellNamed(a.target) && a.secret != [] && a.salt != []
  }

  ghost predicate WellNamed(t: Target) {
    t.envVar != "" && t.path != "" && Settable(t.envVar) && Free(t.envVar, '=')
  }

  /** Two targets are one or share neither variable nor file. */
  predicate OneOrApart(t: Target, u: Target) {
    t == u || (t.envVar != u.envVar && t.path != u.path)
  }

  /** There is no hash-shaped value next to a non-empty plaintext file. */
  predicate Due(f: Files, t: Target) {
    !HashShaped(Stored(f, t)) || t.path !in f.plain || f.plain[t.path] == ""
  }

  /** A rotation that is due and runs to the end leaves a healthy pair that matches: a
      verifier accepts a secret exactly if it derives the key of the plaintext now stored,
      which spells the random bytes drawn. */
  lemma CompletedPairs(kdf: Kdf, f: Files, a: Attempt)
    requires FillsKey(kdf) && Proper(a) && a.progress.Completes? && Due(f, a.target)
    ensures var g := Rotated(kdf, f, a);
            && Healthy(g, a.target) && Matches(kdf, g, a.target)
            && g.plain[a.target.path] == Plaintext(a) + "\n" && OidcDecode(Plaintext(a)) == Some(a.secret)
            && Accepts(kdf, Stored(g, a.target), Plaintext(a), a.salt)
  {
    hide Hash, HashShaped, ReadEnvVar, SetVar, OidcEncode, OidcDecode, Accepts;
    HashAccepted(kdf, Plaintext(a), a.salt);
    ReadAfterSet(f.env, a.target.envVar, NewHash(kdf, a));
    HashVerifies(kdf, Plaintext(a), a.salt);
    OidcRoundTrip(a.secret);
  }

  /** A rotation that is not due, has an empty argument or stops early changes nothing. */
  lemma NothingWritten(kdf: Kdf, f: Files, a: Attempt)
    requires !Due(f, a.target) || a.target.envVar == "" || a.target.path == "" || a.progress.StopsBeforeWrites?
    ensures Rotated(kdf, f, a) == f
  {
  }

  /** One that stops between its writes has written the plaintext and nothing else. */
  lemma PlaintextFirst(kdf: Kdf, f: Files, a: Attempt)
    requires Due(f, a.target) && a.target.envVar != "" && a.target.path != "" && a.progress.StopsBetweenWrites?
    ensures var g := Rotated(kdf, f, a); g.env == f.env && g.plain == f.plain[a.target.path := Plaintext(a) + "\n"]
  {
  }

  /** The line written is `name='hash'` with no quote inside the quotes, so that a shell that
      sources the file takes the dollars of the hash as they are. */
  lemma QuotedLine(kdf: Kdf, a: Attempt)
    requires FillsKey(kdf) && a.salt != []
    ensures var hash := NewHash(kdf, a);
      Assignment(a.target.envVar, hash) == a.target.envVar + ("=" + ("'" + (hash + "'"))) && Free(hash, '\'')
  {
    hide Hash, OidcEncode;
    var key := kdf(Plaintext(a), a.salt, ROUNDS, KEY_LEN);
    QuoteFree(a.salt);
    QuoteFree(key);
    FieldsQuoteFree(Decimal(ROUNDS), OidcEncode(a.salt), OidcEncode(key));
    HashIs(kdf, Plaintext(a), a.salt);
  }

  lemma HashIs(kdf: Kdf, plaintext: string, salt: seq<Byte>)
    ensures Hash(kdf, plaintext, salt)
            == Fields(Decimal(ROUNDS), OidcEncode(salt), OidcEncode(kdf(plaintext, salt, ROUNDS, KEY_LEN)))
  {
  }

  lemma QuoteFree(b: seq<Byte>)
    ensures Free(OidcEncode(b), '\'')
  {
    OidcAlphabet(b);
    assert !InHashAlphabet('\'');
  }

  lemma FieldsQuoteFree(digits: string, salt: string, hash: string)
    requires AllDigits(digits) && Free(salt, '\'') && Free(hash, '\'')
    ensures Free(Fields(digits, salt, hash), '\'')
  {
    assert Free(digits, '\'') by { assert !IsDigit('\''); }
    assert Free(PREFIX, '\'') && Free(salt + "$" + hash, '\'');
    assert Free(digits + "$" + (salt + "$" + hash), '\'');
    assert Free(PREFIX + "$" + (digits + "$" + (salt + "$" + hash)), '\'');
  }

  /** What a target sees of the files. */
  ghost predicate SameFor(f: Files, g: Files, t: Target) {
    && Stored(g, t) == Stored(f, t)
    && (t.path in g.plain <==> t.path in f.plain)
    && (t.path in f.plain ==> g.plain[t.path] == f.plain[t.path])
  }

  /** Rotating one secret never disturbs another. */
  lemma OthersUndisturbed(kdf: Kdf, f: Files, a: Attempt, t: Target)
    requires FillsKey(kdf) && Proper(a) && WellNamed(t) && a.target != t && OneOrApart(a.target, t)
    ensures SameFor(f, Rotated(kdf, f, a), t)
  {
    if NoWrites(f, a) || !a.progress.Completes? { return; }
    HashAccepted(kdf, Plaintext(a), a.salt);
    OthersUntouched(f.env, a.target.envVar, NewHash(kdf, a), t.envVar);
  }

  lemma AttemptKeepsPairs(kdf: Kdf, f: Files, a: Attempt, t: Target)
    requires FillsKey(kdf) && Proper(a) && WellNamed(t) && OneOrApart(a.target, t) && Paired(kdf, f, t)
    ensures Paired(kdf, Rotated(kdf, f, a), t)
  {
    if a.target != t {
      OthersUndisturbed(kdf, f, a, t);
    } else if HashShaped(Stored(f, t)) {
      assert Healthy(f, t);
    } else if a.progress.Completes? {
      CompletedPairs(kdf, f, a);
    }
  }

  /** The files after a run of attempts, oldest first. */
  function Run(kdf: Kdf, f: Files, attempts: seq<Attempt>): Files
    decreases |attempts|
  {
    if attempts == [] then f else Run(kdf, Rotated(kdf, f, attempts[0]), attempts[1..])
  }

  ghost predicate ProperRun(attempts: seq<Attempt>, t: Target) {
    WellNamed(t) && forall i :: 0 <= i < |attempts| ==> Proper(attempts[i]) && OneOrApart(attempts[i].target, t)
  }

  /** Over any run of attempts on any of the secrets, stopped anywhere, a hash-shaped
      value always belongs to the stored plaintext. */
  lemma {:induction false} RunKeepsPairs(kdf: Kdf, f: Files, attempts: seq<Attempt>, t: Target)
    requires FillsKey(kdf) && ProperRun(attempts, t) && Paired(kdf, f, t)
    ensures Paired(kdf, Run(kdf, f, attempts), t)
    decreases |attempts|
  {
    if attempts != [] {
      AttemptKeepsPairs(kdf, f, attempts[0], t);
      RunKeepsPairs(kdf, Rotated(kdf, f, attempts[0]), attempts[1..], t);
    }
  }

  /** A fresh install: the env file holds a placeholder, so every run is paired. */
  lemma FromPlaceholder(kdf: Kdf, f: Files, attempts: seq<Attempt>, t: Target)
    requires FillsKey(kdf) && ProperRun(attempts, t) && !HashShaped(Stored(f, t))
    ensures Paired(kdf, Run(kdf, f, attempts), t)
  {
    RunKeepsPairs(kdf, f, attempts, t);
  }

  /** Once a secret is healthy, no later attempt on any secret changes its hash or its
      plaintext. */
  lemma {:induction false} HealthyIsFinal(kdf: Kdf, f: Files, attempts: seq<Attempt>, t: Target)
    requires FillsKey(kdf) && ProperRun(attempts, t) && Healthy(f, t)
    ensures Healthy(Run(kdf, f, attempts), t) && SameFor(f, Run(kdf, f, attempts), t)
    decreases |attempts|
  {
    if attempts != [] {
      var g := Rotated(kdf, f, attempts[0]);
      if attempts[0].target != t { OthersUndisturbed(kdf, f, attempts[0], t); }
      HealthyStep(f, g, t);
      HealthyIsFinal(kdf, g, attempts[1..], t);
    }
  }

  lemma HealthyStep(f: Files, g: Files, t: Target)
    requires Healthy(f, t) && SameFor(f, g, t)
    ensures Healthy(g, t)
  {
  }

  /** Retrying until one attempt completes is enough: from then on the secret is
      healthy and matches, whatever came before and comes after. */
  lemma RetryConverges(kdf: Kdf, f: Files, before: seq<Attempt>, a: Attempt, after: seq<Attempt>)
    requires FillsKey(kdf) && Proper(a) && ProperRun(before, a.target) && ProperRun(after, a.target)
    requires a.progress.Completes? && !HashShaped(Stored(f, a.target))
    ensures var g := Run(kdf, Rotated(kdf, Run(kdf, f, before), a), after);
            Healthy(g, a.target) && Matches(kdf, g, a.target)
  {
    var mid := Run(kdf, f, before);
    FromPlaceholder(kdf, f, before, a.target);
    AttemptKeepsPairs(kdf, mid, a, a.target);
    if !Healthy(mid, a.target) { CompletedPairs(kdf, mid, a); }
    HealthyIsFinal(kdf, Rotated(kdf, mid, a), after, a.target);
    RunKeepsPairs(kdf, Rotated(kdf, mid, a), after, a.target);
  }

  // --- the three secrets ------------------------------------------------------------------

  const CONSOLE := Target("AUTHELIA_OIDC_CONSOLE_CLIENT_SECRET_HASH",
                          "/etc/raph-installer/oidc-console-client-secret")
  const CLOUD := Target("AUTHELIA_OIDC_CLOUD_CLIENT_SECRET_HASH",
                        "/etc/raph-installer/oidc-cloud-client-secret")
  const TASK := Target("AUTHELIA_OIDC_TASK_CLIENT_SECRET_HASH",
                       "/etc/raph-installer/oidc-task-client-secret")

  /** The program's three targets meet the assumptions of the laws above. */
  lemma ThreeTargets()
    ensures OneOrApart(CONSOLE, CLOUD) && OneOrApart(CONSOLE, TASK) && OneOrApart(CLOUD, TASK)
  {
    assert |CONSOLE.envVar| == 40 && |CLOUD.envVar| == 38 && |TASK.envVar| == 37;
    assert |CONSOLE.path| == 46 && |CLOUD.path| == 44 && |TASK.path| == 43;
  }

  lemma ConsoleNamed()
    ensures WellNamed(CONSOLE)
  {
    assert CONSOLE.envVar[0] == 'A' && |CONSOLE.path| == 46;
  }

  lemma CloudNamed()
    ensures WellNamed(CLOUD)
  {
    assert CLOUD.envVar[0] == 'A' && |CLOUD.path| == 44;
  }

  lemma TaskNamed()
    ensures WellNamed(TASK)
  {
    assert TASK.envVar[0] == 'A' && |TASK.path| == 43;
  }

  const SECRETS := {CONSOLE, CLOUD, TASK}

  lemma SecretsNamed(t: Target)
    requires t in SECRETS
    ensures WellNamed(t)
  {
    if t == CONSOLE { ConsoleNamed(); } else if t == CLOUD { CloudNamed(); } else { TaskNamed(); }
  }

  /** Random bytes for one of the three secrets. */
  ghost predicate OneOfThree(a: Attempt) { a.target in SECRETS && a.secret != [] && a.salt != [] }

  /** From a fresh install, over every run of attempts on the three secrets, stopped anywhere,
      each hash-shaped value is the hash of its stored plaintext; and once a secret is
      healthy, the rest of the run changes neither its hash nor its plaintext. */
  lemma ThreeSecrets(kdf: Kdf, f: Files, before: seq<Attempt>, after: seq<Attempt>, t: Target)
    requires FillsKey(kdf) && t in SECRETS && !HashShaped(Stored(f, t))
    requires forall a :: a in before || a in after ==> OneOfThree(a)
    ensures var mid := Run(kdf, f, before);
      && Paired(kdf, mid, t)
      && (Healthy(mid, t) ==> Healthy(Run(kdf, mid, after), t) && SameFor(mid, Run(kdf, mid, after), t))
  {
    hide Run, Healthy, Paired, HashShaped, Stored;
    ThreeProper(before, t);
    ThreeProper(after, t);
    FromPlaceholder(kdf, f, before, t);
    if Healthy(Run(kdf, f, before), t) { HealthyIsFinal(kdf, Run(kdf, f, before), after, t); }
  }

  lemma ThreeProper(attempts: seq<Attempt>, t: Target)
    requires t in SECRETS && forall a :: a in attempts ==> OneOfThree(a)
    ensures ProperRun(attempts, t)
  {
    hide WellNamed;
    ThreeTargets();
    SecretsNamed(t);
    forall i | 0 <= i < |attempts| ensures Proper(attempts[i]) && OneOrApart(attempts[i].target, t) {
      assert attempts[i] in attempts;
      SecretsNamed(attempts[i].target);
    }
  }
}
