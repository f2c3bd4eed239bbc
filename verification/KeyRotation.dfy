/** The TOTP keyring and its rotation: what each durable write leaves behind, and what every crash does. */
module KeyringSpec {
  import opened Prelude
  import opened JsText
  import opened CanonicalJson
  import opened CanonicalRoundTrip

  type Key = k: Bytes | |k| == 32 witness seq(32, _ => 0)

  /** AES-256-GCM: key, nonce, associated data, and plaintext or ciphertext with its tag. */
  datatype Cipher = Cipher(seal: (Key, Bytes, Text, Bytes) -> Bytes, open: (Key, Bytes, Text, Bytes) -> Option<Bytes>)

  datatype Document = Document(currentVersion: nat, keys: map<nat, Key>)

  const AES := "aes-256-gcm"
  const MAX_SAFE_INTEGER: nat := 9_007_199_254_740_991
  const BATCH: nat := 100

  predicate ValidDocument(d: Document) {
    d.currentVersion in d.keys && forall v :: v in d.keys ==> 1 <= v <= MAX_SAFE_INTEGER
  }

  datatype Envelope = Envelope(algorithm: string, ciphertext: Bytes, keyVersion: nat, nonce: Bytes)

  // ---- one secret ----

  function Aad(userId: Text, authenticatorId: Text, version: nat): Text {
    userId + [0] + (authenticatorId + [0] + Decimal(version))
  }

  /** Everything that went into one sealing. */
  datatype Sealing = Sealing(key: Key, nonce: Bytes, userId: Text, authenticatorId: Text, version: nat, secret: Bytes)

  function AadOf(s: Sealing): Text {
    Aad(s.userId, s.authenticatorId, s.version)
  }

  function Ciphertext(c: Cipher, s: Sealing): Bytes {
    c.seal(s.key, s.nonce, AadOf(s), s.secret)
  }

  function Sealed(c: Cipher, s: Sealing): Envelope {
    Envelope(AES, Ciphertext(c, s), s.version, s.nonce)
  }

  /** What was sealed opens, and the tag takes sixteen bytes. */
  ghost predicate Decrypts(c: Cipher, log: set<Sealing>) {
    forall s :: s in log ==> c.open(s.key, s.nonce, AadOf(s), Ciphertext(c, s)) == Some(s.secret) && |Ciphertext(c, s)| == |s.secret| + 16
  }

  ghost predicate Made(c: Cipher, log: set<Sealing>, key: Key, nonce: Bytes, aad: Text, ciphertext: Bytes) {
    exists s :: s in log && s.key == key && s.nonce == nonce && AadOf(s) == aad && Ciphertext(c, s) == ciphertext
  }

  /** Only what was sealed with a key, a nonce and associated data opens under them. */
  ghost predicate Authentic(c: Cipher, log: set<Sealing>) {
    forall key, nonce, aad, ciphertext :: c.open(key, nonce, aad, ciphertext).Some? ==> Made(c, log, key, nonce, aad, ciphertext)
  }

  ghost predicate NoncesDistinct(log: set<Sealing>) {
    forall s, t :: s in log && t in log && s.nonce == t.nonce ==> s == t
  }

  /** Both assumptions can be met together, whatever finitely many sealings were made. */
  lemma CipherExists(log: set<Sealing>)
    ensures exists c: Cipher :: Decrypts(c, log) && Authentic(c, log)
  {
    var tag: Bytes := seq(16, _ => 0);
    var c := Cipher(
      (key: Key, nonce: Bytes, aad: Text, plain: Bytes) => plain + tag,
      (key: Key, nonce: Bytes, aad: Text, ciphertext: Bytes) =>
        if exists s :: s in log && s.key == key && s.nonce == nonce && AadOf(s) == aad && s.secret + tag == ciphertext
        then Some(ciphertext[..|ciphertext| - 16]) else None);
    forall s | s in log
      ensures c.open(s.key, s.nonce, AadOf(s), Ciphertext(c, s)) == Some(s.secret) && |Ciphertext(c, s)| == |s.secret| + 16
    {
      assert (s.secret + tag)[..|s.secret|] == s.secret;
    }
    forall key, nonce, aad, ciphertext | c.open(key, nonce, aad, ciphertext).Some?
      ensures Made(c, log, key, nonce, aad, ciphertext)
    {
      var s :| s in log && s.key == key && s.nonce == nonce && AadOf(s) == aad && s.secret + tag == ciphertext;
      assert Ciphertext(c, s) == ciphertext;
    }
    assert Decrypts(c, log) && Authentic(c, log);
  }

  function Decrypt(c: Cipher, keys: map<nat, Key>, userId: Text, authenticatorId: Text, e: Envelope): Result<Bytes> {
    if e.keyVersion !in keys then Err("totp_key_missing")
    else if |e.ciphertext| < 17 then Err("totp_ciphertext_invalid")
    else
      var plain := c.open(keys[e.keyVersion], e.nonce, Aad(userId, authenticatorId, e.keyVersion), e.ciphertext);
      if plain.None? then Err("totp_authentication_failed") else Ok(plain.value)
  }

  function SealingUnder(d: Document, nonce: Bytes, userId: Text, authenticatorId: Text, secret: Bytes): Sealing
    requires d.currentVersion in d.keys
  {
    Sealing(d.keys[d.currentVersion], nonce, userId, authenticatorId, d.currentVersion, secret)
  }

  function Encrypt(c: Cipher, d: Document, nonce: Bytes, userId: Text, authenticatorId: Text, secret: Bytes): Envelope
    requires d.currentVersion in d.keys
  {
    Sealed(c, SealingUnder(d, nonce, userId, authenticatorId, secret))
  }

  /** A secret comes back under every later keyring, exactly when it is not empty. */
  lemma DecryptsIff(c: Cipher, log: set<Sealing>, d: Document, later: map<nat, Key>, nonce: Bytes, userId: Text, authenticatorId: Text, secret: Bytes)
    requires d.currentVersion in d.keys && d.currentVersion in later && later[d.currentVersion] == d.keys[d.currentVersion]
    requires Decrypts(c, log) && SealingUnder(d, nonce, userId, authenticatorId, secret) in log
    ensures Decrypt(c, later, userId, authenticatorId, Encrypt(c, d, nonce, userId, authenticatorId, secret)) == Ok(secret) <==> secret != []
  {
  }

  predicate NoNul(t: Text) {
    forall i :: 0 <= i < |t| ==> t[i] != 0
  }

  lemma SplitAtNul(a: Text, x: Text, b: Text, y: Text)
    requires NoNul(a) && NoNul(b) && a + [0] + x == b + [0] + y
    ensures a == b && x == y
  {
    var s := a + [0] + x;
    assert s[|a|] == 0 && s[|b|] == 0;
    assert forall i :: 0 <= i < |a| ==> s[i] == a[i];
    assert forall i :: 0 <= i < |b| ==> s[i] == b[i];
    assert a == s[..|a|] && b == s[..|b|];
    assert x == s[|a| + 1..] && y == s[|b| + 1..];
  }

  lemma AadSame(userId: Text, authenticatorId: Text, version: nat, userId': Text, authenticatorId': Text, version': nat)
    requires NoNul(userId) && NoNul(authenticatorId) && NoNul(userId') && NoNul(authenticatorId')
    requires Aad(userId', authenticatorId', version') == Aad(userId, authenticatorId, version)
    ensures userId' == userId && authenticatorId' == authenticatorId && version' == version
  {
    SplitAtNul(userId', authenticatorId' + [0] + Decimal(version'), userId, authenticatorId + [0] + Decimal(version));
    SplitAtNul(authenticatorId', Decimal(version'), authenticatorId, Decimal(version));
    DecimalDigits(version');
    DecimalDigits(version);
  }

  /**
   * An envelope names its user, its authenticator and its key version: wherever it is put, it opens exactly in its own row,
   * under its own version and with its own key, and then to its secret.
   */
  lemma EnvelopeOpensIff(c: Cipher, log: set<Sealing>, s: Sealing, keys: map<nat, Key>, userId': Text, authenticatorId': Text, version': nat)
    requires Decrypts(c, log) && Authentic(c, log) && NoncesDistinct(log) && s in log
    requires NoNul(s.userId) && NoNul(s.authenticatorId) && NoNul(userId') && NoNul(authenticatorId')
    ensures
      var plain := Decrypt(c, keys, userId', authenticatorId', Sealed(c, s).(keyVersion := version'));
      (plain.Ok? <==> userId' == s.userId && authenticatorId' == s.authenticatorId && version' == s.version
                       && s.version in keys && keys[s.version] == s.key && s.secret != [])
      && (plain.Ok? ==> plain.value == s.secret)
  {
    var e := Sealed(c, s).(keyVersion := version');
    if Decrypt(c, keys, userId', authenticatorId', e).Ok? {
      assert Made(c, log, keys[version'], s.nonce, Aad(userId', authenticatorId', version'), e.ciphertext);
      var t :| t in log && t.key == keys[version'] && t.nonce == s.nonce && AadOf(t) == Aad(userId', authenticatorId', version')
               && Ciphertext(c, t) == e.ciphertext;
      assert t == s;
      AadSame(s.userId, s.authenticatorId, s.version, userId', authenticatorId', version');
    }
  }

  // ---- the table and the keyring file ----

  datatype Row = Row(id: Text, userId: Text, enabled: bool, envelope: Envelope)

  /**
   * The table in primary key order, and the keyring file beside the temporary files that writing it leaves. `log` is no part of
   * the system: it remembers what was sealed into the table so far.
   */
  datatype Vault = Vault(keyring: Document, temporaries: seq<Document>, table: seq<Row>, log: set<Sealing>)

  /** UPDATE ... WHERE id = ? AND key_version = ?, with the sealing that made the envelope. */
  datatype Reseal = Reseal(id: Text, from: nat, sealed: Envelope, sealing: Sealing)

  function Sealings(us: seq<Reseal>): set<Sealing> {
    set u | u in us :: u.sealing
  }

  function Resealed(r: Row, u: Reseal): Row {
    if r.id == u.id && r.envelope.keyVersion == u.from then r.(envelope := u.sealed) else r
  }

  function UpdateOne(table: seq<Row>, u: Reseal): (updated: seq<Row>)
    ensures |updated| == |table| && forall i :: 0 <= i < |table| ==> updated[i] == Resealed(table[i], u)
  {
    seq(|table|, i requires 0 <= i < |table| => Resealed(table[i], u))
  }

  function Update(table: seq<Row>, us: seq<Reseal>): (updated: seq<Row>)
    ensures |updated| == |table|
  {
    if us == [] then table else UpdateOne(Update(table, us[..|us| - 1]), us[|us| - 1])
  }

  datatype Write = WriteTemporary(document: Document) | Rename(document: Document) | Commit(updates: seq<Reseal>)

  function Apply(v: Vault, w: Write): Vault {
    match w
    case WriteTemporary(d) => v.(temporaries := v.temporaries + [d])
    case Rename(d) => v.(keyring := d, temporaries := if v.temporaries == [] then [] else v.temporaries[..|v.temporaries| - 1])
    case Commit(us) => v.(table := Update(v.table, us), log := v.log + Sealings(us))
  }

  function ApplyAll(v: Vault, ws: seq<Write>): Vault {
    if ws == [] then v else Apply(ApplyAll(v, ws[..|ws| - 1]), ws[|ws| - 1])
  }

  // ---- rotation ----

  predicate IsStale(r: Row, version: nat) {
    r.enabled && r.envelope.keyVersion != version
  }

  /** SELECT ... WHERE enabled = TRUE AND key_version <> ? ORDER BY id */
  function Stale(table: seq<Row>, version: nat): seq<Row> {
    if table == [] then [] else
    (if IsStale(table[0], version) then [table[0]] else []) + Stale(table[1..], version)
  }

  function Batch(table: seq<Row>, version: nat): seq<Row> {
    var stale := Stale(table, version);
    if |stale| <= BATCH then stale else stale[..BATCH]
  }

  function ResealRow(c: Cipher, d: Document, nonce: Bytes, r: Row): Result<Reseal>
    requires d.currentVersion in d.keys
  {
    if r.envelope.algorithm != AES then Err("totp_algorithm_invalid") else
    var secret := Decrypt(c, d.keys, r.userId, r.id, r.envelope);
    if secret.Err? then Err(secret.error)
    else Ok(Reseal(r.id, r.envelope.keyVersion, Encrypt(c, d, nonce, r.userId, r.id, secret.value),
                   SealingUnder(d, nonce, r.userId, r.id, secret.value)))
  }

  /** The updates of one transaction: the batch it read, each row resealed. The nonce is the one the envelope carries. */
  ghost predicate IsBatch(c: Cipher, v: Vault, us: seq<Reseal>) {
    v.keyring.currentVersion in v.keyring.keys
    && var batch := Batch(v.table, v.keyring.currentVersion);
       |us| == |batch| && forall i :: 0 <= i < |us| ==> ResealRow(c, v.keyring, us[i].sealed.nonce, batch[i]) == Ok(us[i])
  }

  lemma {:induction false} StaleAre(table: seq<Row>, version: nat, r: Row)
    ensures r in Stale(table, version) <==> r in table && IsStale(r, version)
  {
    if table != [] {
      StaleAre(table[1..], version, r);
      assert table == [table[0]] + table[1..];
    }
  }

  lemma HighestExists(keys: set<nat>)
    requires keys != {}
    ensures exists m :: m in keys && forall v :: v in keys ==> v <= m
  {
    var x :| x in keys;
    if keys != {x} {
      var others := keys - {x};
      HighestExists(others);
      var m :| m in others && forall v :: v in others ==> v <= m;
      var highest := if x > m then x else m;
      assert highest in keys;
      forall v | v in keys ensures v <= highest {
        assert v == x || v in others;
      }
    }
  }

  function Highest(keys: set<nat>): (m: nat)
    requires keys != {}
    ensures m in keys && forall v :: v in keys ==> v <= m
  {
    HighestExists(keys);
    var m :| m in keys && forall v :: v in keys ==> v <= m;
    m
  }

  function NextDocument(d: Document, key: Key): Document
    requires d.keys.Keys != {}
  {
    var version := Highest(d.keys.Keys) + 1;
    Document(version, d.keys[version := key])
  }

  ghost predicate IsNext(d: Document, next: Document) {
    ValidDocument(d) && ValidDocument(next) && exists key: Key :: next == NextDocument(d, key)
  }

  /** The durable writes a rotation makes in a given state. */
  ghost predicate Allowed(c: Cipher, v: Vault, w: Write) {
    match w
    case WriteTemporary(d) => IsNext(v.keyring, d)
    case Rename(d) => IsNext(v.keyring, d) && v.temporaries != [] && v.temporaries[|v.temporaries| - 1] == d
    case Commit(us) => IsBatch(c, v, us)
  }

  /** A rotation, or the part of one that was made before a crash. */
  ghost predicate IsRotation(c: Cipher, v: Vault, ws: seq<Write>) {
    forall k :: 0 <= k < |ws| ==> Allowed(c, ApplyAll(v, ws[..k]), ws[k])
  }

  lemma OneMoreWrite(c: Cipher, v: Vault, ws: seq<Write>, w: Write)
    requires IsRotation(c, v, ws) && Allowed(c, ApplyAll(v, ws), w)
    ensures IsRotation(c, v, ws + [w]) && ApplyAll(v, ws + [w]) == Apply(ApplyAll(v, ws), w)
  {
    var more := ws + [w];
    assert more[..|ws|] == ws;
    forall k | 0 <= k < |more| ensures Allowed(c, ApplyAll(v, more[..k]), more[k]) {
      if k < |ws| {
        assert more[..k] == ws[..k];
        assert Allowed(c, ApplyAll(v, ws[..k]), ws[k]);
      }
    }
  }
}
