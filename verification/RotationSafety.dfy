/** Every stored secret stays readable, whatever rotations, crashes and enrolments happen. */
module RotationSafety {
  import opened Prelude
  import opened JsText
  import opened KeyringSpec

  /** The secret each authenticator was enrolled with. */
  type Secrets = map<Text, Bytes>

  ghost predicate Readable(c: Cipher, keys: map<nat, Key>, r: Row, secrets: Secrets) {
    r.id in secrets && Decrypt(c, keys, r.userId, r.id, r.envelope) == Ok(secrets[r.id])
  }

  ghost predicate AllReadable(c: Cipher, keys: map<nat, Key>, table: seq<Row>, secrets: Secrets) {
    forall i :: 0 <= i < |table| ==> Readable(c, keys, table[i], secrets)
  }

  /** The row's envelope was sealed for this row, with its key version's key, from its secret. */
  ghost predicate Held(c: Cipher, keys: map<nat, Key>, log: set<Sealing>, r: Row, secrets: Secrets) {
    r.id in secrets && secrets[r.id] != [] && r.envelope.keyVersion in keys
    && var s := Sealing(keys[r.envelope.keyVersion], r.envelope.nonce, r.userId, r.id, r.envelope.keyVersion, secrets[r.id]);
       s in log && r.envelope == Sealed(c, s)
  }

  ghost predicate AllHeld(c: Cipher, keys: map<nat, Key>, log: set<Sealing>, table: seq<Row>, secrets: Secrets) {
    forall i :: 0 <= i < |table| ==> Held(c, keys, log, table[i], secrets)
  }

  ghost predicate UniqueIds(table: seq<Row>) {
    forall i, j :: 0 <= i < j < |table| ==> table[i].id != table[j].id
  }

  /** Every envelope in the table was sealed from its row's original secret, with a key that is still in the keyring on disk. */
  ghost predicate Inv(c: Cipher, v: Vault, secrets: Secrets) {
    ValidDocument(v.keyring) && UniqueIds(v.table) && AllHeld(c, v.keyring.keys, v.log, v.table, secrets)
  }

  /** So the keyring on disk opens every envelope in the table to its original secret. */
  lemma InvReads(c: Cipher, v: Vault, secrets: Secrets)
    requires Decrypts(c, v.log) && Inv(c, v, secrets)
    ensures AllReadable(c, v.keyring.keys, v.table, secrets)
  {
    forall i | 0 <= i < |v.table| ensures Readable(c, v.keyring.keys, v.table[i], secrets) {
      assert Held(c, v.keyring.keys, v.log, v.table[i], secrets);
    }
  }

  ghost predicate Extends(keys: map<nat, Key>, later: map<nat, Key>) {
    forall v :: v in keys ==> v in later && later[v] == keys[v]
  }

  lemma MoreHeld(c: Cipher, keys: map<nat, Key>, later: map<nat, Key>, log: set<Sealing>, longer: set<Sealing>, table: seq<Row>, secrets: Secrets)
    requires AllHeld(c, keys, log, table, secrets) && Extends(keys, later) && log <= longer
    ensures AllHeld(c, later, longer, table, secrets)
  {
    forall i | 0 <= i < |table| ensures Held(c, later, longer, table[i], secrets) {
      assert Held(c, keys, log, table[i], secrets);
    }
  }

  // ---- one update ----

  /** Nothing but envelopes changed. */
  ghost predicate SameRows(a: seq<Row>, b: seq<Row>) {
    |a| == |b| && forall i :: 0 <= i < |a| ==> b[i] == a[i].(envelope := b[i].envelope)
  }

  /** Whichever row the update hits, it holds its secret afterwards. */
  ghost predicate Good(c: Cipher, keys: map<nat, Key>, log: set<Sealing>, table: seq<Row>, secrets: Secrets, u: Reseal) {
    forall i :: 0 <= i < |table| && table[i].id == u.id ==> Held(c, keys, log, table[i].(envelope := u.sealed), secrets)
  }

  lemma GoodUpdate(c: Cipher, keys: map<nat, Key>, log: set<Sealing>, table: seq<Row>, secrets: Secrets, u: Reseal)
    requires AllHeld(c, keys, log, table, secrets) && Good(c, keys, log, table, secrets, u)
    ensures AllHeld(c, keys, log, UpdateOne(table, u), secrets) && SameRows(table, UpdateOne(table, u))
  {
    var updated := UpdateOne(table, u);
    forall i | 0 <= i < |table| ensures Held(c, keys, log, updated[i], secrets) {
      assert updated[i] == Resealed(table[i], u);
      assert Held(c, keys, log, table[i], secrets);
    }
  }

  lemma {:induction false} GoodUpdates(c: Cipher, keys: map<nat, Key>, log: set<Sealing>, table: seq<Row>, secrets: Secrets, us: seq<Reseal>)
    requires AllHeld(c, keys, log, table, secrets)
    requires forall k :: 0 <= k < |us| ==> Good(c, keys, log, table, secrets, us[k])
    ensures AllHeld(c, keys, log, Update(table, us), secrets) && SameRows(table, Update(table, us))
  {
    if us != [] {
      var n := |us| - 1;
      var before := Update(table, us[..n]);
      GoodUpdates(c, keys, log, table, secrets, us[..n]);
      assert Good(c, keys, log, table, secrets, us[n]);
      assert Good(c, keys, log, before, secrets, us[n]) by {
        forall i | 0 <= i < |before| && before[i].id == us[n].id ensures Held(c, keys, log, before[i].(envelope := us[n].sealed), secrets) {
          assert before[i] == table[i].(envelope := before[i].envelope);
        }
      }
      GoodUpdate(c, keys, log, before, secrets, us[n]);
    }
  }

  /** A row that holds its secret can be resealed, and the result is good for it. */
  lemma ResealGood(c: Cipher, v: Vault, secrets: Secrets, nonce: Bytes, r: Row)
    requires Decrypts(c, v.log) && Inv(c, v, secrets) && r in v.table
    ensures ResealRow(c, v.keyring, nonce, r).Ok?
    ensures var u := ResealRow(c, v.keyring, nonce, r).value;
            forall log :: u.sealing in log ==> Good(c, v.keyring.keys, log, v.table, secrets, u)
  {
    var i :| 0 <= i < |v.table| && v.table[i] == r;
    assert Held(c, v.keyring.keys, v.log, r, secrets);
    InvReads(c, v, secrets);
    assert Readable(c, v.keyring.keys, r, secrets);
    forall k | 0 <= k < |v.table| && v.table[k].id == r.id ensures k == i {
    }
  }

  lemma BatchFromTable(table: seq<Row>, version: nat, k: nat)
    requires k < |Batch(table, version)|
    ensures Batch(table, version)[k] in table && IsStale(Batch(table, version)[k], version)
  {
    assert Batch(table, version)[k] in Stale(table, version);
    StaleAre(table, version, Batch(table, version)[k]);
  }

  /** A committed batch leaves every secret readable. */
  lemma CommitKeeps(c: Cipher, v: Vault, secrets: Secrets, us: seq<Reseal>)
    requires Decrypts(c, v.log) && Inv(c, v, secrets) && IsBatch(c, v, us)
    ensures Inv(c, Apply(v, Commit(us)), secrets)
  {
    var batch := Batch(v.table, v.keyring.currentVersion);
    var log := v.log + Sealings(us);
    forall k | 0 <= k < |us| ensures Good(c, v.keyring.keys, log, v.table, secrets, us[k]) {
      BatchFromTable(v.table, v.keyring.currentVersion, k);
      ResealGood(c, v, secrets, us[k].sealed.nonce, batch[k]);
      assert us[k].sealing in Sealings(us);
    }
    MoreHeld(c, v.keyring.keys, v.keyring.keys, v.log, log, v.table, secrets);
    GoodUpdates(c, v.keyring.keys, log, v.table, secrets, us);
    KeepsIds(v.table, Update(v.table, us));
  }

  lemma KeepsIds(a: seq<Row>, b: seq<Row>)
    requires UniqueIds(a) && SameRows(a, b)
    ensures UniqueIds(b)
  {
    forall i, j | 0 <= i < j < |b| ensures b[i].id != b[j].id {
      assert b[i] == a[i].(envelope := b[i].envelope) && b[j] == a[j].(envelope := b[j].envelope);
    }
  }

  // ---- a rotation, killed anywhere ----

  lemma AllowedKeeps(c: Cipher, v: Vault, secrets: Secrets, w: Write)
    requires Decrypts(c, v.log) && Inv(c, v, secrets) && Allowed(c, v, w)
    ensures Inv(c, Apply(v, w), secrets)
  {
    match w {
      case WriteTemporary(_) =>
      case Rename(d) => MoreHeld(c, v.keyring.keys, d.keys, v.log, v.log, v.table, secrets);
      case Commit(us) => CommitKeeps(c, v, secrets, us);
    }
  }

  /** Killed after any number of its durable writes, a rotation leaves every secret readable under the keyring on disk. */
  lemma {:induction false} RotationKeeps(c: Cipher, v: Vault, secrets: Secrets, ws: seq<Write>, k: nat)
    requires Inv(c, v, secrets) && IsRotation(c, v, ws) && k <= |ws| && Decrypts(c, ApplyAll(v, ws[..k]).log)
    ensures Inv(c, ApplyAll(v, ws[..k]), secrets) && AllReadable(c, ApplyAll(v, ws[..k]).keyring.keys, ApplyAll(v, ws[..k]).table, secrets)
    ensures v.log <= ApplyAll(v, ws[..k]).log
  {
    if k == 0 {
      InvReads(c, v, secrets);
    } else {
      assert ws[..k][..k - 1] == ws[..k - 1];
      RotationKeeps(c, v, secrets, ws, k - 1);
      InvReads(c, ApplyAll(v, ws[..k]), secrets) by {
        AllowedKeeps(c, ApplyAll(v, ws[..k - 1]), secrets, ws[k - 1]);
      }
      AllowedKeeps(c, ApplyAll(v, ws[..k - 1]), secrets, ws[k - 1]);
    }
  }

  // ---- a rotation that runs to its end ----

  lemma {:induction false} NotHit(table: seq<Row>, u: Reseal)
    requires forall i :: 0 <= i < |table| ==> table[i].id != u.id
    ensures UpdateOne(table, u) == table
  {
  }

  /** Resealing the first stale row leaves exactly the others stale, and changes no other row. */
  lemma {:induction false} FirstResealed(table: seq<Row>, u: Reseal, version: nat)
    requires UniqueIds(table) && Stale(table, version) != [] && u.sealed.keyVersion == version
    requires u.id == Stale(table, version)[0].id && u.from == Stale(table, version)[0].envelope.keyVersion
    ensures Stale(UpdateOne(table, u), version) == Stale(table, version)[1..]
    ensures forall i :: 0 <= i < |table| && !IsStale(table[i], version) ==> UpdateOne(table, u)[i] == table[i]
  {
    var updated := UpdateOne(table, u);
    assert updated[1..] == UpdateOne(table[1..], u);
    if IsStale(table[0], version) {
      NotHit(table[1..], u);
    } else {
      var r := Stale(table[1..], version)[0];
      assert r in Stale(table[1..], version);
      StaleAre(table[1..], version, r);
      FirstResealed(table[1..], u, version);
      assert Stale(table, version) == Stale(table[1..], version);
    }
  }

  /** Exactly the first k stale rows no longer are, and no other row changed. */
  ghost predicate Taken(table: seq<Row>, after: seq<Row>, version: nat, k: nat)
    requires k <= |Stale(table, version)|
  {
    Stale(after, version) == Stale(table, version)[k..]
    && SameRows(table, after) && UniqueIds(after) && OthersKept(table, after, version)
  }

  /** After k of a batch's updates exactly its first k rows are no longer stale. */
  lemma {:induction false} StaleLeft(c: Cipher, v: Vault, us: seq<Reseal>, k: nat)
    requires IsBatch(c, v, us) && UniqueIds(v.table) && k <= |us|
    ensures Taken(v.table, Update(v.table, us[..k]), v.keyring.currentVersion, k)
  {
    if k > 0 {
      StaleLeft(c, v, us, k - 1);
      var r := Batch(v.table, v.keyring.currentVersion)[k - 1];
      assert ResealRow(c, v.keyring, us[k - 1].sealed.nonce, r) == Ok(us[k - 1]);
      UpdateMore(v.table, us, k);
      StaleStep(v.table, Update(v.table, us[..k - 1]), us[k - 1], r, v.keyring.currentVersion, k - 1);
    }
  }

  lemma UpdateMore(table: seq<Row>, us: seq<Reseal>, k: nat)
    requires 0 < k <= |us|
    ensures Update(table, us[..k]) == UpdateOne(Update(table, us[..k - 1]), us[k - 1])
  {
    assert us[..k][..k - 1] == us[..k - 1];
  }

  lemma StaleStep(table: seq<Row>, before: seq<Row>, u: Reseal, r: Row, version: nat, k: nat)
    requires k < |Stale(table, version)| && Taken(table, before, version, k) && Stale(table, version)[k] == r
    requires u.id == r.id && u.from == r.envelope.keyVersion && u.sealed.keyVersion == version
    ensures Taken(table, UpdateOne(before, u), version, k + 1)
  {
    FirstResealed(before, u, version);
    KeepsIds(before, UpdateOne(before, u));
    StillFresh(table, before, UpdateOne(before, u), version);
  }

  /** Rows that were not stale are as they were. */
  ghost predicate OthersKept(before: seq<Row>, after: seq<Row>, version: nat) {
    |after| == |before| && forall i :: 0 <= i < |before| && !IsStale(before[i], version) ==> after[i] == before[i]
  }

  lemma StillFresh(table: seq<Row>, before: seq<Row>, after: seq<Row>, version: nat)
    requires SameRows(table, before) && OthersKept(table, before, version)
    requires SameRows(before, after) && OthersKept(before, after, version)
    ensures SameRows(table, after) && OthersKept(table, after, version)
  {
    forall i | 0 <= i < |table| ensures after[i] == table[i].(envelope := after[i].envelope) {
      assert before[i] == table[i].(envelope := before[i].envelope);
      assert after[i] == before[i].(envelope := after[i].envelope);
    }
  }

  /** What a rotation that ends without an error has done: no enabled row is left under an old key, and no other row was touched. */
  ghost predicate Finished(before: seq<Row>, after: seq<Row>, version: nat) {
    SameRows(before, after) && Stale(after, version) == [] && OthersKept(before, after, version)
  }

  /** After a rotation that ended without an error, every enabled row's envelope carries the new version. */
  lemma FinishedIff(before: seq<Row>, after: seq<Row>, version: nat)
    requires SameRows(before, after) && OthersKept(before, after, version)
    ensures Finished(before, after, version) <==> forall r :: r in after && r.enabled ==> r.envelope.keyVersion == version
  {
    forall r ensures r in Stale(after, version) <==> r in after && r.enabled && r.envelope.keyVersion != version {
      StaleAre(after, version, r);
    }
    if Stale(after, version) != [] {
      assert Stale(after, version)[0] in Stale(after, version);
    }
  }

  /** One transaction takes exactly its batch off the stale rows. */
  lemma BatchTaken(c: Cipher, v: Vault, us: seq<Reseal>)
    requires IsBatch(c, v, us) && UniqueIds(v.table)
    ensures
      var after := Update(v.table, us);
      |Stale(after, v.keyring.currentVersion)| == |Stale(v.table, v.keyring.currentVersion)| - |us|
      && SameRows(v.table, after) && UniqueIds(after) && OthersKept(v.table, after, v.keyring.currentVersion)
  {
    StaleLeft(c, v, us, |us|);
    assert us[..|us|] == us;
  }

  /** With readable rows no batch fails. */
  lemma BatchNeverFails(c: Cipher, v: Vault, secrets: Secrets, nonce: Bytes, k: nat)
    requires Decrypts(c, v.log) && Inv(c, v, secrets) && k < |Batch(v.table, v.keyring.currentVersion)|
    ensures ResealRow(c, v.keyring, nonce, Batch(v.table, v.keyring.currentVersion)[k]).Ok?
  {
    BatchFromTable(v.table, v.keyring.currentVersion, k);
    ResealGood(c, v, secrets, nonce, Batch(v.table, v.keyring.currentVersion)[k]);
  }

  lemma NextExtends(d: Document, key: Key)
    requires ValidDocument(d)
    ensures Extends(d.keys, NextDocument(d, key).keys) && NextDocument(d, key).currentVersion !in d.keys
    ensures NextDocument(d, key).currentVersion <= MAX_SAFE_INTEGER ==> ValidDocument(NextDocument(d, key))
  {
  }

  // ---- runs ----

  /** The vault, and the secrets it is to keep. */
  datatype World = World(vault: Vault, secrets: Secrets)

  datatype Event =
    | Rotate(writes: seq<Write>)
    | Enroll(position: nat, id: Text, userId: Text, enabled: bool, secret: Bytes, version: nat, nonce: Bytes)
    | Enable(position: nat, enabled: bool)
    | Remove(position: nat)

  /**
   * A rotation's writes, up to its end or to a crash, and between them whatever the server does: it seals new secrets with
   * a key of the keyring it once read, which rotation never drops.
   */
  ghost predicate Possible(c: Cipher, w: World, e: Event) {
    match e
    case Rotate(ws) => IsRotation(c, w.vault, ws)
    case Enroll(position, id, _, _, secret, version, _) =>
      position <= |w.vault.table| && id !in w.secrets && secret != [] && version in w.vault.keyring.keys
    case Enable(position, _) => position < |w.vault.table|
    case Remove(position) => position < |w.vault.table|
  }

  function Enrolled(c: Cipher, keys: map<nat, Key>, id: Text, userId: Text, enabled: bool, secret: Bytes, version: nat, nonce: Bytes): Row
    requires version in keys
  {
    Row(id, userId, enabled, Encrypt(c, Document(version, keys), nonce, userId, id, secret))
  }

  function After(c: Cipher, w: World, e: Event): World {
    var v := w.vault;
    match e
    case Rotate(ws) => w.(vault := ApplyAll(v, ws))
    case Enroll(position, id, userId, enabled, secret, version, nonce) =>
      if position > |v.table| || version !in v.keyring.keys then w else
      var row := Enrolled(c, v.keyring.keys, id, userId, enabled, secret, version, nonce);
      World(v.(table := v.table[..position] + [row] + v.table[position..],
               log := v.log + {SealingUnder(Document(version, v.keyring.keys), nonce, userId, id, secret)}),
            w.secrets[id := secret])
    case Enable(position, enabled) =>
      if position >= |v.table| then w else w.(vault := v.(table := v.table[position := v.table[position].(enabled := enabled)]))
    case Remove(position) =>
      if position >= |v.table| then w else w.(vault := v.(table := v.table[..position] + v.table[position + 1..]))
  }

  function Run(c: Cipher, start: World, events: seq<Event>): World {
    if events == [] then start else After(c, Run(c, start, events[..|events| - 1]), events[|events| - 1])
  }

  lemma EnrollKeeps(c: Cipher, w: World, e: Event)
    requires Inv(c, w.vault, w.secrets) && Possible(c, w, e) && e.Enroll?
    ensures Inv(c, After(c, w, e).vault, After(c, w, e).secrets)
  {
    var v := w.vault;
    var row := Enrolled(c, v.keyring.keys, e.id, e.userId, e.enabled, e.secret, e.version, e.nonce);
    var log := After(c, w, e).vault.log;
    MoreHeld(c, v.keyring.keys, v.keyring.keys, v.log, log, v.table, w.secrets);
    var table := v.table[..e.position] + [row] + v.table[e.position..];
    forall i | 0 <= i < |v.table| ensures v.table[i].id != e.id {
      assert Held(c, v.keyring.keys, log, v.table[i], w.secrets);
    }
    forall i | 0 <= i < |table| ensures Held(c, v.keyring.keys, log, table[i], w.secrets[e.id := e.secret]) {
      if i != e.position {
        assert Held(c, v.keyring.keys, log, v.table[if i < e.position then i else i - 1], w.secrets);
      }
    }
  }

  lemma EventKeeps(c: Cipher, w: World, e: Event)
    requires Inv(c, w.vault, w.secrets) && Possible(c, w, e) && Decrypts(c, After(c, w, e).vault.log)
    ensures Inv(c, After(c, w, e).vault, After(c, w, e).secrets)
  {
    var v := w.vault;
    match e {
      case Rotate(ws) =>
        RotatedKeeps(c, v, w.secrets, ws);
      case Enroll(_, _, _, _, _, _, _) => EnrollKeeps(c, w, e);
      case Enable(position, enabled) => EnableKeeps(c, v, w.secrets, position, enabled);
      case Remove(position) => RemoveKeeps(c, v, w.secrets, position);
    }
  }

  lemma RotatedKeeps(c: Cipher, v: Vault, secrets: Secrets, ws: seq<Write>)
    requires Inv(c, v, secrets) && IsRotation(c, v, ws) && Decrypts(c, ApplyAll(v, ws).log)
    ensures Inv(c, ApplyAll(v, ws), secrets)
  {
    assert ws[..|ws|] == ws;
    RotationKeeps(c, v, secrets, ws, |ws|);
  }

  lemma EnableKeeps(c: Cipher, v: Vault, secrets: Secrets, position: nat, enabled: bool)
    requires Inv(c, v, secrets) && position < |v.table|
    ensures Inv(c, v.(table := v.table[position := v.table[position].(enabled := enabled)]), secrets)
  {
    var table := v.table[position := v.table[position].(enabled := enabled)];
    forall i | 0 <= i < |table| ensures Held(c, v.keyring.keys, v.log, table[i], secrets) {
      assert Held(c, v.keyring.keys, v.log, v.table[i], secrets);
    }
  }

  lemma RemoveKeeps(c: Cipher, v: Vault, secrets: Secrets, position: nat)
    requires Inv(c, v, secrets) && position < |v.table|
    ensures Inv(c, v.(table := v.table[..position] + v.table[position + 1..]), secrets)
  {
    var table := v.table[..position] + v.table[position + 1..];
    forall i | 0 <= i < |table| ensures Held(c, v.keyring.keys, v.log, table[i], secrets) {
      assert Held(c, v.keyring.keys, v.log, v.table[if i < position then i else i + 1], secrets);
    }
  }

  ghost predicate AllPossible(c: Cipher, start: World, events: seq<Event>) {
    forall k :: 0 <= k < |events| ==> Possible(c, Run(c, start, events[..k]), events[k])
  }

  lemma LogGrows(c: Cipher, w: World, e: Event)
    ensures w.vault.log <= After(c, w, e).vault.log
  {
    if e.Rotate? {
      WritesLog(w.vault, e.writes);
    }
  }

  lemma {:induction false} WritesLog(v: Vault, ws: seq<Write>)
    ensures v.log <= ApplyAll(v, ws).log
  {
    if ws != [] {
      WritesLog(v, ws[..|ws| - 1]);
    }
  }

  /**
   * However rotations, crashes inside them, enrolments and removals follow one another, the keyring on disk opens every envelope
   * to its secret.
   */
  lemma {:induction false} RunKeeps(c: Cipher, start: World, events: seq<Event>)
    requires Inv(c, start.vault, start.secrets) && AllPossible(c, start, events) && Decrypts(c, Run(c, start, events).vault.log)
    ensures var end := Run(c, start, events);
            Inv(c, end.vault, end.secrets) && AllReadable(c, end.vault.keyring.keys, end.vault.table, end.secrets)
  {
    var end := Run(c, start, events);
    if events != [] {
      var n := |events| - 1;
      assert AllPossible(c, start, events[..n]) by {
        forall k | 0 <= k < n ensures Possible(c, Run(c, start, events[..n][..k]), events[..n][k]) {
          assert events[..n][..k] == events[..k];
          assert Possible(c, Run(c, start, events[..k]), events[k]);
        }
      }
      LogGrows(c, Run(c, start, events[..n]), events[n]);
      RunKeeps(c, start, events[..n]);
      assert Possible(c, Run(c, start, events[..n]), events[n]);
      EventKeeps(c, Run(c, start, events[..n]), events[n]);
    }
    InvReads(c, end.vault, end.secrets);
  }

  /**
   * In every reachable state a stored envelope, put anywhere with any key version and any keyring, opens exactly in its own row,
   * under its own version and with that version's key. `log` holds all sealings made, stored or not.
   */
  lemma StoredEnvelopeOpensIff(c: Cipher, start: World, events: seq<Event>, log: set<Sealing>, i: nat,
                               keys: map<nat, Key>, userId: Text, authenticatorId: Text, version: nat)
    requires Inv(c, start.vault, start.secrets) && AllPossible(c, start, events)
    requires Run(c, start, events).vault.log <= log && Decrypts(c, log) && Authentic(c, log) && NoncesDistinct(log)
    requires i < |Run(c, start, events).vault.table|
    requires var r := Run(c, start, events).vault.table[i];
             NoNul(r.userId) && NoNul(r.id) && NoNul(userId) && NoNul(authenticatorId)
    ensures var v := Run(c, start, events).vault;
            var r := v.table[i];
            Decrypt(c, keys, userId, authenticatorId, r.envelope.(keyVersion := version)).Ok? <==>
            userId == r.userId && authenticatorId == r.id && version == r.envelope.keyVersion
            && version in keys && version in v.keyring.keys && keys[version] == v.keyring.keys[version]
  {
    var end := Run(c, start, events);
    var v := end.vault;
    RunKeeps(c, start, events);
    var r := v.table[i];
    assert Held(c, v.keyring.keys, v.log, r, end.secrets);
    var s := Sealing(v.keyring.keys[r.envelope.keyVersion], r.envelope.nonce, r.userId, r.id, r.envelope.keyVersion, end.secrets[r.id]);
    EnvelopeOpensIff(c, log, s, keys, userId, authenticatorId, version);
  }
}
