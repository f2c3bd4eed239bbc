/** The rotation command, over the keyring file and the table it works on. */
module KeyRotations {
  import opened Prelude
  import opened JsText
  import opened KeyringSpec
  import opened RotationSafety

  type Nonces = nat -> Bytes

  class KeyRotation {
    const cipher: Cipher
    var keyring: Document
    var temporaries: seq<Document>
    var table: seq<Row>
    /** The durable writes of the rotation, in order, and the vault it began with. */
    ghost var trace: seq<Write>
    ghost var start: Vault
    /** What was sealed into the table. */
    ghost var log: set<Sealing>

    ghost function Contents(): Vault
      reads this
    {
      Vault(keyring, temporaries, table, log)
    }

    /** What is on disk is what the writes so far made of the beginning, and each was one a rotation makes. */
    ghost predicate Traced()
      reads this
    {
      IsRotation(cipher, start, trace) && Contents() == ApplyAll(start, trace)
    }

    constructor (cipher: Cipher, keyring: Document, table: seq<Row>, ghost log: set<Sealing>)
      ensures this.cipher == cipher && Contents() == start == Vault(keyring, [], table, log) && trace == [] && Traced()
    {
      this.cipher, this.keyring, this.table, temporaries, trace := cipher, keyring, table, [], [];
      this.log := log;
      start := Vault(keyring, [], table, log);
    }

    method WriteKeyring(document: Document)
      requires Traced() && IsNext(keyring, document)
      modifies this`keyring, this`temporaries, this`trace
      ensures Traced() && keyring == document && temporaries == old(temporaries)
    {
      WriteFile(document);
      RenameFile(document);
    }

    method WriteFile(document: Document)
      requires Traced() && IsNext(keyring, document)
      modifies this`temporaries, this`trace
      ensures Traced() && temporaries == old(temporaries) + [document]
    {
      OneMoreWrite(cipher, start, trace, WriteTemporary(document));
      temporaries, trace := temporaries + [document], trace + [WriteTemporary(document)];
    }

    /** The newest temporary file replaces the keyring. */
    method RenameFile(document: Document)
      requires Traced() && IsNext(keyring, document) && temporaries != [] && temporaries[|temporaries| - 1] == document
      modifies this`keyring, this`temporaries, this`trace
      ensures Traced() && keyring == document && temporaries == old(temporaries[..|temporaries| - 1])
    {
      OneMoreWrite(cipher, start, trace, Rename(document));
      keyring, temporaries, trace := document, temporaries[..|temporaries| - 1], trace + [Rename(document)];
    }

    static method NextVersion(keys: map<nat, Key>) returns (version: nat)
      requires keys.Keys != {}
      ensures version == Highest(keys.Keys) + 1
    {
      var rest := keys.Keys;
      var highest :| highest in rest;
      while rest != {}
        invariant rest <= keys.Keys && highest in keys && forall v :: v in keys && v !in rest ==> v <= highest
        decreases |rest|
      {
        var v :| v in rest;
        highest, rest := if v > highest then v else highest, rest - {v};
      }
      return highest + 1;
    }

    /** The updates of a transaction one by one, before it is committed: the table they lead to and their number. */
    method ResealRows(nonces: Nonces, used: nat, rows: seq<Row>) returns (pending: seq<Row>, affected: Result<nat>, ghost us: seq<Reseal>)
      requires keyring.currentVersion in keyring.keys
      ensures affected.Ok? ==> affected.value == |us| == |rows| && Reseals(cipher, keyring, rows, us) && pending == Update(table, us)
      ensures affected.Err? ==> exists i :: 0 <= i < |rows| && ResealRow(cipher, keyring, nonces(used + i), rows[i]) == Err(affected.error)
    {
      pending := table;
      us := [];
      for i := 0 to |rows|
        invariant i == |us| && pending == Update(table, us) && Reseals(cipher, keyring, rows, us)
      {
        var u := ResealRow(cipher, keyring, nonces(used + i), rows[i]);
        if u.Err? {
          affected := Err(u.error);
          return;
        }
        OneMoreReseal(cipher, keyring, rows, us, nonces(used + i), u.value, table);
        pending := UpdateOne(pending, u.value);
        us := us + [u.value];
      }
      affected := Ok(|rows|);
    }

    /** One transaction: all updates of the batch, or none and the error of a row that cannot be resealed. */
    method ResealBatch(nonces: Nonces, used: nat, rows: seq<Row>) returns (resealed: Result<nat>, ghost us: seq<Reseal>)
      requires Traced() && keyring.currentVersion in keyring.keys && rows == Batch(table, keyring.currentVersion)
      modifies this`table, this`log, this`trace
      ensures Traced()
      ensures resealed.Ok? ==> resealed.value == |rows| && IsBatch(cipher, old(Contents()), us)
      ensures resealed.Ok? ==> Contents() == Apply(old(Contents()), Commit(us)) && trace == old(trace) + [Commit(us)]
      ensures resealed.Err? ==> Contents() == old(Contents()) && trace == old(trace)
      ensures resealed.Err? ==> exists i :: 0 <= i < |rows| && ResealRow(cipher, keyring, nonces(used + i), rows[i]) == Err(resealed.error)
    {
      var pending;
      pending, resealed, us := ResealRows(nonces, used, rows);
      if resealed.Ok? {
        CommitBatch(us, pending);
      }
    }

    method CommitBatch(ghost us: seq<Reseal>, pending: seq<Row>)
      requires Traced() && IsBatch(cipher, Contents(), us) && pending == Update(table, us)
      modifies this`table, this`log, this`trace
      ensures Traced() && Contents() == Apply(old(Contents()), Commit(us)) && trace == old(trace) + [Commit(us)]
    {
      CommitMore(cipher, start, trace, Contents(), us);
      table, log, trace := pending, log + Sealings(us), trace + [Commit(us)];
    }

    /** The batch loop: it ends because every pass leaves fewer stale rows. */
    method ResealAll(nonces: Nonces) returns (reencrypted: Result<nat>)
      requires Traced() && keyring.currentVersion in keyring.keys && UniqueIds(table)
      modifies this`table, this`log, this`trace
      ensures Traced() && UniqueIds(table)
      ensures reencrypted.Ok? ==>
                reencrypted.value == |Stale(old(table), keyring.currentVersion)| && Finished(old(table), table, keyring.currentVersion)
      ensures forall secrets :: Decrypts(cipher, log) && Inv(cipher, old(Contents()), secrets) ==> reencrypted.Ok?
    {
      var count := 0;
      while true
        invariant Traced() && UniqueIds(table) && SameRows(old(table), table) && OthersKept(old(table), table, keyring.currentVersion)
        invariant count == |Stale(old(table), keyring.currentVersion)| - |Stale(table, keyring.currentVersion)|
        invariant forall secrets :: Decrypts(cipher, log) && Inv(cipher, old(Contents()), secrets) ==> Inv(cipher, Contents(), secrets)
        decreases |Stale(table, keyring.currentVersion)|
      {
        var rows := Batch(table, keyring.currentVersion);
        if |rows| == 0 {
          break;
        }
        ghost var before := Contents();
        var resealed, us := ResealBatch(nonces, count, rows);
        if resealed.Err? {
          NotReadable(cipher, before, nonces, count);
          return Err(resealed.error);
        }
        count := count + resealed.value;
        BatchTaken(cipher, before, us);
        StillFresh(old(table), before.table, table, keyring.currentVersion);
        AllCommitsKeep(cipher, before, us);
      }
      return Ok(count);
    }

    /** The number of rows re-encrypted. */
    method RotateTotpKey(key: Key, nonces: Nonces) returns (reencrypted: Result<nat>)
      requires trace == [] && start == Contents() && UniqueIds(table)
      modifies this`keyring, this`temporaries, this`table, this`log, this`trace
      ensures Traced()
      ensures !ValidDocument(old(keyring)) ==> reencrypted == Err("totp_keyring_file_invalid") && trace == []
      ensures ValidDocument(old(keyring)) ==>
                var next := NextDocument(old(keyring), key);
                if next.currentVersion > MAX_SAFE_INTEGER then reencrypted == Err("totp_key_version_exhausted") && trace == []
                else
                  keyring == next && temporaries == old(temporaries)
                  && keyring.keys == old(keyring.keys)[keyring.currentVersion := key]
                  && (forall v :: v in old(keyring.keys) ==> v < keyring.currentVersion) && keyring.currentVersion - 1 in old(keyring.keys)
                  && (reencrypted.Ok? ==> reencrypted.value == |Stale(old(table), next.currentVersion)| && Finished(old(table), table, next.currentVersion))
                  && forall secrets :: Decrypts(cipher, log) && Inv(cipher, old(Contents()), secrets) ==> reencrypted.Ok?
    {
      if !ValidDocument(keyring) {
        return Err("totp_keyring_file_invalid");
      }
      var version := NextVersion(keyring.keys);
      if version > MAX_SAFE_INTEGER {
        return Err("totp_key_version_exhausted");
      }
      var next := Document(version, keyring.keys[version := key]);
      NextExtends(keyring, key);
      NextReadable(cipher, Contents(), next);
      WriteKeyring(next);
      reencrypted := ResealAll(nonces);
    }
  }

  lemma CommitMore(c: Cipher, start: Vault, trace: seq<Write>, v: Vault, us: seq<Reseal>)
    requires IsRotation(c, start, trace) && v == ApplyAll(start, trace) && IsBatch(c, v, us)
    ensures IsRotation(c, start, trace + [Commit(us)])
    ensures ApplyAll(start, trace + [Commit(us)]) == Apply(v, Commit(us)) == v.(table := Update(v.table, us), log := v.log + Sealings(us))
  {
    OneMoreWrite(c, start, trace, Commit(us));
  }

  lemma NotReadable(c: Cipher, v: Vault, nonces: Nonces, used: nat)
    requires v.keyring.currentVersion in v.keyring.keys
    requires exists i :: 0 <= i < |Batch(v.table, v.keyring.currentVersion)|
                         && ResealRow(c, v.keyring, nonces(used + i), Batch(v.table, v.keyring.currentVersion)[i]).Err?
    ensures forall secrets :: !(Decrypts(c, v.log) && Inv(c, v, secrets))
  {
    var i :| 0 <= i < |Batch(v.table, v.keyring.currentVersion)|
             && ResealRow(c, v.keyring, nonces(used + i), Batch(v.table, v.keyring.currentVersion)[i]).Err?;
    forall secrets ensures !(Decrypts(c, v.log) && Inv(c, v, secrets)) {
      if Decrypts(c, v.log) && Inv(c, v, secrets) {
        BatchNeverFails(c, v, secrets, nonces(used + i), i);
      }
    }
  }

  lemma AllCommitsKeep(c: Cipher, v: Vault, us: seq<Reseal>)
    requires IsBatch(c, v, us)
    ensures forall secrets :: Decrypts(c, v.log) && Inv(c, v, secrets) ==> Inv(c, Apply(v, Commit(us)), secrets)
  {
    forall secrets | Decrypts(c, v.log) && Inv(c, v, secrets) ensures Inv(c, Apply(v, Commit(us)), secrets) {
      CommitKeeps(c, v, secrets, us);
    }
  }

  lemma NextReadable(c: Cipher, v: Vault, next: Document)
    requires ValidDocument(next) && Extends(v.keyring.keys, next.keys)
    ensures forall secrets :: Inv(c, v, secrets) ==> Inv(c, v.(keyring := next), secrets)
  {
    forall secrets | Inv(c, v, secrets) ensures Inv(c, v.(keyring := next), secrets) {
      MoreHeld(c, v.keyring.keys, next.keys, v.log, v.log, v.table, secrets);
    }
  }

  /** The updates for the first rows. */
  ghost predicate Reseals(c: Cipher, d: Document, rows: seq<Row>, us: seq<Reseal>) {
    d.currentVersion in d.keys && |us| <= |rows|
    && forall k :: 0 <= k < |us| ==> ResealRow(c, d, us[k].sealed.nonce, rows[k]) == Ok(us[k])
  }

  lemma OneMoreReseal(c: Cipher, d: Document, rows: seq<Row>, us: seq<Reseal>, nonce: Bytes, u: Reseal, table: seq<Row>)
    requires Reseals(c, d, rows, us) && |us| < |rows| && ResealRow(c, d, nonce, rows[|us|]) == Ok(u)
    ensures Reseals(c, d, rows, us + [u]) && Update(table, us + [u]) == UpdateOne(Update(table, us), u)
  {
    assert (us + [u])[..|us|] == us;
  }
}
