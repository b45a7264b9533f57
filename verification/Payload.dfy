/**
  Payloads on their way to the server and back: encrypted columns are sealed one by one and the user id is
  written over; on the way back the same columns are opened. The cipher and its nonces are parameters.
 */
module Payload {
  import opened Wrappers

  datatype Value = Str(text: string) | Other(json: string)

  type Record = map<string, Value>

  datatype Column = Column(canonicalName: string, localName: string, remoteName: Option<string>, encrypted: bool)
  {
    function EffectiveRemoteName(): string { if remoteName.Some? then remoteName.value else canonicalName }
  }

  datatype EntityConfig = EntityConfig(columns: seq<Column>, includeUserId: bool, userIdColumn: Option<string>)

  // ---------------------------------------------------------------- what the cipher is assumed to do

  const PREFIX := "enc:"

  predicate IsEncrypted(text: string) { |text| >= 4 && text[..4] == PREFIX }

  /** Each encryption draws a fresh nonce; both directions may fail. */
  datatype Cipher = Cipher(encrypt: (nat, string) -> Option<string>, decrypt: string -> Option<string>)

  ghost predicate SealsAndOpens(cipher: Cipher) {
    forall nonce, text :: cipher.encrypt(nonce, text).Some? && text != "" ==>
      && IsEncrypted(cipher.encrypt(nonce, text).value)
      && cipher.decrypt(cipher.encrypt(nonce, text).value) == Some(text)
  }

  /** The text that is stored is always longer than the text it hides. */
  ghost predicate Shortens(cipher: Cipher) {
    forall text :: IsEncrypted(text) && cipher.decrypt(text).Some? ==> |cipher.decrypt(text).value| < |text|
  }

  ghost predicate Sound(cipher: Cipher) {
    && SealsAndOpens(cipher) && Shortens(cipher)
    && forall nonce :: cipher.encrypt(nonce, "") == Some("")
  }

  /** A stand-in that only tags its texts, to show that these assumptions can be met. */
  function Tagging(): Cipher {
    Cipher((nonce: nat, text: string) => if text == "" then Some("") else Some(PREFIX + text),
           (text: string) => if IsEncrypted(text) then Some(text[4..]) else None)
  }

  lemma TaggingIsSound()
    ensures Sound(Tagging())
  {
    forall nonce: nat, text | text != ""
      ensures IsEncrypted(Tagging().encrypt(nonce, text).value)
      ensures Tagging().decrypt(Tagging().encrypt(nonce, text).value) == Some(text)
    {
      assert (PREFIX + text)[..4] == PREFIX && (PREFIX + text)[4..] == text;
    }
  }

  // ---------------------------------------------------------------- sealing

  function SealColumn(column: Column, nonce: nat, cipher: Cipher, record: Record): Option<Record> {
    var key := column.EffectiveRemoteName();
    if !column.encrypted || key !in record || !record[key].Str? || IsEncrypted(record[key].text) then Some(record)
    else
      match cipher.encrypt(nonce, record[key].text)
      case None => None
      case Some(sealed) => Some(record[key := Str(sealed)])
  }

  function Seal(columns: seq<Column>, nonce: nat, cipher: Cipher, record: Record): Option<Record> {
    if columns == [] then Some(record)
    else
      match SealColumn(columns[0], nonce, cipher, record)
      case None => None
      case Some(next) => Seal(columns[1..], nonce + 1, cipher, next)
  }

  function WithUser(config: EntityConfig, userId: string, record: Record): Record {
    if config.includeUserId && config.userIdColumn.Some? then record[config.userIdColumn.value := Str(userId)]
    else record
  }

  function Serialized(config: EntityConfig, cipher: Option<Cipher>, nonce: nat, userId: string, record: Record)
    : Option<Record>
  {
    if cipher.None? then Some(WithUser(config, userId, record))
    else
      match Seal(config.columns, nonce, cipher.value, record)
      case None => None
      case Some(sealed) => Some(WithUser(config, userId, sealed))
  }

  method SerializeForRemote(config: EntityConfig, cipher: Option<Cipher>, nonce: nat, userId: string, payload: Record)
    returns (result: Option<Record>)
    ensures result == Serialized(config, cipher, nonce, userId, payload)
  {
    var serialized := payload;
    if cipher.Some? {
      for i := 0 to |config.columns|
        invariant Seal(config.columns, nonce, cipher.value, payload)
               == Seal(config.columns[i..], nonce + i, cipher.value, serialized)
      {
        var column := config.columns[i];
        assert config.columns[i..][0] == column && config.columns[i..][1..] == config.columns[i + 1..];
        if !column.encrypted {
          continue;
        }
        var key := column.EffectiveRemoteName();
        if key !in serialized || !serialized[key].Str? || IsEncrypted(serialized[key].text) {
          continue;
        }
        var encrypted := cipher.value.encrypt(nonce + i, serialized[key].text);
        if encrypted.None? {
          return None;
        }
        serialized := serialized[key := Str(encrypted.value)];
      }
    }
    if config.includeUserId && config.userIdColumn.Some? {
      serialized := serialized[config.userIdColumn.value := Str(userId)];
    }
    return Some(serialized);
  }

  // ---------------------------------------------------------------- opening

  /** The record as the loop leaves it, and whether it got through: a failure keeps what was opened before. */
  function Opened(columns: seq<Column>, cipher: Cipher, record: Record): (Record, bool) {
    if columns == [] then (record, true)
    else
      var key := columns[0].EffectiveRemoteName();
      if columns[0].encrypted && key in record && record[key].Str? && IsEncrypted(record[key].text) then
        match cipher.decrypt(record[key].text)
        case None => (record, false)
        case Some(plain) => Opened(columns[1..], cipher, record[key := Str(plain)])
      else Opened(columns[1..], cipher, record)
  }

  class RemoteRow {
    var fields: Record

    constructor (fields: Record)
      ensures this.fields == fields
    {
      this.fields := fields;
    }

    method DecryptColumns(columns: seq<Column>, cipher: Cipher) returns (ok: bool)
      modifies this`fields
      ensures (fields, ok) == Opened(columns, cipher, old(fields))
    {
      for i := 0 to |columns|
        invariant Opened(columns, cipher, old(fields)) == Opened(columns[i..], cipher, fields)
      {
        assert columns[i..][0] == columns[i] && columns[i..][1..] == columns[i + 1..];
        if !columns[i].encrypted {
          continue;
        }
        var key := columns[i].EffectiveRemoteName();
        if key in fields && fields[key].Str? && IsEncrypted(fields[key].text) {
          var plain := cipher.decrypt(fields[key].text);
          if plain.None? {
            return false;
          }
          fields := fields[key := Str(plain.value)];
        }
      }
      return true;
    }
  }

  // ---------------------------------------------------------------- what sealing does to one field

  ghost predicate Secret(columns: seq<Column>, key: string) {
    exists i :: 0 <= i < |columns| && columns[i].encrypted && columns[i].EffectiveRemoteName() == key
  }

  lemma SecretStep(columns: seq<Column>, key: string)
    requires columns != []
    ensures Secret(columns, key)
            <==> (columns[0].encrypted && columns[0].EffectiveRemoteName() == key) || Secret(columns[1..], key)
  {
    if Secret(columns[1..], key) {
      var i :| 0 <= i < |columns[1..]| && columns[1..][i].encrypted && columns[1..][i].EffectiveRemoteName() == key;
      assert columns[i + 1] == columns[1..][i];
    }
    if Secret(columns, key) {
      var i :| 0 <= i < |columns| && columns[i].encrypted && columns[i].EffectiveRemoteName() == key;
      assert i > 0 ==> columns[1..][i - 1] == columns[i];
    }
  }

  predicate NeedsSealing(v: Value) { v.Str? && v.text != "" && !IsEncrypted(v.text) }

  /** A field that needs it is replaced by one ciphertext of its text, every other field is kept. */
  ghost predicate SealedField(columns: seq<Column>, cipher: Cipher, key: string, before: Value, after: Value) {
    if Secret(columns, key) && NeedsSealing(before)
    then after.Str? && IsEncrypted(after.text) && cipher.decrypt(after.text) == Some(before.text)
    else after == before
  }

  lemma SealColumnKeepsKeys(column: Column, nonce: nat, cipher: Cipher, record: Record)
    requires Sound(cipher)
    requires SealColumn(column, nonce, cipher, record).Some?
    ensures var next := SealColumn(column, nonce, cipher, record).value;
            next.Keys == record.Keys
            && forall key :: key in record ==> SealedField([column], cipher, key, record[key], next[key])
  {
    var next := SealColumn(column, nonce, cipher, record).value;
    forall key | key in record ensures SealedField([column], cipher, key, record[key], next[key]) {
      SecretStep([column], key);
    }
  }

  lemma {:induction false} SealSealsEachField(columns: seq<Column>, nonce: nat, cipher: Cipher, record: Record)
    requires Sound(cipher)
    requires Seal(columns, nonce, cipher, record).Some?
    ensures var sealed := Seal(columns, nonce, cipher, record).value;
            sealed.Keys == record.Keys
            && forall key :: key in record ==> SealedField(columns, cipher, key, record[key], sealed[key])
  {
    if columns != [] {
      var next := SealColumn(columns[0], nonce, cipher, record).value;
      var sealed := Seal(columns, nonce, cipher, record).value;
      SealColumnKeepsKeys(columns[0], nonce, cipher, record);
      SealSealsEachField(columns[1..], nonce + 1, cipher, next);
      forall key | key in record ensures SealedField(columns, cipher, key, record[key], sealed[key]) {
        SecretStep(columns, key);
        SecretStep([columns[0]], key);
        assert SealedField([columns[0]], cipher, key, record[key], next[key]);
        assert SealedField(columns[1..], cipher, key, next[key], sealed[key]);
      }
    }
  }

  // ---------------------------------------------------------------- serializing again changes nothing

  ghost predicate NothingToSeal(columns: seq<Column>, record: Record) {
    forall key :: key in record && Secret(columns, key) ==> !NeedsSealing(record[key])
  }

  lemma SealColumnIsIdle(column: Column, nonce: nat, cipher: Cipher, record: Record)
    requires Sound(cipher)
    requires column.encrypted && column.EffectiveRemoteName() in record ==>
               !NeedsSealing(record[column.EffectiveRemoteName()])
    ensures SealColumn(column, nonce, cipher, record) == Some(record)
  {
    var key := column.EffectiveRemoteName();
    if key in record {
      assert record[key := record[key]] == record;
    }
  }

  lemma {:induction false} SealedStaysPut(columns: seq<Column>, nonce: nat, cipher: Cipher, record: Record)
    requires Sound(cipher) && NothingToSeal(columns, record)
    ensures Seal(columns, nonce, cipher, record) == Some(record)
  {
    if columns != [] {
      forall key ensures Secret(columns[1..], key) ==> Secret(columns, key) {
        SecretStep(columns, key);
      }
      SecretStep(columns, columns[0].EffectiveRemoteName());
      SealColumnIsIdle(columns[0], nonce, cipher, record);
      SealedStaysPut(columns[1..], nonce + 1, cipher, record);
    }
  }

  ghost predicate UserColumnIsSecret(config: EntityConfig) {
    config.includeUserId && config.userIdColumn.Some? && Secret(config.columns, config.userIdColumn.value)
  }

  /**
    Serializing a serialized payload gives it back, whatever its columns are called and whichever nonces are
    drawn. The second pass can only fail on a user id column that is itself flagged encrypted.
   */
  lemma SerializingTwiceIsSerializingOnce(config: EntityConfig, cipher: Option<Cipher>, nonce: nat, again: nat,
                                          userId: string, payload: Record)
    requires cipher.Some? ==> Sound(cipher.value)
    requires Serialized(config, cipher, nonce, userId, payload).Some?
    ensures var once := Serialized(config, cipher, nonce, userId, payload);
            var twice := Serialized(config, cipher, again, userId, once.value);
            twice == once || (twice.None? && UserColumnIsSecret(config))
  {
    var plain := WithUser(config, userId, payload);
    assert WithUser(config, userId, plain) == plain;
    if cipher.Some? {
      var sealed := Seal(config.columns, nonce, cipher.value, payload).value;
      var once := WithUser(config, userId, sealed);
      SealSealsEachField(config.columns, nonce, cipher.value, payload);
      assert NothingToSeal(config.columns, sealed) by {
        forall key | key in sealed && Secret(config.columns, key) ensures !NeedsSealing(sealed[key]) {
          assert SealedField(config.columns, cipher.value, key, payload[key], sealed[key]);
        }
      }
      if !UserColumnIsSecret(config) {
        SealedStaysPut(config.columns, again, cipher.value, once);
        assert WithUser(config, userId, once) == once;
      } else if Seal(config.columns, again, cipher.value, once).Some? {
        SealedAgain(config, cipher.value, again, userId, sealed);
      }
    }
  }

  lemma SealedAgain(config: EntityConfig, cipher: Cipher, again: nat, userId: string, sealed: Record)
    requires Sound(cipher) && NothingToSeal(config.columns, sealed)
    requires Seal(config.columns, again, cipher, WithUser(config, userId, sealed)).Some?
    ensures var once := WithUser(config, userId, sealed);
            WithUser(config, userId, Seal(config.columns, again, cipher, once).value) == once
  {
    var once := WithUser(config, userId, sealed);
    var twice := Seal(config.columns, again, cipher, once).value;
    SealSealsEachField(config.columns, again, cipher, once);
    forall key | key in once ensures WithUser(config, userId, twice)[key] == once[key] {
      assert SealedField(config.columns, cipher, key, once[key], twice[key]);
    }
  }

  // ---------------------------------------------------------------- opening what was sealed

  ghost predicate NothingPosesAsCiphertext(columns: seq<Column>, record: Record) {
    forall key :: key in record && Secret(columns, key) && record[key].Str? ==> !IsEncrypted(record[key].text)
  }

  /** Opening only ever shortens, and shortens every encrypted column that holds ciphertext. */
  lemma {:induction false} OpeningShortens(columns: seq<Column>, cipher: Cipher, record: Record, key: string)
    requires Sound(cipher) && Opened(columns, cipher, record).1 && key in record
    ensures var after := Opened(columns, cipher, record).0;
            && key in after
            && (after[key] != record[key] ==>
                  record[key].Str? && after[key].Str? && |after[key].text| < |record[key].text|)
            && (Secret(columns, key) && record[key].Str? && IsEncrypted(record[key].text) ==> after[key] != record[key])
  {
    if columns != [] {
      SecretStep(columns, key);
      var here := columns[0].EffectiveRemoteName();
      if columns[0].encrypted && here in record && record[here].Str? && IsEncrypted(record[here].text) {
        OpeningShortens(columns[1..], cipher, record[here := Str(cipher.decrypt(record[here].text).value)], key);
      } else {
        OpeningShortens(columns[1..], cipher, record, key);
      }
    }
  }

  /** The plain record behind a sealed one: each encrypted column is either plain already or opens to it. */
  ghost predicate Hides(columns: seq<Column>, cipher: Cipher, sealed: Record, plain: Record) {
    && sealed.Keys == plain.Keys
    && (forall key :: key in plain && sealed[key] != plain[key] ==>
          && Secret(columns, key) && plain[key].Str? && sealed[key].Str? && IsEncrypted(sealed[key].text)
          && cipher.decrypt(sealed[key].text) == Some(plain[key].text))
  }

  lemma HidesOneLess(columns: seq<Column>, cipher: Cipher, sealed: Record, plain: Record)
    requires columns != [] && Hides(columns, cipher, sealed, plain) && NothingPosesAsCiphertext(columns, plain)
    ensures var key := columns[0].EffectiveRemoteName();
            if columns[0].encrypted && key in sealed && sealed[key].Str? && IsEncrypted(sealed[key].text)
            then cipher.decrypt(sealed[key].text).Some?
                 && Hides(columns[1..], cipher, sealed[key := Str(cipher.decrypt(sealed[key].text).value)], plain)
            else Hides(columns[1..], cipher, sealed, plain)
    ensures NothingPosesAsCiphertext(columns[1..], plain)
  {
    forall key ensures Secret(columns, key)
        <==> (columns[0].encrypted && columns[0].EffectiveRemoteName() == key) || Secret(columns[1..], key) {
      SecretStep(columns, key);
    }
  }

  lemma {:induction false} OpeningReveals(columns: seq<Column>, cipher: Cipher, sealed: Record, plain: Record)
    requires Hides(columns, cipher, sealed, plain) && NothingPosesAsCiphertext(columns, plain)
    ensures Opened(columns, cipher, sealed) == (plain, true)
  {
    if columns == [] {
      assert sealed == plain;
    } else {
      HidesOneLess(columns, cipher, sealed, plain);
      var key := columns[0].EffectiveRemoteName();
      if columns[0].encrypted && key in sealed && sealed[key].Str? && IsEncrypted(sealed[key].text) {
        OpeningReveals(columns[1..], cipher, sealed[key := Str(cipher.decrypt(sealed[key].text).value)], plain);
      } else {
        OpeningReveals(columns[1..], cipher, sealed, plain);
      }
    }
  }

  /**
    Decrypting what was serialized gives back the payload with the user id in it, exactly when no encrypted
    column of that record held a text that already looks like ciphertext.
   */
  lemma DecryptingRestoresIff(config: EntityConfig, cipher: Cipher, nonce: nat, userId: string, payload: Record)
    requires Sound(cipher) && Serialized(config, Some(cipher), nonce, userId, payload).Some?
    ensures var sent := Serialized(config, Some(cipher), nonce, userId, payload).value;
            var meant := WithUser(config, userId, payload);
            Opened(config.columns, cipher, sent) == (meant, true) <==> NothingPosesAsCiphertext(config.columns, meant)
  {
    var sealed := Seal(config.columns, nonce, cipher, payload).value;
    var sent, meant := WithUser(config, userId, sealed), WithUser(config, userId, payload);
    SealSealsEachField(config.columns, nonce, cipher, payload);
    forall key | key in meant
      ensures sent[key] == meant[key] || SealedField(config.columns, cipher, key, meant[key], sent[key])
    {
      if sent[key] != meant[key] {
        assert SealedField(config.columns, cipher, key, payload[key], sealed[key]);
      }
    }
    if NothingPosesAsCiphertext(config.columns, meant) {
      OpeningReveals(config.columns, cipher, sent, meant);
    }
    if Opened(config.columns, cipher, sent) == (meant, true) {
      forall key | key in meant && Secret(config.columns, key) && meant[key].Str?
        ensures !IsEncrypted(meant[key].text)
      {
        OpeningShortens(config.columns, cipher, sent, key);
      }
    }
  }

  // ---------------------------------------------------------------- local and remote column names

  function MapRemoteToLocal(columns: seq<Column>, remote: Record): Record {
    if columns == [] then map[]
    else
      var c := columns[|columns| - 1];
      var local := MapRemoteToLocal(columns[..|columns| - 1], remote);
      if c.remoteName.Some? && c.remoteName.value in remote
      then local[c.localName := remote[c.remoteName.value]]
      else local
  }

  function MapLocalToRemote(columns: seq<Column>, local: Record): Record {
    if columns == [] then map[]
    else
      var c := columns[|columns| - 1];
      var remote := MapLocalToRemote(columns[..|columns| - 1], local);
      if c.remoteName.Some? && c.localName in local then remote[c.remoteName.value := local[c.localName]] else remote
  }

  method RemoteToLocal(columns: seq<Column>, remote: Record) returns (local: Record)
    ensures local == MapRemoteToLocal(columns, remote)
  {
    local := map[];
    for i := 0 to |columns|
      invariant local == MapRemoteToLocal(columns[..i], remote)
    {
      assert columns[..i + 1][..i] == columns[..i];
      if columns[i].remoteName.Some? && columns[i].remoteName.value in remote {
        local := local[columns[i].localName := remote[columns[i].remoteName.value]];
      }
    }
    assert columns[..|columns|] == columns;
  }

  method LocalToRemote(columns: seq<Column>, local: Record) returns (remote: Record)
    ensures remote == MapLocalToRemote(columns, local)
  {
    remote := map[];
    for i := 0 to |columns|
      invariant remote == MapLocalToRemote(columns[..i], local)
    {
      assert columns[..i + 1][..i] == columns[..i];
      if columns[i].remoteName.Some? && columns[i].localName in local {
        remote := remote[columns[i].remoteName.value := local[columns[i].localName]];
      }
    }
    assert columns[..|columns|] == columns;
  }

  predicate Synced(columns: seq<Column>, local: string, remote: string) {
    exists i :: 0 <= i < |columns| && columns[i].localName == local && columns[i].remoteName == Some(remote)
  }

  /** No local name stands for two remote ones. */
  ghost predicate LocalNamesDetermineRemote(columns: seq<Column>) {
    forall l, r, s :: Synced(columns, l, r) && Synced(columns, l, s) ==> r == s
  }

  lemma SyncedStep(columns: seq<Column>, local: string, remote: string)
    requires columns != []
    ensures var n := |columns| - 1;
            Synced(columns, local, remote)
            <==> (columns[n].localName == local && columns[n].remoteName == Some(remote))
                 || Synced(columns[..n], local, remote)
  {
    var n := |columns| - 1;
    if Synced(columns[..n], local, remote) {
      var i :| 0 <= i < n && columns[..n][i].localName == local && columns[..n][i].remoteName == Some(remote);
      assert columns[i].localName == local;
    }
    if Synced(columns, local, remote) {
      var i :| 0 <= i < |columns| && columns[i].localName == local && columns[i].remoteName == Some(remote);
      assert i < n ==> columns[..n][i] == columns[i];
    }
  }

  /** A local field comes from some remote field it stands for, and no registered field is dropped. */
  lemma {:induction false} LocalFields(columns: seq<Column>, remote: Record, l: string)
    ensures var local := MapRemoteToLocal(columns, remote);
            && (l in local ==> exists r :: Synced(columns, l, r) && r in remote && local[l] == remote[r])
            && (forall r :: Synced(columns, l, r) && r in remote ==> l in local)
  {
    if columns != [] {
      var n := |columns| - 1;
      LocalFields(columns[..n], remote, l);
      forall r ensures Synced(columns, l, r)
          <==> (columns[n].localName == l && columns[n].remoteName == Some(r)) || Synced(columns[..n], l, r) {
        SyncedStep(columns, l, r);
      }
    }
  }

  lemma {:induction false} RemoteFields(columns: seq<Column>, local: Record, r: string)
    ensures var remote := MapLocalToRemote(columns, local);
            && (r in remote ==> exists l :: Synced(columns, l, r) && l in local && remote[r] == local[l])
            && (forall l :: Synced(columns, l, r) && l in local ==> r in remote)
  {
    if columns != [] {
      var n := |columns| - 1;
      RemoteFields(columns[..n], local, r);
      forall l ensures Synced(columns, l, r)
          <==> (columns[n].localName == l && columns[n].remoteName == Some(r)) || Synced(columns[..n], l, r) {
        SyncedStep(columns, l, r);
      }
    }
  }

  function RoundTrip(columns: seq<Column>, remote: Record): Record {
    MapLocalToRemote(columns, MapRemoteToLocal(columns, remote))
  }

  /** The round trip keeps the registered fields as they were and drops the others. */
  ghost predicate KeepsRegistered(columns: seq<Column>, remote: Record) {
    var back := RoundTrip(columns, remote);
    forall r :: (r in back <==> r in remote && exists l :: Synced(columns, l, r))
                && (r in back ==> back[r] == remote[r])
  }

  lemma FieldRoundTrips(columns: seq<Column>, remote: Record, r: string)
    requires LocalNamesDetermineRemote(columns)
    ensures var back := RoundTrip(columns, remote);
            (r in back <==> r in remote && exists l :: Synced(columns, l, r)) && (r in back ==> back[r] == remote[r])
  {
    var local := MapRemoteToLocal(columns, remote);
    RemoteFields(columns, local, r);
    forall l | Synced(columns, l, r)
      ensures l in local <==> r in remote
      ensures l in local ==> local[l] == remote[r]
    {
      LocalFields(columns, remote, l);
    }
  }

  /** A row survives the trip through its local names, for every row, exactly when no local name is shared. */
  lemma NamesRoundTripIff(columns: seq<Column>)
    ensures (forall remote :: KeepsRegistered(columns, remote)) <==> LocalNamesDetermineRemote(columns)
  {
    if LocalNamesDetermineRemote(columns) {
      forall remote ensures KeepsRegistered(columns, remote) {
        forall r ensures r in RoundTrip(columns, remote) <==> r in remote && exists l :: Synced(columns, l, r)
          ensures r in RoundTrip(columns, remote) ==> RoundTrip(columns, remote)[r] == remote[r] {
          FieldRoundTrips(columns, remote, r);
        }
      }
    } else {
      var l, r, s :| Synced(columns, l, r) && Synced(columns, l, s) && r != s;
      var remote: Record := map[r := Other("")];
      LocalFields(columns, remote, l);
      RemoteFields(columns, MapRemoteToLocal(columns, remote), s);
      assert s in RoundTrip(columns, remote) && s !in remote;
      assert !KeepsRegistered(columns, remote);
    }
  }
}
