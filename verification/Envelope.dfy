/** Encrypted checkpoint records (crates/spike-platform/src/envelope.rs). */
module Envelope {
  import opened Prelude
  import opened Strings

  const AUTHENTICATION_TAG_BYTES: nat := 16
  const MAX_CIPHERTEXT_BYTES: nat := 16 * 1024
  const MAX_PLAINTEXT_BYTES: nat := MAX_CIPHERTEXT_BYTES - AUTHENTICATION_TAG_BYTES
  const MASTER_KEY_SERVICE: string := "com.ovayra.desktop"

  /** AES-256-GCM as an authenticated-encryption pair, section 5.2 of RFC 5116:
      functions of key, nonce, associated data and message. */
  datatype Aead = Aead(
    encrypt: (seq<byte>, seq<byte>, seq<byte>, seq<byte>) -> seq<byte>,
    decrypt: (seq<byte>, seq<byte>, seq<byte>, seq<byte>) -> Option<seq<byte>>)

  ghost predicate IsAead(aead: Aead) {
    && (forall key, nonce, data, message :: Inverts(aead, key, nonce, data, message))
    && (forall key, nonce, data, sealed :: Authenticates(aead, key, nonce, data, sealed))
  }

  ghost predicate Inverts(aead: Aead, key: seq<byte>, nonce: seq<byte>, data: seq<byte>, message: seq<byte>) {
    var sealed := aead.encrypt(key, nonce, data, message);
    |sealed| == |message| + AUTHENTICATION_TAG_BYTES && aead.decrypt(key, nonce, data, sealed) == Some(message)
  }

  /** Only what was encrypted under the same key, nonce and data is decrypted. */
  ghost predicate Authenticates(aead: Aead, key: seq<byte>, nonce: seq<byte>, data: seq<byte>, sealed: seq<byte>) {
    var message := aead.decrypt(key, nonce, data, sealed);
    message.Some? ==> sealed == aead.encrypt(key, nonce, data, message.value)
  }

  datatype EncryptedRecord = EncryptedRecord(version: byte, nonce: seq<byte>, ciphertext: seq<byte>)

  datatype EnvelopeError =
    | SecretStoreFailed
    | InvalidKeyLength
    | UnsupportedVersion
    | InvalidNonce
    | RecordTooLarge
    | Authentication

  /** `seal`, with the fresh nonce as an argument. */
  function Seal(aead: Aead, key: seq<byte>, nonce: seq<byte>, plaintext: seq<byte>,
                data: seq<byte>): Result<EncryptedRecord, EnvelopeError>
  {
    if |plaintext| > MAX_PLAINTEXT_BYTES then Err(RecordTooLarge)
    else
      var ciphertext := aead.encrypt(key, nonce, data, plaintext);
      if |ciphertext| > MAX_CIPHERTEXT_BYTES then Err(RecordTooLarge)
      else Ok(EncryptedRecord(1, nonce, ciphertext))
  }

  /** `open`. */
  function Open(aead: Aead, key: seq<byte>, record: EncryptedRecord, data: seq<byte>): Result<seq<byte>, EnvelopeError>
  {
    if record.version != 1 then Err(UnsupportedVersion)
    else if |record.nonce| != 12 then Err(InvalidNonce)
    else if |record.ciphertext| > MAX_CIPHERTEXT_BYTES then Err(RecordTooLarge)
    else match aead.decrypt(key, record.nonce, data, record.ciphertext)
      case Some(plaintext) => Ok(plaintext)
      case None => Err(Authentication)
  }

  /** Sealing fails exactly for plaintexts over the limit, the second size check never
      fires, and whatever was sealed opens again under the same key and data. */
  lemma SealedRecordsOpen(aead: Aead, key: seq<byte>, nonce: seq<byte>, plaintext: seq<byte>, data: seq<byte>)
    requires IsAead(aead) && |nonce| == 12
    ensures Seal(aead, key, nonce, plaintext, data).Ok? <==> |plaintext| <= MAX_PLAINTEXT_BYTES
    ensures Seal(aead, key, nonce, plaintext, data).Ok? ==>
              Open(aead, key, Seal(aead, key, nonce, plaintext, data).value, data) == Ok(plaintext)
  {
    assert Inverts(aead, key, nonce, data, plaintext);
  }

  /** Opening gives a plaintext exactly for the record that sealing makes of it: records of
      another version, size or nonce length, and any that were altered, are refused. */
  lemma OpensOnlySealed(aead: Aead, key: seq<byte>, record: EncryptedRecord, data: seq<byte>, plaintext: seq<byte>)
    requires IsAead(aead)
    ensures Open(aead, key, record, data) == Ok(plaintext) <==>
            |record.nonce| == 12 && Seal(aead, key, record.nonce, plaintext, data) == Ok(record)
  {
    assert Inverts(aead, key, record.nonce, data, plaintext);
    assert Authenticates(aead, key, record.nonce, data, record.ciphertext);
    hide IsAead;
  }

  // ---- the key in the secret store --------------------------------------------------

  class SecretStore {
    var entries: map<(string, string), seq<byte>>

    constructor ()
      ensures entries == map[]
    {
      entries := map[];
    }
  }

  /** `load_or_create`: the stored key if there is one, otherwise a fresh one that is
      stored first. Once it has succeeded, a later process gets the same key. */
  method LoadOrCreate(store: SecretStore, account: string, random: seq<byte>, getFails: bool, setFails: bool)
    returns (r: Result<seq<byte>, EnvelopeError>)
    requires |random| == 32
    modifies store
    ensures r.Ok? ==> |r.value| == 32 && store.entries == old(store.entries)[(MASTER_KEY_SERVICE, account) := r.value]
    ensures r.Err? ==> store.entries == old(store.entries)
    ensures (MASTER_KEY_SERVICE, account) in old(store.entries) ==>
              && store.entries == old(store.entries)
              && (r.Ok? ==> r.value == old(store.entries)[(MASTER_KEY_SERVICE, account)])
    ensures r.Ok? <==> !getFails && if (MASTER_KEY_SERVICE, account) in old(store.entries)
                                    then |old(store.entries)[(MASTER_KEY_SERVICE, account)]| == 32
                                    else !setFails
    ensures (MASTER_KEY_SERVICE, account) !in old(store.entries) && r.Ok? ==> r.value == random
    ensures r.Err? ==> r.error == if !getFails && (MASTER_KEY_SERVICE, account) in old(store.entries)
                                  then InvalidKeyLength else SecretStoreFailed
  {
    if getFails {
      return Err(SecretStoreFailed);
    }
    if (MASTER_KEY_SERVICE, account) in store.entries {
      var key := store.entries[(MASTER_KEY_SERVICE, account)];
      if |key| != 32 {
        return Err(InvalidKeyLength);
      }
      return Ok(key);
    }
    if setFails {
      return Err(SecretStoreFailed);
    }
    store.entries := store.entries[(MASTER_KEY_SERVICE, account) := random];
    return Ok(random);
  }

  // ---- the record as text --------------------------------------------------------------

  function Digit(n: nat): char
    requires n < 10
  {
    ['0', '1', '2', '3', '4', '5', '6', '7', '8', '9'][n]
  }

  function Decimal(n: nat): string {
    if n < 10 then [Digit(n)] else Decimal(n / 10) + [Digit(n % 10)]
  }

  /** The items of a pretty-printed JSON array of bytes, one on a line. */
  function Items(bytes: seq<byte>): string {
    if bytes == [] then ""
    else "\n    " + Decimal(bytes[0]) + (if |bytes| == 1 then "" else ",") + Items(bytes[1..])
  }

  function PrintBytes(bytes: seq<byte>): string {
    if bytes == [] then "[]" else "[" + Items(bytes) + "\n  ]"
  }

  /** The checkpoint file: `serde_json::to_string_pretty` of the record. */
  function Print(record: EncryptedRecord): string {
    "{\n  \"version\": " + Decimal(record.version)
    + ",\n  \"nonce\": " + PrintBytes(record.nonce)
    + ",\n  \"ciphertext\": " + PrintBytes(record.ciphertext) + "\n}"
  }

  /** What the stage command checks before it claims that no plaintext is visible. */
  predicate PlaintextAbsent(text: string) {
    !Contains(text, "http") && !Contains(text, "api_key")
  }

  /** No underscore, no two adjacent letters t, and no t at either end. */
  ghost predicate Plain(text: string) {
    && (forall i :: 0 <= i < |text| ==> text[i] != '_')
    && (forall i, j :: 0 <= i && j == i + 1 < |text| ==> !(text[i] == 't' && text[j] == 't'))
    && (text != [] ==> text[0] != 't' && text[|text| - 1] != 't')
  }

  lemma PlainAppend(a: string, b: string)
    requires Plain(a) && Plain(b)
    ensures Plain(a + b)
  {
  }

  lemma {:induction false} DecimalIsPlain(n: nat)
    ensures Plain(Decimal(n)) && Decimal(n) != ""
  {
    if n >= 10 {
      DecimalIsPlain(n / 10);
      PlainAppend(Decimal(n / 10), [Digit(n % 10)]);
    }
  }

  lemma {:induction false} ItemsArePlain(bytes: seq<byte>)
    ensures Plain(Items(bytes))
  {
    if bytes != [] {
      DecimalIsPlain(bytes[0]);
      ItemsArePlain(bytes[1..]);
      hide Plain;
      PlainAppend("\n    ", Decimal(bytes[0])) by { PlainPieces(); }
      var comma := if |bytes| == 1 then "" else ",";
      PlainAppend("\n    " + Decimal(bytes[0]), comma) by { PlainPieces(); }
      PlainAppend("\n    " + Decimal(bytes[0]) + comma, Items(bytes[1..]));
    } else {
      PlainPieces();
    }
  }

  lemma PlainPieces()
    ensures Plain("") && Plain(",") && Plain("\n    ") && Plain("[]") && Plain("[") && Plain("\n  ]") && Plain("\n}")
    ensures Plain("{\n  \"version\": ") && Plain(",\n  \"nonce\": ") && Plain(",\n  \"ciphertext\": ")
  {
  }

  lemma PrintBytesIsPlain(bytes: seq<byte>)
    ensures Plain(PrintBytes(bytes))
  {
    PlainPieces();
    ItemsArePlain(bytes);
    hide Plain;
    PlainAppend("[", Items(bytes));
    PlainAppend("[" + Items(bytes), "\n  ]");
  }

  /** Whatever the key, the nonce and the plaintext, the file the stage command writes
      shows neither a URL nor the name of the API key: the check always passes. */
  lemma CheckpointFileHidesPlaintext(record: EncryptedRecord)
    ensures PlaintextAbsent(Print(record))
  {
    hide Plain;
    PlainPieces();
    DecimalIsPlain(record.version);
    PrintBytesIsPlain(record.nonce);
    PrintBytesIsPlain(record.ciphertext);
    var a := "{\n  \"version\": " + Decimal(record.version);
    PlainAppend("{\n  \"version\": ", Decimal(record.version));
    PlainAppend(a, ",\n  \"nonce\": ");
    PlainAppend(a + ",\n  \"nonce\": ", PrintBytes(record.nonce));
    var b := a + ",\n  \"nonce\": " + PrintBytes(record.nonce);
    PlainAppend(b, ",\n  \"ciphertext\": ");
    PlainAppend(b + ",\n  \"ciphertext\": ", PrintBytes(record.ciphertext));
    PlainAppend(b + ",\n  \"ciphertext\": " + PrintBytes(record.ciphertext), "\n}");
    PlainTextIsHidden(Print(record));
  }

  lemma PlainTextIsHidden(text: string)
    requires Plain(text)
    ensures PlaintextAbsent(text)
  {
    assert "http"[1] == 't' && "http"[2] == 't' && "api_key"[3] == '_';
    forall i: nat ensures !OccursAt("http", text, i) && !OccursAt("api_key", text, i) {
      if i + 4 <= |text| {
        assert text[i..i + 4][1] == text[i + 1] && text[i..i + 4][2] == text[i + 2];
      }
      if i + 7 <= |text| {
        assert text[i..i + 7][3] == text[i + 3];
      }
    }
  }
}
