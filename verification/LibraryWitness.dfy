/** The assumptions about the library routines can be met together: some cipher, encoding,
    record parser and digest satisfy them. */
module LibraryWitness {
  import opened Prelude
  import opened Envelope
  import opened UploadSessions

  // ---- a checkpoint file has one reading -----------------------------------------------------

  predicate AllDigits(text: string) { forall i :: 0 <= i < |text| ==> '0' <= text[i] <= '9' }

  predicate NoDigitFirst(text: string) { text != "" && !('0' <= text[0] <= '9') }

  lemma {:induction false} DecimalIsDigits(n: nat)
    ensures AllDigits(Decimal(n)) && Decimal(n) != "" && (|Decimal(n)| >= 2 <==> n >= 10)
    decreases n
  {
    if n >= 10 {
      DecimalIsDigits(n / 10);
    }
  }

  lemma {:induction false} DecimalIsInjective(m: nat, n: nat)
    requires Decimal(m) == Decimal(n)
    ensures m == n
    decreases m
  {
    DecimalIsDigits(m);
    DecimalIsDigits(n);
    if m >= 10 {
      assert Decimal(m) == Decimal(m / 10) + [Digit(m % 10)] && Decimal(n) == Decimal(n / 10) + [Digit(n % 10)];
      hide Decimal, AllDigits, Digit;
      SameFront(Decimal(m / 10), [Digit(m % 10)], Decimal(n / 10), [Digit(n % 10)]);
      DigitIsInjective(m % 10, n % 10);
      DecimalIsInjective(m / 10, n / 10);
    }
  }

  lemma DigitIsInjective(m: nat, n: nat)
    requires m < 10 && n < 10 && [Digit(m)] == [Digit(n)]
    ensures m == n
  {
    assert [Digit(m)][0] == [Digit(n)][0];
  }

  lemma DigitsEnd(a: string, x: string, b: string, y: string)
    requires AllDigits(a) && AllDigits(b) && NoDigitFirst(x) && NoDigitFirst(y) && a + x == b + y
    ensures a == b && x == y
  {
    InFront(a, x);
    InFront(b, y);
    SameFront(a, x, b, y);
  }

  lemma InFront<T>(a: seq<T>, x: seq<T>)
    requires x != []
    ensures (a + x)[|a|] == x[0] && forall i :: 0 <= i < |a| ==> (a + x)[i] == a[i]
  {
  }

  lemma SameFront<T>(a: seq<T>, x: seq<T>, b: seq<T>, y: seq<T>)
    requires |a| == |b| && a + x == b + y
    ensures a == b && x == y
  {
    assert a == (a + x)[..|a|] && b == (b + y)[..|b|];
    assert x == (a + x)[|a|..] && y == (b + y)[|b|..];
  }

  lemma NumberEnds(m: nat, x: string, n: nat, y: string)
    requires NoDigitFirst(x) && NoDigitFirst(y) && Decimal(m) + x == Decimal(n) + y
    ensures m == n && x == y
  {
    DecimalIsDigits(m);
    DecimalIsDigits(n);
    hide Decimal, AllDigits, NoDigitFirst;
    DigitsEnd(Decimal(m), x, Decimal(n), y);
    DecimalIsInjective(m, n);
  }

  const CLOSE: string := "\n  ]"

  /** What stands behind the first number of an array. */
  function BehindNumber(bytes: seq<byte>, rest: string): string
    requires bytes != []
  {
    (if |bytes| == 1 then "" else ",") + (Items(bytes[1..]) + (CLOSE + rest))
  }

  lemma BehindIsNoDigit(bytes: seq<byte>, rest: string)
    requires bytes != []
    ensures NoDigitFirst(BehindNumber(bytes, rest))
    ensures BehindNumber(bytes, rest)[0] == if |bytes| == 1 then '\n' else ','
  {
    if |bytes| == 1 {
      assert Items(bytes[1..]) == "";
      assert BehindNumber(bytes, rest) == CLOSE + rest;
    }
  }

  lemma ItemsUnfold(bytes: seq<byte>, rest: string)
    requires bytes != []
    ensures Items(bytes) + (CLOSE + rest) == "\n    " + (Decimal(bytes[0]) + BehindNumber(bytes, rest))
  {
    var comma := if |bytes| == 1 then "" else ",";
    RegroupFive("\n    ", Decimal(bytes[0]), comma, Items(bytes[1..]), CLOSE + rest);
  }

  lemma RegroupFive(a: string, b: string, c: string, d: string, e: string)
    ensures a + b + c + d + e == a + (b + (c + (d + e)))
  {
  }

  lemma {:induction false} ItemsEnd(a: seq<byte>, x: string, b: seq<byte>, y: string)
    requires a != [] && b != [] && Items(a) + (CLOSE + x) == Items(b) + (CLOSE + y)
    ensures a == b && x == y
    decreases |a|
  {
    ItemsUnfold(a, x);
    ItemsUnfold(b, y);
    BehindIsNoDigit(a, x);
    BehindIsNoDigit(b, y);
    hide Items, Decimal, CLOSE, NoDigitFirst, BehindNumber;
    SameFront("\n    ", Decimal(a[0]) + BehindNumber(a, x), "\n    ", Decimal(b[0]) + BehindNumber(b, y));
    NumberEnds(a[0], BehindNumber(a, x), b[0], BehindNumber(b, y));
    assert (|a| == 1) == (|b| == 1);
    BehindAgain(a, x, b, y);
    if |a| == 1 {
      SameFront(CLOSE, x, CLOSE, y);
    } else {
      ItemsEnd(a[1..], x, b[1..], y);
    }
    assert a == [a[0]] + a[1..] && b == [b[0]] + b[1..];
  }

  lemma BehindAgain(a: seq<byte>, x: string, b: seq<byte>, y: string)
    requires a != [] && b != [] && (|a| == 1) == (|b| == 1) && BehindNumber(a, x) == BehindNumber(b, y)
    ensures Items(a[1..]) + (CLOSE + x) == Items(b[1..]) + (CLOSE + y)
    ensures |a| == 1 ==> CLOSE + x == CLOSE + y
  {
    hide CLOSE;
    var comma := if |a| == 1 then "" else ",";
    SameFront(comma, Items(a[1..]) + (CLOSE + x), comma, Items(b[1..]) + (CLOSE + y));
    if |a| == 1 {
      assert Items(a[1..]) == "" && Items(b[1..]) == "";
      assert "" + (CLOSE + x) == CLOSE + x && "" + (CLOSE + y) == CLOSE + y;
    }
  }

  lemma BytesUnfold(bytes: seq<byte>, rest: string)
    ensures bytes == [] ==> PrintBytes(bytes) + rest == "[" + ("]" + rest)
    ensures bytes != [] ==> PrintBytes(bytes) + rest == "[" + (Items(bytes) + (CLOSE + rest))
    ensures bytes != [] ==> Items(bytes) + (CLOSE + rest) != "" && (Items(bytes) + (CLOSE + rest))[0] == '\n'
  {
    if bytes != [] {
      ItemsUnfold(bytes, rest);
      hide Items, Decimal, BehindNumber;
      Regroup("[", Items(bytes), CLOSE, rest);
    }
  }

  lemma ArrayEnds(a: seq<byte>, x: string, b: seq<byte>, y: string)
    requires PrintBytes(a) + x == PrintBytes(b) + y
    ensures a == b && x == y
  {
    BytesUnfold(a, x);
    BytesUnfold(b, y);
    hide PrintBytes, Items, CLOSE;
    var p := if a == [] then "]" + x else Items(a) + (CLOSE + x);
    var q := if b == [] then "]" + y else Items(b) + (CLOSE + y);
    assert p != "" && p[0] == if a == [] then ']' else '\n';
    assert q != "" && q[0] == if b == [] then ']' else '\n';
    SameFront("[", p, "[", q);
    if a == [] && b == [] {
      SameFront("]", x, "]", y);
    } else {
      ItemsEnd(a, x, b, y);
    }
  }

  const VERSION: string := "{\n  \"version\": "
  const NONCE: string := ",\n  \"nonce\": "
  const CIPHERTEXT: string := ",\n  \"ciphertext\": "

  function BehindNonce(r: EncryptedRecord): string { CIPHERTEXT + (PrintBytes(r.ciphertext) + "\n}") }

  function BehindVersion(r: EncryptedRecord): string { NONCE + (PrintBytes(r.nonce) + BehindNonce(r)) }

  lemma PrintUnfold(r: EncryptedRecord)
    ensures Print(r) == VERSION + (Decimal(r.version) + BehindVersion(r))
    ensures NoDigitFirst(BehindVersion(r))
  {
    var d, n, c := Decimal(r.version), PrintBytes(r.nonce), PrintBytes(r.ciphertext);
    assert BehindVersion(r)[0] == NONCE[0] == ',';
    hide Decimal, PrintBytes, NoDigitFirst;
    assert Print(r) == VERSION + d + NONCE + n + CIPHERTEXT + c + "\n}";
    hide Print, VERSION, NONCE, CIPHERTEXT;
    RegroupFive(VERSION, d, NONCE, n, BehindNonce(r));
    Regroup(VERSION + d + NONCE + n, CIPHERTEXT, c, "\n}");
  }

  /** Two records that are written the same way are the same record. */
  lemma PrintIsInjective(r: EncryptedRecord, q: EncryptedRecord)
    requires Print(r) == Print(q)
    ensures r == q
  {
    PrintUnfold(r);
    PrintUnfold(q);
    hide Print, Decimal, PrintBytes, NoDigitFirst, VERSION, CIPHERTEXT, NONCE;
    SameFront(VERSION, Decimal(r.version) + BehindVersion(r), VERSION, Decimal(q.version) + BehindVersion(q));
    NumberEnds(r.version, BehindVersion(r), q.version, BehindVersion(q));
    SameFront(NONCE, PrintBytes(r.nonce) + BehindNonce(r), NONCE, PrintBytes(q.nonce) + BehindNonce(q));
    ArrayEnds(r.nonce, BehindNonce(r), q.nonce, BehindNonce(q));
    SameFront(CIPHERTEXT, PrintBytes(r.ciphertext) + "\n}", CIPHERTEXT, PrintBytes(q.ciphertext) + "\n}");
    ArrayEnds(r.ciphertext, "\n}", q.ciphertext, "\n}");
  }

  ghost function ParseRecord(text: string): Option<EncryptedRecord> {
    if exists r :: Print(r) == text then
      var r :| Print(r) == text;
      Some(r)
    else None
  }

  lemma RecordReadsBack(r: EncryptedRecord)
    ensures ParseRecord(Print(r)) == Some(r)
  {
    hide Print;
    PrintIsInjective(r, ParseRecord(Print(r)).value);
  }

  // ---- an encoding of payloads ---------------------------------------------------------------

  /** A number as that many zeros and a one. */
  function Unary(n: nat): seq<byte> { if n == 0 then [1] else [0] + Unary(n - 1) }

  function UnaryText(text: string): seq<byte> {
    if text == "" then [] else Unary(text[0] as nat) + UnaryText(text[1..])
  }

  function Encode(p: CheckpointPayload): seq<byte> {
    Unary(p.stagedOffset) + (Unary(if p.granularity.None? then 0 else p.granularity.value + 1) + UnaryText(p.url))
  }

  lemma {:induction false} UnaryEnds(m: nat, x: seq<byte>, n: nat, y: seq<byte>)
    requires Unary(m) + x == Unary(n) + y
    ensures m == n && x == y
    decreases m
  {
    UnaryFirst(m, x);
    UnaryFirst(n, y);
    if m > 0 {
      assert Unary(m) + x == [0] + (Unary(m - 1) + x) && Unary(n) + y == [0] + (Unary(n - 1) + y);
      SameFront([0], Unary(m - 1) + x, [0], Unary(n - 1) + y);
      UnaryEnds(m - 1, x, n - 1, y);
    } else {
      SameFront([1], x, [1], y);
    }
  }

  lemma UnaryFirst(n: nat, x: seq<byte>)
    ensures (Unary(n) + x)[0] == if n == 0 then 1 else 0
  {
  }

  lemma {:induction false} UnaryTextIsInjective(a: string, b: string)
    requires UnaryText(a) == UnaryText(b)
    ensures a == b
    decreases |a|
  {
    hide Unary;
    if a != "" && b != "" {
      UnaryEnds(a[0] as nat, UnaryText(a[1..]), b[0] as nat, UnaryText(b[1..]));
      UnaryTextIsInjective(a[1..], b[1..]);
      assert a == [a[0]] + a[1..] && b == [b[0]] + b[1..];
    } else if a != "" {
      UnaryIsSomething(a[0] as nat);
    } else if b != "" {
      UnaryIsSomething(b[0] as nat);
    }
  }

  lemma UnaryIsSomething(n: nat)
    ensures Unary(n) != []
  {
  }

  ghost function Decode(bytes: seq<byte>): Option<CheckpointPayload> {
    if exists p :: Encode(p) == bytes then
      var p :| Encode(p) == bytes;
      Some(p)
    else None
  }

  lemma PayloadReadsBack(p: CheckpointPayload)
    ensures Decode(Encode(p)) == Some(p)
  {
    hide Unary, UnaryText;
    var q := Decode(Encode(p)).value;
    var m, n := if p.granularity.None? then 0 else p.granularity.value + 1,
                if q.granularity.None? then 0 else q.granularity.value + 1;
    UnaryEnds(p.stagedOffset, Unary(m) + UnaryText(p.url), q.stagedOffset, Unary(n) + UnaryText(q.url));
    UnaryEnds(m, UnaryText(p.url), n, UnaryText(q.url));
    UnaryTextIsInjective(p.url, q.url);
  }

  // ---- the library -----------------------------------------------------------------------------

  const ZEROS: seq<byte> := seq(AUTHENTICATION_TAG_BYTES, _ => 0)

  /** A cipher that hides nothing, which the assumptions do not exclude. */
  const CLEAR: Aead := Aead(
    (key, nonce, data, message) => message + ZEROS,
    (key, nonce, data, message) =>
      if |message| < AUTHENTICATION_TAG_BYTES || message[|message| - AUTHENTICATION_TAG_BYTES..] != ZEROS then None
      else Some(message[..|message| - AUTHENTICATION_TAG_BYTES]))

  lemma ClearIsAead()
    ensures IsAead(CLEAR)
  {
    forall key, nonce, data, message ensures Inverts(CLEAR, key, nonce, data, message) {
      assert (message + ZEROS)[..|message|] == message && (message + ZEROS)[|message|..] == ZEROS;
    }
    forall key, nonce, data, sealed ensures Authenticates(CLEAR, key, nonce, data, sealed) {
      if |sealed| >= AUTHENTICATION_TAG_BYTES {
        var k := |sealed| - AUTHENTICATION_TAG_BYTES;
        assert sealed == sealed[..k] + sealed[k..];
      }
    }
  }

  /** What is assumed of the library routines can be met, with payloads short enough for a
      session to be staged. */
  lemma LibraryExists() returns (lib: Library)
    ensures IsLibrary(lib) && |lib.encodePayload(CheckpointPayload("", Some(1), 1))| <= MAX_PLAINTEXT_BYTES
  {
    lib := Library(CLEAR, p => Encode(p), bytes => Decode(bytes), text => ParseRecord(text), text => seq(64, _ => '0'));
    ClearIsAead();
    forall p ensures lib.decodePayload(lib.encodePayload(p)) == Some(p) {
      PayloadReadsBack(p);
    }
    forall r ensures lib.parseRecord(Print(r)) == Some(r) {
      RecordReadsBack(r);
    }
    assert Unary(1) == [0] + Unary(0) && Unary(2) == [0] + Unary(1);
    assert |lib.encodePayload(CheckpointPayload("", Some(1), 1))| == 5;
  }
}
