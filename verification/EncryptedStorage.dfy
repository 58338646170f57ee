/** addons/encrypted_storage.py: nonce, ciphertext and tag in one blob, and JSON lines inside it. */
module EncryptedStorage {
  import opened Prelude
  import StateLog

  type Bytes = StateLog.Bytes

  const NONCE_LENGTH := 16
  const DIGEST_LENGTH := 32

  type Digest = b: Bytes | |b| == DIGEST_LENGTH witness seq(DIGEST_LENGTH, i => 0)
  type Nonce = b: Bytes | |b| == NONCE_LENGTH witness seq(NONCE_LENGTH, i => 0)

  /** SHA-256 and HMAC-SHA256, of which only the digest length matters here. */
  datatype Crypto = Crypto(sha256: Bytes -> Digest, hmac: (Bytes, Bytes) -> Digest)

  function XorBytes(data: Bytes, key: Bytes): Bytes
    requires key != []
  {
    seq(|data|, i requires 0 <= i < |data| => data[i] ^ key[i % |key|])
  }

  /** Encryption with the nonce the operating system supplied. */
  function EncryptBlob(c: Crypto, plaintext: Bytes, passphrase: Bytes, nonce: Nonce): Bytes
  {
    var key := c.sha256(passphrase);
    var ct := XorBytes(plaintext, c.sha256(key + nonce));
    nonce + ct + c.hmac(key, nonce + ct)
  }

  function DecryptBlob(c: Crypto, blob: Bytes, passphrase: Bytes): Result<Bytes>
  {
    if |blob| < NONCE_LENGTH + DIGEST_LENGTH then Error("Blob too short")
    else
      var key := c.sha256(passphrase);
      var nonce, mac := blob[..NONCE_LENGTH], blob[|blob| - DIGEST_LENGTH..];
      var ct := blob[NONCE_LENGTH..|blob| - DIGEST_LENGTH];
      if mac != c.hmac(key, nonce + ct) then Error("Authentication failed")
      else Ok(XorBytes(ct, c.sha256(key + nonce)))
  }

  // ---- the frame -------------------------------------------------------------------------------

  lemma XorTwice(data: Bytes, key: Bytes)
    requires key != []
    ensures XorBytes(XorBytes(data, key), key) == data
  {
    var once := XorBytes(data, key);
    forall i | 0 <= i < |data| ensures XorBytes(once, key)[i] == data[i] {
      SelfInverse(data[i], key[i % |key|]);
    }
  }

  lemma SelfInverse(b: bv8, k: bv8)
    ensures (b ^ k) ^ k == b
  {
  }

  /**
   * A blob is the nonce, then each byte combined by exclusive or with its byte of the digest of key
   * and nonce, then the tag of both under the key; the key is the digest of the passphrase.
   */
  lemma BlobExactly(c: Crypto, plaintext: Bytes, passphrase: Bytes, nonce: Nonce, i: nat)
    requires i < |plaintext|
    ensures var blob, key := EncryptBlob(c, plaintext, passphrase, nonce), c.sha256(passphrase);
            && |blob| == |plaintext| + 48
            && blob[..16] == nonce
            && blob[16 + i] == plaintext[i] ^ c.sha256(key + nonce)[i % 32]
            && blob[|blob| - 32..] == c.hmac(key, blob[..|blob| - 32])
  {
    var key := c.sha256(passphrase);
    var ct := XorBytes(plaintext, c.sha256(key + nonce));
    var mac := c.hmac(key, nonce + ct);
    FrameParts(nonce, ct, mac);
    assert (nonce + ct + mac)[..16 + |ct|] == nonce + ct;
  }

  /** A blob is rejected exactly for its length, or for a tag that is not that of the rest under the key. */
  lemma RejectsExactly(c: Crypto, blob: Bytes, passphrase: Bytes)
    ensures var r := DecryptBlob(c, blob, passphrase);
            && (r == Error("Blob too short") <==> |blob| < 48)
            && (r == Error("Authentication failed") <==>
                  |blob| >= 48 && blob[|blob| - 32..] != c.hmac(c.sha256(passphrase), blob[..|blob| - 32]))
            && (r.Ok? <==>
                  |blob| >= 48 && blob[|blob| - 32..] == c.hmac(c.sha256(passphrase), blob[..|blob| - 32]))
  {
    if |blob| >= 48 { assert blob[..16] + blob[16..|blob| - 32] == blob[..|blob| - 32]; }
  }

  /** The keystream repeats every 32 bytes, so a blob shows the difference of two bytes that far apart. */
  lemma KeystreamRepeats(c: Crypto, plaintext: Bytes, passphrase: Bytes, nonce: Nonce, i: nat)
    requires i + DIGEST_LENGTH < |plaintext|
    ensures var ct := EncryptBlob(c, plaintext, passphrase, nonce)[NONCE_LENGTH..];
            ct[i] ^ ct[i + DIGEST_LENGTH] == plaintext[i] ^ plaintext[i + DIGEST_LENGTH]
  {
    var stream := c.sha256(c.sha256(passphrase) + nonce);
    assert (i + DIGEST_LENGTH) % DIGEST_LENGTH == i % DIGEST_LENGTH;
    KeyCancels(plaintext[i], plaintext[i + DIGEST_LENGTH], stream[i % DIGEST_LENGTH]);
  }

  lemma KeyCancels(a: bv8, b: bv8, k: bv8)
    ensures (a ^ k) ^ (b ^ k) == a ^ b
  {
  }

  /** Where the parts of a blob lie. */
  lemma FrameParts(nonce: Nonce, ct: Bytes, mac: Digest)
    ensures var blob := nonce + ct + mac;
            && blob[..NONCE_LENGTH] == nonce && blob[|blob| - DIGEST_LENGTH..] == mac
            && blob[NONCE_LENGTH..|blob| - DIGEST_LENGTH] == ct
  {
  }

  /** Decryption undoes encryption, for every plaintext; a blob is 48 bytes longer than its plaintext. */
  lemma DecryptInvertsEncrypt(c: Crypto, plaintext: Bytes, passphrase: Bytes, nonce: Nonce)
    ensures DecryptBlob(c, EncryptBlob(c, plaintext, passphrase, nonce), passphrase) == Ok(plaintext)
    ensures |EncryptBlob(c, plaintext, passphrase, nonce)| == |plaintext| + NONCE_LENGTH + DIGEST_LENGTH
  {
    var key := c.sha256(passphrase);
    var stream := c.sha256(key + nonce);
    var ct := XorBytes(plaintext, stream);
    FrameParts(nonce, ct, c.hmac(key, nonce + ct));
    XorTwice(plaintext, stream);
  }

  /** A blob decrypts to a plaintext exactly when it is that plaintext's encryption under the blob's own nonce. */
  lemma DecryptsExactly(c: Crypto, blob: Bytes, passphrase: Bytes, plaintext: Bytes)
    ensures DecryptBlob(c, blob, passphrase) == Ok(plaintext)
       <==> |blob| >= NONCE_LENGTH + DIGEST_LENGTH &&
            blob == EncryptBlob(c, plaintext, passphrase, blob[..NONCE_LENGTH])
    ensures DecryptBlob(c, blob, passphrase) == Error("Blob too short") <==> |blob| < NONCE_LENGTH + DIGEST_LENGTH
  {
    if |blob| >= NONCE_LENGTH + DIGEST_LENGTH {
      var nonce, mac := blob[..NONCE_LENGTH], blob[|blob| - DIGEST_LENGTH..];
      var ct := blob[NONCE_LENGTH..|blob| - DIGEST_LENGTH];
      assert blob == nonce + ct + mac;
      if DecryptBlob(c, blob, passphrase) == Ok(plaintext) {
        XorTwice(ct, c.sha256(c.sha256(passphrase) + nonce));
      }
      if blob == EncryptBlob(c, plaintext, passphrase, nonce) {
        DecryptInvertsEncrypt(c, plaintext, passphrase, nonce);
      }
    }
  }

  // ---- JSON lines inside the blob ----------------------------------------------------------------

  datatype RecordCodec<!R(!new)> = RecordCodec(encode: R -> Bytes, decode: Bytes -> Option<R>) {
    /** json.dumps writes ASCII without line boundaries, at least its braces, and json.loads reads it back. */
    ghost predicate Lawful() {
      forall r :: Printed(encode(r)) && decode(encode(r)) == Some(r)
    }
  }

  /** Where str.splitlines breaks, within ASCII; a return and a newline together count once. */
  predicate Boundary(b: bv8) {
    10 <= b <= 13 || 28 <= b <= 30
  }

  predicate Printed(text: Bytes) {
    text != [] && text[0] == 0x7b && forall b <- text :: !Boundary(b)
  }

  /** Lines are joined by single newlines, with none behind the last. */
  lemma {:induction false} JoinExactly(lines: seq<Bytes>, last: Bytes)
    ensures JoinLines([]) == []
    ensures JoinLines(lines + [last]) == if lines == [] then last else JoinLines(lines) + [10] + last
    decreases |lines|
  {
    if lines != [] {
      var rest := lines[1..];
      assert (lines + [last])[1..] == rest + [last];
      JoinExactly(rest, last);
    }
  }

  function JoinLines(lines: seq<Bytes>): Bytes {
    if lines == [] then []
    else if |lines| == 1 then lines[0]
    else lines[0] + [StateLog.NEWLINE] + JoinLines(lines[1..])
  }

  function FirstBreak(text: Bytes): (n: nat)
    ensures n <= |text|
    ensures (forall b <- text[..n] :: !Boundary(b)) && (n < |text| ==> Boundary(text[n]))
  {
    if text == [] || Boundary(text[0]) then 0 else 1 + FirstBreak(text[1..])
  }

  function SplitLines(text: Bytes): seq<Bytes>
    decreases |text|
  {
    if text == [] then []
    else
      var n := FirstBreak(text);
      var width := if n + 1 < |text| && text[n] == 13 && text[n + 1] == 10 then 2 else 1;
      [text[..n]] + if n + width <= |text| then SplitLines(text[n + width..]) else []
  }

  predicate HasText(line: Bytes) {
    exists b <- line :: !StateLog.Blank(b)
  }

  /** Every line that is not blank is parsed; a malformed one raises. */
  function ParseLines<R(!new)>(c: RecordCodec<R>, lines: seq<Bytes>): Result<seq<R>> {
    if lines == [] then Ok([])
    else if !HasText(lines[0]) then ParseLines(c, lines[1..])
    else match c.decode(lines[0])
      case None => Error("malformed line")
      case Some(r) =>
        match ParseLines(c, lines[1..])
        case Error(e) => Error(e)
        case Ok(rs) => Ok([r] + rs)
  }

  function Printouts<R(!new)>(c: RecordCodec<R>, records: seq<R>): seq<Bytes> {
    if records == [] then [] else [c.encode(records[0])] + Printouts(c, records[1..])
  }

  function SaveEncrypted<R(!new)>(crypto: Crypto, c: RecordCodec<R>, records: seq<R>, passphrase: Bytes,
                                  nonce: Nonce): Bytes
  {
    EncryptBlob(crypto, JoinLines(Printouts(c, records)), passphrase, nonce)
  }

  function LoadEncrypted<R(!new)>(crypto: Crypto, c: RecordCodec<R>, blob: Bytes, passphrase: Bytes): Result<seq<R>>
  {
    match DecryptBlob(crypto, blob, passphrase)
    case Error(e) => Error(e)
    case Ok(text) => ParseLines(c, SplitLines(text))
  }

  lemma {:induction false} BreakAfter(line: Bytes, rest: Bytes)
    requires forall b <- line :: !Boundary(b)
    requires rest != [] ==> Boundary(rest[0])
    ensures FirstBreak(line + rest) == |line|
  {
    if line == [] {
      assert line + rest == rest;
    } else {
      assert (line + rest)[1..] == line[1..] + rest;
      BreakAfter(line[1..], rest);
    }
  }

  lemma {:induction false} SplitInvertsJoin(lines: seq<Bytes>)
    requires forall line <- lines :: Printed(line)
    ensures SplitLines(JoinLines(lines)) == lines
  {
    if |lines| == 1 {
      assert Printed(lines[0]);
      BreakAfter(lines[0], []);
      assert lines[0] + [] == lines[0];
    } else if |lines| > 1 {
      assert Printed(lines[0]);
      var rest := JoinLines(lines[1..]);
      var behind := [StateLog.NEWLINE] + rest;
      var text := lines[0] + behind;
      assert JoinLines(lines) == text;
      BreakAfter(lines[0], behind);
      assert text[..|lines[0]|] == lines[0] && text[|lines[0]| + 1..] == rest;
      SplitInvertsJoin(lines[1..]);
    }
  }

  lemma {:induction false} ParseInvertsPrint<R(!new)>(c: RecordCodec<R>, records: seq<R>)
    requires c.Lawful()
    ensures ParseLines(c, Printouts(c, records)) == Ok(records)
    ensures forall line <- Printouts(c, records) :: Printed(line)
  {
    if records != [] {
      ParseInvertsPrint(c, records[1..]);
      var line := c.encode(records[0]);
      assert Printed(line) && c.decode(line) == Some(records[0]);
      assert line[0] in line && !StateLog.Blank(line[0]);
      assert Printouts(c, records)[1..] == Printouts(c, records[1..]);
      assert [records[0]] + records[1..] == records;
    }
  }

  /** A line of whitespace changes nothing wherever it stands. */
  lemma {:induction false} BlankLinesAreSkipped<R(!new)>(c: RecordCodec<R>, a: seq<Bytes>, blank: Bytes, b: seq<Bytes>)
    requires forall x <- blank :: 9 <= x <= 13 || 28 <= x <= 32
    ensures ParseLines(c, a + [blank] + b) == ParseLines(c, a + b)
    decreases |a|
  {
    if a == [] {
      assert a + [blank] + b == [blank] + b && a + b == b;
    } else {
      assert (a + [blank] + b)[1..] == a[1..] + [blank] + b && (a + b)[1..] == a[1..] + b;
      BlankLinesAreSkipped(c, a[1..], blank, b);
    }
  }

  /** Parsing raises exactly if some line with text on it is no record. */
  lemma {:induction false} ParseRaisesExactly<R(!new)>(c: RecordCodec<R>, lines: seq<Bytes>)
    ensures ParseLines(c, lines).Error?
       <==> exists line <- lines :: c.decode(line).None? && exists x <- line :: !(9 <= x <= 13 || 28 <= x <= 32)
  {
    if lines != [] {
      ParseRaisesExactly(c, lines[1..]);
      assert lines == [lines[0]] + lines[1..];
    }
  }

  /** Loading what was saved gives the same records, the empty list included. */
  lemma LoadInvertsSave<R(!new)>(crypto: Crypto, c: RecordCodec<R>, records: seq<R>, passphrase: Bytes, nonce: Nonce)
    requires c.Lawful()
    ensures LoadEncrypted(crypto, c, SaveEncrypted(crypto, c, records, passphrase, nonce), passphrase) == Ok(records)
  {
    ParseInvertsPrint(c, records);
    SplitInvertsJoin(Printouts(c, records));
    DecryptInvertsEncrypt(crypto, JoinLines(Printouts(c, records)), passphrase, nonce);
  }
}
