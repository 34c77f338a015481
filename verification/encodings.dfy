/** Byte encodings, and when they determine what they encode. */
module Encodings {
  // Length-prefixed payloads that get signed, encrypted blobs on disk, the input of the conversation
  // digest, hexadecimal, and what the two ends of a pairing derive.

  type Byte = b: int | 0 <= b < 256
  type Bytes = seq<Byte>
  type I64 = x: int | -0x8000_0000_0000_0000 <= x < 0x8000_0000_0000_0000

  const U32 := 0x1_0000_0000
  const U64 := 0x1_0000_0000_0000_0000

  // The tags that the two signed payloads start with.
  const CERTIFICATE_TAG := Ascii("tui-chat-device-certificate-v1\0")
  const CHALLENGE_TAG := Ascii("tui-chat-device-auth-v1\0")

  function Ascii(s: string): Bytes {
    seq(|s|, i requires 0 <= i < |s| => s[i] as int % 256)
  }

  // ----- length-prefixed fields -----

  lemma SplitAt(a: Bytes, b: Bytes, x: Bytes, y: Bytes)
    requires a + x == b + y && |a| == |b|
    ensures a == b && x == y
  {
    assert a == (a + x)[..|a|] && b == (b + y)[..|b|];
    assert x == (a + x)[|a|..] && y == (b + y)[|b|..];
  }

  /** (len as u32).to_be_bytes(): the cast drops what does not fit. */
  function Be32(n: nat): (r: Bytes)
    ensures |r| == 4
  {
    var m := n % U32;
    [m / 0x100_0000, m / 0x1_0000 % 256, m / 256 % 256, m % 256]
  }

  lemma Be32Determines(m: nat, n: nat)
    ensures Be32(m) == Be32(n) <==> m % U32 == n % U32
  {
    FromDigits(m % U32);
    FromDigits(n % U32);
  }

  lemma FromDigits(m: nat)
    requires m < U32
    ensures m == m / 0x100_0000 * 0x100_0000 + m / 0x1_0000 % 256 * 0x1_0000 + m / 256 % 256 * 256 + m % 256
  {
    assert m / 256 == m / 0x1_0000 * 256 + m / 256 % 256;
    assert m / 0x1_0000 == m / 0x100_0000 * 256 + m / 0x1_0000 % 256;
  }

  /** Four bytes as a number, high byte first. */
  function Number(r: Bytes): nat
    requires |r| == 4
  {
    r[0] as int * 0x100_0000 + r[1] as int * 0x1_0000 + r[2] as int * 256 + r[3] as int
  }

  lemma Be32Value(n: nat)
    ensures Number(Be32(n)) == n % 4294967296
  {
    FromDigits(n % U32);
  }

  /** The same 64 bits read as an unsigned number. */
  function Unsigned(x: I64): nat {
    if x < 0 then x + U64 else x
  }

  /** i64::to_be_bytes: two's complement, high byte first. */
  function Be64(x: I64): (r: Bytes)
    ensures |r| == 8
  {
    Be32(Unsigned(x) / U32) + Be32(Unsigned(x))
  }

  lemma Halves(m: nat)
    requires m < U64
    ensures m == m / U32 * U32 + m % U32 && m / U32 % U32 == m / U32
  {
  }

  lemma Be64Determines(x: I64, y: I64)
    ensures Be64(x) == Be64(y) <==> x == y
  {
    var m, n := Unsigned(x), Unsigned(y);
    if Be64(x) == Be64(y) {
      SplitAt(Be32(m / U32), Be32(n / U32), Be32(m), Be32(n));
      SameHalves(m, n);
    }
  }

  /** The eight bytes are the number, or what it lacks to 2^64 when it is negative. */
  lemma Be64Value(x: I64)
    ensures Number(Be64(x)[..4]) * 4294967296 + Number(Be64(x)[4..]) == if x < 0 then x + 18446744073709551616 else x
  {
    var m := Unsigned(x);
    assert Be64(x)[..4] == Be32(m / U32) && Be64(x)[4..] == Be32(m);
    Be32Value(m / U32);
    Be32Value(m);
    Halves(m);
  }

  lemma SameHalves(m: nat, n: nat)
    requires m < U64 && n < U64 && Be32(m / U32) == Be32(n / U32) && Be32(m) == Be32(n)
    ensures m == n
  {
    Be32Determines(m / U32, n / U32);
    Be32Determines(m, n);
    Halves(m);
    Halves(n);
  }

  function Fields(fields: seq<Bytes>): Bytes {
    if fields == [] then [] else Be32(|fields[0]|) + fields[0] + Fields(fields[1..])
  }

  predicate Short(fields: seq<Bytes>) {
    forall f :: f in fields ==> |f| < U32
  }

  lemma FieldsCons(a: seq<Bytes>, x: Bytes)
    requires a != []
    ensures Fields(a) + x == Be32(|a[0]|) + (a[0] + (Fields(a[1..]) + x))
  {
  }

  lemma PeelField(f: Bytes, g: Bytes, u: Bytes, v: Bytes)
    requires |f| < U32 && |g| < U32 && Be32(|f|) + (f + u) == Be32(|g|) + (g + v)
    ensures f == g && u == v
  {
    SplitAt(Be32(|f|), Be32(|g|), f + u, g + v);
    Be32Determines(|f|, |g|);
    SplitAt(f, g, u, v);
  }

  /** Two field lists of the same length with the same encoding are the same, whatever follows them. */
  lemma {:induction false} FieldsInjective(a: seq<Bytes>, b: seq<Bytes>, x: Bytes, y: Bytes)
    requires Short(a) && Short(b) && |a| == |b| && Fields(a) + x == Fields(b) + y
    ensures a == b && x == y
    decreases |a|
  {
    if a == [] {
      assert Fields(a) + x == x && Fields(b) + y == y;
    } else {
      FieldsCons(a, x);
      FieldsCons(b, y);
      PeelField(a[0], b[0], Fields(a[1..]) + x, Fields(b[1..]) + y);
      FieldsInjective(a[1..], b[1..], x, y);
      assert a == [a[0]] + a[1..] && b == [b[0]] + b[1..];
    }
  }

  method AppendFields(out: Bytes, fields: seq<Bytes>) returns (r: Bytes)
    ensures r == out + Fields(fields)
  {
    r := out;
    var i := 0;
    assert fields[0..] == fields;
    while i < |fields|
      invariant 0 <= i <= |fields| && r + Fields(fields[i..]) == out + Fields(fields)
    {
      assert fields[i..][1..] == fields[i + 1..];
      assert r + Fields(fields[i..]) == r + Be32(|fields[i]|) + fields[i] + Fields(fields[i + 1..]);
      r := r + Be32(|fields[i]|);
      r := r + fields[i];
      i := i + 1;
    }
    assert fields[i..] == [];
  }

  datatype Certificate = Certificate(account: Bytes, device: Bytes, authKey: Bytes, ed25519: Bytes, curve25519: Bytes)

  function CertificateFields(c: Certificate): seq<Bytes> {
    [c.account, c.device, c.authKey, c.ed25519, c.curve25519]
  }

  function CertificatePayload(c: Certificate): Bytes {
    CERTIFICATE_TAG + Fields(CertificateFields(c))
  }

  method DeviceCertificatePayload(c: Certificate) returns (payload: Bytes)
    ensures payload == CertificatePayload(c)
  {
    payload := AppendFields(CERTIFICATE_TAG, CertificateFields(c));
  }

  /** A device certificate's payload determines the certificate. */
  lemma CertificateInjective(c: Certificate, d: Certificate)
    requires Short(CertificateFields(c)) && Short(CertificateFields(d))
    ensures CertificatePayload(c) == CertificatePayload(d) <==> c == d
  {
    var x, y := Fields(CertificateFields(c)), Fields(CertificateFields(d));
    if CERTIFICATE_TAG + x == CERTIFICATE_TAG + y {
      SplitAt(CERTIFICATE_TAG, CERTIFICATE_TAG, x, y);
      assert x + [] == y + [];
      FieldsInjective(CertificateFields(c), CertificateFields(d), [], []);
    }
  }

  datatype Challenge = Challenge(domain: Bytes, username: Bytes, device: Bytes, nonce: Bytes, expiry: I64)

  function ChallengeFields(c: Challenge): seq<Bytes> {
    [c.domain, c.username, c.device, c.nonce]
  }

  function ChallengePayload(c: Challenge): Bytes {
    CHALLENGE_TAG + (Fields(ChallengeFields(c)) + Be64(c.expiry))
  }

  method AuthChallengePayload(c: Challenge) returns (payload: Bytes)
    ensures payload == ChallengePayload(c)
  {
    payload := AppendFields(CHALLENGE_TAG, ChallengeFields(c));
    payload := payload + Be64(c.expiry);
  }

  /** A challenge's payload determines the challenge, expiry included. */
  lemma ChallengeInjective(c: Challenge, d: Challenge)
    requires Short(ChallengeFields(c)) && Short(ChallengeFields(d))
    ensures ChallengePayload(c) == ChallengePayload(d) <==> c == d
  {
    var x, y := Fields(ChallengeFields(c)) + Be64(c.expiry), Fields(ChallengeFields(d)) + Be64(d.expiry);
    if CHALLENGE_TAG + x == CHALLENGE_TAG + y {
      SplitAt(CHALLENGE_TAG, CHALLENGE_TAG, x, y);
      FieldsInjective(ChallengeFields(c), ChallengeFields(d), Be64(c.expiry), Be64(d.expiry));
      Be64Determines(c.expiry, d.expiry);
    }
  }

  /** What is signed as a certificate is never what is signed as a challenge. */
  lemma PayloadsAreApart(c: Certificate, d: Challenge)
    ensures CertificatePayload(c) != ChallengePayload(d)
  {
    assert CertificatePayload(c)[16] == CERTIFICATE_TAG[16] == 'c' as int;
    assert ChallengePayload(d)[16] == CHALLENGE_TAG[16] == 'a' as int;
  }

  /** The fields of a payload, each behind its length, in the order in which they are signed. */
  lemma PayloadLayout(c: Certificate, d: Challenge)
    ensures CertificatePayload(c)
         == CERTIFICATE_TAG + (Be32(|c.account|) + c.account + (Be32(|c.device|) + c.device
            + (Be32(|c.authKey|) + c.authKey + (Be32(|c.ed25519|) + c.ed25519 + (Be32(|c.curve25519|) + c.curve25519)))))
    ensures ChallengePayload(d)
         == CHALLENGE_TAG + ((Be32(|d.domain|) + d.domain + (Be32(|d.username|) + d.username
            + (Be32(|d.device|) + d.device + (Be32(|d.nonce|) + d.nonce)))) + Be64(d.expiry))
  {
    var f, g := CertificateFields(c), ChallengeFields(d);
    assert f[1..] == [c.device, c.authKey, c.ed25519, c.curve25519] && f[2..] == [c.authKey, c.ed25519, c.curve25519];
    assert f[3..] == [c.ed25519, c.curve25519] && f[4..] == [c.curve25519] && f[5..] == [];
    FieldsNext(f, 0);
    FieldsNext(f, 1);
    FieldsNext(f, 2);
    FieldsNext(f, 3);
    FieldsNext(f, 4);
    assert g[1..] == [d.username, d.device, d.nonce] && g[2..] == [d.device, d.nonce] && g[3..] == [d.nonce] && g[4..] == [];
    FieldsNext(g, 0);
    FieldsNext(g, 1);
    FieldsNext(g, 2);
    FieldsNext(g, 3);
  }

  lemma FieldsNext(f: seq<Bytes>, i: nat)
    requires i < |f|
    ensures Fields(f[i..]) == Be32(|f[i]|) + f[i] + Fields(f[i + 1..])
    ensures i + 1 == |f| ==> Fields(f[i..]) == Be32(|f[i]|) + f[i]
  {
    assert f[i..][1..] == f[i + 1..];
  }

  // ----- encrypted blobs -----

  const BLOB_TAG: Bytes := [84, 67, 66]
  const WRAPPED_TAG: Bytes := [84, 67, 87]
  const HEADER := 44

  // EncryptedBlob and WrappedVaultKey have the same fields and differ in the tag of their encoding.
  datatype Blob = Blob(version: Byte, salt: Bytes, nonce: Bytes, ciphertext: Bytes)

  predicate WellFormed(b: Blob) {
    |b.salt| == 16 && |b.nonce| == 24
  }

  // A value without the tag is left to the JSON decoder.
  datatype Decoded = Binary(blob: Blob) | Legacy | Truncated

  method ToBytes(tag: Bytes, b: Blob) returns (encoded: Bytes)
    ensures encoded == Encode(tag, b)
  {
    encoded := tag;
    encoded := encoded + [b.version];
    encoded := encoded + b.salt;
    encoded := encoded + b.nonce;
    encoded := encoded + b.ciphertext;
  }

  function Encode(tag: Bytes, b: Blob): Bytes {
    tag + [b.version] + b.salt + b.nonce + b.ciphertext
  }

  function FromBytes(tag: Bytes, encoded: Bytes): Decoded
    requires |tag| == 3
  {
    if !(tag <= encoded) then Legacy
    else if |encoded| < HEADER then Truncated
    else Binary(Blob(encoded[3], encoded[4..20], encoded[20..44], encoded[44..]))
  }

  /** What is written is read back. */
  lemma BlobRoundTrip(tag: Bytes, b: Blob)
    requires |tag| == 3 && WellFormed(b)
    ensures FromBytes(tag, Encode(tag, b)) == Binary(b)
  {
    var e := Encode(tag, b);
    assert e[..3] == tag && e[3] == b.version;
    assert e[4..20] == b.salt && e[20..44] == b.nonce && e[44..] == b.ciphertext;
  }

  /** Tag, version, salt, nonce, ciphertext. */
  lemma BlobLayout(tag: Bytes, b: Blob)
    requires |tag| == 3 && WellFormed(b)
    ensures var e := Encode(tag, b);
            && |e| == 44 + |b.ciphertext| && e[..3] == tag && e[3] == b.version
            && e[4..20] == b.salt && e[20..44] == b.nonce && e[44..] == b.ciphertext
  {
  }

  /** What is read as binary is what was written, and exactly tagged input of full length is. */
  lemma BlobReadBack(tag: Bytes, encoded: Bytes)
    requires |tag| == 3
    ensures FromBytes(tag, encoded).Binary? <==> exists b :: WellFormed(b) && encoded == Encode(tag, b)
    ensures FromBytes(tag, encoded).Binary? ==>
      WellFormed(FromBytes(tag, encoded).blob) && Encode(tag, FromBytes(tag, encoded).blob) == encoded
  {
    if FromBytes(tag, encoded).Binary? {
      var b := FromBytes(tag, encoded).blob;
      assert encoded == encoded[..3] + [encoded[3]] + encoded[4..20] + encoded[20..44] + encoded[44..];
      assert encoded == Encode(tag, b);
    }
    if exists b :: WellFormed(b) && encoded == Encode(tag, b) {
      var b :| WellFormed(b) && encoded == Encode(tag, b);
      BlobRoundTrip(tag, b);
    }
  }

  /** A wrapped key is never taken for a blob, nor a blob for a wrapped key. */
  lemma TagsAreApart(b: Blob)
    ensures FromBytes(BLOB_TAG, Encode(WRAPPED_TAG, b)) == Legacy
    ensures FromBytes(WRAPPED_TAG, Encode(BLOB_TAG, b)) == Legacy
  {
    assert Encode(WRAPPED_TAG, b)[2] == 87 && Encode(BLOB_TAG, b)[2] == 66;
  }

  // ----- the conversation digest's input -----

  /** Lexicographic order on byte strings. */
  predicate Leq(a: Bytes, b: Bytes) {
    if a == [] then true
    else if b == [] then false
    else if a[0] != b[0] then a[0] < b[0]
    else Leq(a[1..], b[1..])
  }

  lemma {:induction false} LeqTotal(a: Bytes, b: Bytes)
    ensures Leq(a, b) || Leq(b, a)
    ensures Leq(a, b) && Leq(b, a) ==> a == b
  {
    if a == [] || b == [] || a[0] != b[0] {
    } else {
      LeqTotal(a[1..], b[1..]);
      assert a == [a[0]] + a[1..] && b == [b[0]] + b[1..];
    }
  }

  function Ordered(a: Bytes, b: Bytes): (Bytes, Bytes) {
    if Leq(a, b) then (a, b) else (b, a)
  }

  lemma OrderedIsSymmetric(a: Bytes, b: Bytes)
    ensures Ordered(a, b) == Ordered(b, a)
  {
    LeqTotal(a, b);
  }

  /** `a` comes first in the dictionary: they differ at k, or `a` ends there. */
  predicate Before(a: Bytes, b: Bytes, k: nat) {
    k <= |a| && k < |b| && a[..k] == b[..k] && (k == |a| || a[k] < b[k])
  }

  /** The first of the ordered pair is the one that comes first in the dictionary. */
  lemma {:induction false} OrderedIsDictionary(a: Bytes, b: Bytes, k: nat)
    requires Before(a, b, k)
    ensures Ordered(a, b) == (a, b) && Ordered(b, a) == (a, b) && !Leq(b, a)
    decreases k
  {
    if k == 0 {
    } else {
      assert a[0] == a[..k][0] && b[0] == b[..k][0];
      assert a[1..][..k - 1] == a[..k][1..] && b[1..][..k - 1] == b[..k][1..];
      OrderedIsDictionary(a[1..], b[1..], k - 1);
    }
  }

  function ConversationInput(domain: Bytes, a: Bytes, b: Bytes): Bytes {
    domain + Ordered(a, b).0 + [0] + Ordered(a, b).1
  }

  predicate NoNul(a: Bytes) {
    forall i :: 0 <= i < |a| ==> a[i] != 0
  }

  /** The first NUL of a byte string is at n. */
  predicate FirstNul(s: Bytes, n: nat) {
    n < |s| && s[n] == 0 && forall i :: 0 <= i < n ==> s[i] != 0
  }

  lemma NulSplits(a: Bytes, b: Bytes, x: Bytes, y: Bytes)
    requires NoNul(a) && NoNul(b) && a + [0] + x == b + [0] + y
    ensures a == b && x == y
  {
    assert FirstNul(a + [0] + x, |a|) && FirstNul(b + [0] + y, |b|);
    SplitAt(a + [0], b + [0], x, y);
    SplitAt(a, b, [0], [0]);
  }

  /** Without NUL bytes in the ids, the digest's input determines the unordered pair, and only it. */
  lemma ConversationInputIdentifiesPair(domain: Bytes, a: Bytes, b: Bytes, c: Bytes, d: Bytes)
    requires NoNul(a) && NoNul(b) && NoNul(c) && NoNul(d)
    ensures ConversationInput(domain, a, b) == ConversationInput(domain, c, d)
       <==> (a == c && b == d) || (a == d && b == c)
  {
    OrderedIsSymmetric(a, b);
    if ConversationInput(domain, a, b) == ConversationInput(domain, c, d) {
      var (p, q) := Ordered(a, b);
      var (r, s) := Ordered(c, d);
      assert domain + p + [0] + q == domain + (p + [0] + q);
      assert domain + r + [0] + s == domain + (r + [0] + s);
      SplitAt(domain, domain, p + [0] + q, r + [0] + s);
      NulSplits(p, r, q, s);
    }
  }

  // ----- hexadecimal -----

  function Digit(n: int): (c: Byte)
    requires 0 <= n < 16
    ensures c == "0123456789abcdef"[n] as int
  {
    if n < 10 then 48 + n else 87 + n
  }

  function Hex(bytes: Bytes): (out: Bytes)
    ensures |out| == 2 * |bytes|
  {
    if bytes == [] then [] else Hex(bytes[..|bytes| - 1]) + [Digit(bytes[|bytes| - 1] / 16), Digit(bytes[|bytes| - 1] % 16)]
  }

  method HexString(bytes: Bytes) returns (out: Bytes)
    ensures out == Hex(bytes)
  {
    out := [];
    var i := 0;
    while i < |bytes|
      invariant 0 <= i <= |bytes| && out == Hex(bytes[..i])
    {
      assert bytes[..i + 1][..i] == bytes[..i];
      out := out + [Digit(bytes[i] / 16)];
      out := out + [Digit(bytes[i] % 16)];
      i := i + 1;
    }
    assert bytes[..i] == bytes;
  }

  /** Two lower-case digits for each byte, the high one first. */
  lemma {:induction false} HexIs(bytes: Bytes, i: nat)
    requires i < |bytes|
    ensures Hex(bytes)[2 * i] == "0123456789abcdef"[bytes[i] / 16] as int
    ensures Hex(bytes)[2 * i + 1] == "0123456789abcdef"[bytes[i] % 16] as int
    decreases |bytes|
  {
    if i == |bytes| - 1 {
    } else {
      HexIs(bytes[..|bytes| - 1], i);
    }
  }

  lemma {:induction false} HexInjective(a: Bytes, b: Bytes)
    requires Hex(a) == Hex(b)
    ensures a == b
  {
    if a == [] || b == [] {
    } else {
      var x, y := Hex(a[..|a| - 1]), Hex(b[..|b| - 1]);
      var m, n := a[|a| - 1], b[|b| - 1];
      SplitAt(x, y, [Digit(m / 16), Digit(m % 16)], [Digit(n / 16), Digit(n % 16)]);
      assert [Digit(m / 16), Digit(m % 16)][0] == [Digit(n / 16), Digit(n % 16)][0];
      assert [Digit(m / 16), Digit(m % 16)][1] == [Digit(n / 16), Digit(n % 16)][1];
      assert m / 16 == n / 16 && m % 16 == n % 16;
      HexInjective(a[..|a| - 1], b[..|b| - 1]);
      assert a == a[..|a| - 1] + [m] && b == b[..|b| - 1] + [n];
    }
  }

  // ----- pairing channels -----

  /** HKDF's info: the pairing id and both public keys, the smaller one first. */
  method PairingInfo(domain: Bytes, pairing: Bytes, own: Bytes, peer: Bytes) returns (info: Bytes)
    ensures info == Info(domain, pairing, own, peer)
  {
    var first, second := own, peer;
    if !Leq(own, peer) {
      first, second := peer, own;
    }
    info := domain;
    info := info + pairing;
    info := info + [0];
    info := info + first;
    info := info + second;
  }

  function Info(domain: Bytes, pairing: Bytes, own: Bytes, peer: Bytes): Bytes {
    domain + pairing + [0] + Ordered(own, peer).0 + Ordered(own, peer).1
  }

  /** What both ends feed to the key derivation agrees exactly when pairing id and key pair agree. */
  lemma InfoIdentifiesPairing(domain: Bytes, p: Bytes, q: Bytes, a: Bytes, b: Bytes, c: Bytes, d: Bytes)
    requires |a| == |b| == |c| == |d| == 32
    ensures Info(domain, p, a, b) == Info(domain, q, c, d) <==> p == q && ((a == c && b == d) || (a == d && b == c))
  {
    OrderedIsSymmetric(a, b);
    if Info(domain, p, a, b) == Info(domain, q, c, d) {
      var (k, l) := Ordered(a, b);
      var (m, n) := Ordered(c, d);
      SplitAt(domain + p + [0] + k, domain + q + [0] + m, l, n);
      SplitAt(domain + p + [0], domain + q + [0], k, m);
      SplitAt(domain + p, domain + q, [0], [0]);
      SplitAt(domain, domain, p, q);
    }
  }

  /**
   With a commutative key agreement and any key derivation, the two ends derive the same output, so
   the same channel key and the same short authentication string.
   */
  lemma EndsDeriveTheSame(
    agree: (Bytes, Bytes) -> Bytes, public: Bytes -> Bytes, derive: (Bytes, Bytes) -> seq<bv8>,
    domain: Bytes, pairing: Bytes, mine: Bytes, theirs: Bytes)
    requires agree(mine, public(theirs)) == agree(theirs, public(mine))
    ensures derive(agree(mine, public(theirs)), Info(domain, pairing, public(mine), public(theirs)))
         == derive(agree(theirs, public(mine)), Info(domain, pairing, public(theirs), public(mine)))
  {
    OrderedIsSymmetric(public(mine), public(theirs));
  }
}
