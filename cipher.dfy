/** The sealing of stored API keys in lib/crypto.js (`encrypt`, `decrypt`) and the password
    hashing used by the routes. AES-256-GCM and bcrypt are platform libraries: each is a pair of
    functions supplied by the caller, and what the routes rely on is a ghost predicate over that
    pair, required where it is used. */
module Crypto {
  import opened Wrappers
  import opened KeyProvisioner

  type Byte = n: nat | n < 256

  /** `randomBytes(12)`: a 96-bit initialisation vector, the length recommended for GCM in
      section 5.2.1.1 of NIST SP 800-38D. */
  type Iv = s: seq<Byte> | |s| == 12 witness [0, 0, 0, 0, 0, 0, 0, 0, 0, 0, 0, 0]

  function HexDigit(n: nat): (c: char)
    requires n < 16
    ensures IsLowerHexChar(c)
  {
    if n < 10 then ('0' as int + n) as char else ('a' as int + n - 10) as char
  }

  lemma HexDigitInjective(m: nat, n: nat)
    requires m < 16 && n < 16 && HexDigit(m) == HexDigit(n)
    ensures m == n
  {
  }

  /** `buffer.toString('hex')`: two lower-case hex digits per byte, high nibble first. */
  function ToHex(b: seq<Byte>): (r: string)
    ensures |r| == 2 * |b| && IsLowerHex(r)
  {
    if b == [] then []
    else [HexDigit(b[0] / 16), HexDigit(b[0] % 16)] + ToHex(b[1..])
  }

  /** Different byte strings have different hex texts: a stored `iv` column determines the IV. */
  lemma {:induction false} ToHexInjective(a: seq<Byte>, b: seq<Byte>)
    requires ToHex(a) == ToHex(b)
    ensures a == b
  {
    if a != [] {
      assert |b| == |a|;
      var ha, hb := ToHex(a), ToHex(b);
      assert ha[0] == HexDigit(a[0] / 16) && hb[0] == HexDigit(b[0] / 16);
      assert ha[1] == HexDigit(a[0] % 16) && hb[1] == HexDigit(b[0] % 16);
      HexDigitInjective(a[0] / 16, b[0] / 16);
      HexDigitInjective(a[0] % 16, b[0] % 16);
      assert a[0] == 16 * (a[0] / 16) + a[0] % 16;
      assert b[0] == 16 * (b[0] / 16) + b[0] % 16;
      assert ha[2..] == ToHex(a[1..]) && hb[2..] == ToHex(b[1..]);
      ToHexInjective(a[1..], b[1..]);
      assert a == [a[0]] + a[1..] && b == [b[0]] + b[1..];
    }
  }

  /** The row columns `encrypted_key`, `iv` and `auth_tag`. */
  datatype Sealed = Sealed(encrypted: string, iv: string, authTag: string)

  /** A hex digit in either case, as `Buffer.from(text, 'hex')` reads one. */
  predicate IsHexChar(ch: char) {
    IsLowerHexChar(ch) || 'A' <= ch <= 'F'
  }

  /** A master key text that `Buffer.from(text, 'hex')` turns into the 32 bytes AES-256 needs:
      64 hex digits. Decoding stops at the first pair that is not hex, so any other text of
      length 64 gives a shorter buffer, and `createCipheriv` or `createDecipheriv` throws. */
  predicate ValidMasterKey(key: string) {
    |key| == 64 && forall i :: 0 <= i < |key| ==> IsHexChar(key[i])
  }

  /** Every key read from `.env` or generated is a valid master key. */
  lemma HexKeyIsMaster(key: string)
    requires IsHexKey(key)
    ensures ValidMasterKey(key)
  {
    forall i | 0 <= i < |key| ensures IsHexChar(key[i]) {
      assert IsLowerHexChar(key[i]);
    }
  }

  /** AES-256-GCM under a master key: `seal` gives the ciphertext and the authentication tag
      in hex; `open` takes the three hex columns and fails (`None`) where `decipher.final` throws. */
  datatype Aead = Aead(seal: (string, Iv, string) -> (string, string),
                       open: (string, string, string, string) -> Option<string>)

  /** The one fact the model takes from GCM: under a valid master key, opening what was sealed,
      with the IV that was used, gives the plaintext back; the tag is 16 bytes. */
  ghost predicate Sound(c: Aead) {
    forall key: string, iv: Iv, p: string | ValidMasterKey(key) ::
      c.open(key, c.seal(key, iv, p).0, ToHex(iv), c.seal(key, iv, p).1) == Some(p) && |c.seal(key, iv, p).1| == 32
  }

  /** encrypt: a fresh IV per call, returned in hex next to the ciphertext and the tag; `None`
      where `createCipheriv` throws for want of a 32-byte key. */
  function Encrypt(c: Aead, key: string, iv: Iv, plaintext: string): (r: Option<Sealed>)
    ensures r.Some? <==> ValidMasterKey(key)
    ensures r.Some? ==> |r.value.iv| == 24 && IsLowerHex(r.value.iv) && r.value.iv == ToHex(iv)
    ensures r.Some? && Sound(c) ==> Decrypt(c, key, r.value) == Some(plaintext) && |r.value.authTag| == 32
  {
    if !ValidMasterKey(key) then None
    else
      var (encrypted, authTag) := c.seal(key, iv, plaintext);
      Some(Sealed(encrypted, ToHex(iv), authTag))
  }

  /** decrypt: `None` where the library throws (a master key that is not 32 bytes, a wrong key,
      a tampered column, a bad tag). */
  function Decrypt(c: Aead, key: string, row: Sealed): Option<string> {
    if !ValidMasterKey(key) then None else c.open(key, row.encrypted, row.iv, row.authTag)
  }

  /** Two encryptions with different IVs store different `iv` columns. */
  lemma EncryptIvDistinct(c: Aead, key: string, iv1: Iv, iv2: Iv, p1: string, p2: string)
    requires iv1 != iv2
    ensures Encrypt(c, key, iv1, p1).Some? ==> Encrypt(c, key, iv1, p1).value.iv != Encrypt(c, key, iv2, p2).value.iv
  {
    if ToHex(iv1) == ToHex(iv2) {
      ToHexInjective(iv1, iv2);
    }
  }

  /** The environment variable is taken on its length alone: a 64-character text that is not
      hex is accepted as the master key, and then nothing can be sealed or opened. */
  lemma NonHexEnvKey(c: Aead, iv: Iv, p: string, row: Sealed)
    ensures var key := seq(64, _ => 'g');
      |key| == 64 && Encrypt(c, key, iv, p).None? && Decrypt(c, key, row).None?
  {
    var key := seq(64, _ => 'g');
    assert !IsHexChar(key[0]);
  }

  /** bcrypt: `hash(password, cost, salt)` is `hashSync` with the random salt drawn by the
      library, `compare(candidate, hash)` is `compareSync`. */
  datatype Hasher = Hasher(hash: (string, nat, string) -> string, compare: (string, string) -> bool)

  /** The routes hash with cost 12. */
  const BcryptCost := 12

  /** The fact the model takes from bcrypt: a password verifies against its own hash. */
  ghost predicate Verifies(h: Hasher) {
    forall p, cost, salt :: h.compare(p, h.hash(p, cost, salt))
  }
}
