/** The password hasher (bcrypt, called at services/auth-service/src/routes/auth.ts:24
    and :63). bcrypt's cipher is not modelled: a hash is the symbolic term that records
    the cost factor, the random salt and the plaintext it was computed from. What is
    modelled is which passwords `bcrypt.compare` accepts: bcrypt keys on the first 72
    bytes of the password's UTF-8 encoding, so two passwords match the same hash
    exactly when those key bytes agree. */
module Password {

  /** The cost factor passed to `bcrypt.hash(password, 10)`. */
  const SaltRounds: nat := 10

  /** bcrypt uses at most this many bytes of the password. */
  const MaxKeyBytes: nat := 72

  datatype PasswordHash = Bcrypt(cost: nat, salt: nat, preimage: string)

  /** The UTF-8 encoding of one character (a Unicode scalar value). */
  function Utf8Char(c: char): (b: seq<int>)
    ensures 1 <= |b| <= 4
  {
    var n := c as int;
    if n < 0x80 then [n]
    else if n < 0x800 then [0xC0 + n / 64, 0x80 + n % 64]
    else if n < 0x10000 then [0xE0 + n / 64 / 64, 0x80 + n / 64 % 64, 0x80 + n % 64]
    else [0xF0 + n / 64 / 64 / 64, 0x80 + n / 64 / 64 % 64, 0x80 + n / 64 % 64, 0x80 + n % 64]
  }

  /** The UTF-8 encoding of a string, as the bcrypt binding receives it. */
  function Utf8(s: string): seq<int> {
    if s == [] then [] else Utf8Char(s[0]) + Utf8(s[1..])
  }

  /** The bytes bcrypt actually keys on: the first 72 bytes of the UTF-8 encoding. */
  function Key(s: string): (k: seq<int>)
    ensures |k| <= MaxKeyBytes
    ensures |Utf8(s)| <= MaxKeyBytes ==> k == Utf8(s)
  {
    var b := Utf8(s);
    if |b| <= MaxKeyBytes then b else b[..MaxKeyBytes]
  }

  /** `bcrypt.compare(plain, h)`. */
  predicate Compare(plain: string, h: PasswordHash) {
    Key(plain) == Key(h.preimage)
  }

  /** `bcrypt.hash(plain, SaltRounds)` with the salt it drew at random: a hash that
      the same password matches. */
  function Hash(plain: string, salt: nat): (h: PasswordHash)
    ensures Compare(plain, h)
    ensures h.salt == salt
  {
    Bcrypt(SaltRounds, salt, plain)
  }

  /** A password matches its own hash, whatever the salt. */
  lemma CompareOwnHash(plain: string, salt: nat)
    ensures Compare(plain, Hash(plain, salt))
  {
  }

  lemma {:induction false} Utf8Append(a: string, b: string)
    ensures Utf8(a + b) == Utf8(a) + Utf8(b)
    decreases |a|
  {
    if a != [] {
      assert (a + b)[0] == a[0] && (a + b)[1..] == a[1..] + b;
      Utf8Append(a[1..], b);
    } else {
      assert a + b == b;
    }
  }

  lemma {:induction false} Utf8Length(s: string)
    ensures |s| <= |Utf8(s)| <= 4 * |s|
    decreases |s|
  {
    if s != [] {
      Utf8Length(s[1..]);
    }
  }

  /** The first byte of a character's encoding fixes how many bytes it has. */
  lemma Utf8LeadByte(c: char, d: char)
    requires Utf8Char(c)[0] == Utf8Char(d)[0]
    ensures |Utf8Char(c)| == |Utf8Char(d)|
  {
  }

  lemma Utf8CharInjective(c: char, d: char)
    requires Utf8Char(c) == Utf8Char(d)
    ensures c == d
  {
    var n, m := c as int, d as int;
    if n < 0x80 || m < 0x80 {
    } else if n < 0x800 || m < 0x800 {
      SameDigits(n, m);
    } else if n < 0x10000 || m < 0x10000 {
      SameDigits(n / 64, m / 64);
      SameDigits(n, m);
    } else {
      SameDigits(n / 64 / 64, m / 64 / 64);
      SameDigits(n / 64, m / 64);
      SameDigits(n, m);
    }
  }

  /** A number is fixed by its last base-64 digit and the digits above it. */
  lemma SameDigits(x: int, y: int)
    requires x / 64 == y / 64 && x % 64 == y % 64
    ensures x == y
  {
  }

  /** UTF-8 is injective: different strings have different encodings. */
  lemma {:induction false} Utf8Injective(a: string, b: string)
    requires Utf8(a) == Utf8(b)
    ensures a == b
    decreases |a|
  {
    if a != [] && b != [] {
      var ca, cb := Utf8Char(a[0]), Utf8Char(b[0]);
      assert Utf8(a) == ca + Utf8(a[1..]) && Utf8(b) == cb + Utf8(b[1..]);
      assert ca[0] == Utf8(a)[0] && cb[0] == Utf8(b)[0];
      Utf8LeadByte(a[0], b[0]);
      assert ca == Utf8(a)[..|ca|] && cb == Utf8(b)[..|cb|];
      Utf8CharInjective(a[0], b[0]);
      assert Utf8(a[1..]) == Utf8(a)[|ca|..] && Utf8(b[1..]) == Utf8(b)[|cb|..];
      Utf8Injective(a[1..], b[1..]);
      assert a == [a[0]] + a[1..] && b == [b[0]] + b[1..];
    } else {
      Utf8Length(a);
      Utf8Length(b);
    }
  }

  /** For passwords of at most 72 UTF-8 bytes, a hash accepts only the password it
      was computed from. */
  lemma CompareOnlyPreimage(plain: string, other: string, salt: nat)
    requires |Utf8(plain)| <= MaxKeyBytes && |Utf8(other)| <= MaxKeyBytes
    ensures Compare(other, Hash(plain, salt)) <==> other == plain
  {
    if Key(other) == Key(plain) {
      Utf8Injective(other, plain);
    }
  }

  /** Beyond 72 bytes bcrypt ignores the rest: a password whose encoding is at least
      72 bytes long is matched by every extension of it, which is a different password. */
  lemma LongPasswordsShareHash(plain: string, extra: string, salt: nat)
    requires |Utf8(plain)| >= MaxKeyBytes
    ensures Compare(plain + extra, Hash(plain, salt))
    ensures extra != [] ==> plain + extra != plain
  {
    Utf8Append(plain, extra);
    assert Utf8(plain + extra)[..MaxKeyBytes] == Utf8(plain)[..MaxKeyBytes];
    assert |plain + extra| == |plain| + |extra|;
  }

  /** The same password hashed with two different salts gives two different hashes. */
  lemma SaltsSeparateHashes(plain: string, salt1: nat, salt2: nat)
    requires salt1 != salt2
    ensures Hash(plain, salt1) != Hash(plain, salt2)
  {
  }
}
