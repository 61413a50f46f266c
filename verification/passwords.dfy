/**
 * The password utilities of the service: a salted bcrypt hash and its check.
 * Both keep only the first 72 bytes of the UTF-8 encoding of the password.
 *
 * bcrypt itself is modelled symbolically: a checksum is the term
 * `EksBlowfish(salt, key)`, so two checksums are equal exactly when their
 * salts and keys are (an ideal, collision-free hash). The one-way nature of
 * the real function is not part of this model.
 */
module Passwords {
  import opened Utf8
  import Schemas

  const KeyBytes := 72

  /** The cost and random salt bcrypt embeds in every hash; `gensalt()` supplies a fresh one. */
  type Salt = nat

  datatype Checksum = EksBlowfish(salt: Salt, key: seq<byte>)

  /** A stored hash: the salt it was made with, and the checksum. */
  datatype PasswordHash = PasswordHash(salt: Salt, checksum: Checksum)

  /** Python's `b[:72]`. */
  function Truncate(b: seq<byte>): (r: seq<byte>)
    ensures |r| == if |b| <= KeyBytes then |b| else KeyBytes
    ensures |r| <= |b| && r == b[..|r|]
    ensures |b| <= KeyBytes ==> r == b
  {
    if |b| <= KeyBytes then b else b[..KeyBytes]
  }

  /** `bcrypt.hashpw(key, salt)`. */
  function HashPw(key: seq<byte>, salt: Salt): PasswordHash
  {
    PasswordHash(salt, EksBlowfish(salt, key))
  }

  /** `bcrypt.checkpw(key, hashed)`: recompute with the embedded salt and compare. */
  predicate CheckPw(key: seq<byte>, hashed: PasswordHash)
  {
    HashPw(key, hashed.salt) == hashed
  }

  /** The bytes of a password that the hash actually sees. */
  function HashedBytes(password: string): seq<byte>
  {
    Truncate(Encode(password))
  }

  /** `get_password_hash`: a freshly salted hash of the first 72 bytes. */
  function GetPasswordHash(password: string, salt: Salt): (h: PasswordHash)
    ensures h.salt == salt
    ensures VerifyPassword(password, h)
  {
    HashPw(HashedBytes(password), salt)
  }

  /**
   * `verify_password`: the stored checksum must be bcrypt's checksum of the
   * embedded salt and the first 72 bytes of the plain password, so a hash of
   * a longer key never verifies.
   */
  predicate VerifyPassword(plain: string, hashed: PasswordHash)
    ensures VerifyPassword(plain, hashed) <==> hashed.checksum == EksBlowfish(hashed.salt, HashedBytes(plain))
    ensures VerifyPassword(plain, hashed) ==> |hashed.checksum.key| <= KeyBytes
  {
    CheckPw(HashedBytes(plain), hashed)
  }

  /** A password verifies against a hash exactly when the two agree on their first 72 bytes. */
  lemma VerifyHash(plain: string, password: string, salt: Salt)
    ensures VerifyPassword(plain, GetPasswordHash(password, salt)) <==> HashedBytes(plain) == HashedBytes(password)
  {
  }

  /** Two passwords equal on their first 72 bytes are interchangeable: same hash, same verdict. */
  lemma OnlyFirst72BytesMatter(p: string, q: string, hashed: PasswordHash, salt: Salt)
    requires Truncate(Encode(p)) == Truncate(Encode(q))
    ensures VerifyPassword(p, hashed) <==> VerifyPassword(q, hashed)
    ensures GetPasswordHash(p, salt) == GetPasswordHash(q, salt)
  {
  }

  /** Below the limit the check is exact: only the password itself verifies. */
  lemma ShortPasswordVerifiesExactly(plain: string, password: string, salt: Salt)
    requires |Encode(password)| < KeyBytes
    ensures VerifyPassword(plain, GetPasswordHash(password, salt)) <==> plain == password
  {
    if VerifyPassword(plain, GetPasswordHash(password, salt)) {
      assert Truncate(Encode(plain)) == Encode(password);
      assert Encode(plain) == Encode(password);
      EncodeInjective(plain, password);
    }
  }

  /** At or beyond the limit, anything appended to the password verifies too. */
  lemma LongPasswordAcceptsSuffix(password: string, suffix: string, salt: Salt)
    requires |Encode(password)| >= KeyBytes
    ensures VerifyPassword(password + suffix, GetPasswordHash(password, salt))
  {
    EncodeAppend(password, suffix);
    var e := Encode(password + suffix);
    assert e[..KeyBytes] == Encode(password)[..KeyBytes];
  }

  /**
   * For a password the registration policy accepted, the 72-byte cut is a
   * no-op: the hash sees the whole password.
   */
  lemma AcceptedPasswordHashedWhole(password: string)
    requires Schemas.ValidatePassword(password).Success?
    ensures HashedBytes(password) == Encode(password)
  {
    Schemas.AcceptedPasswordBytes(password);
  }
}
