/** Password truncation, hashing and verifying (camp44/core/security.py). */
module Password {
  import opened Wrappers
  import opened Utf8

  const BCRYPT_LIMIT := 72

  /** The text that reaches bcrypt; nothing when the password holds a surrogate, which Python
      refuses to encode. */
  function Truncate(password: seq<CodePoint>): Option<seq<CodePoint>> {
    if Encodable(password) then Some(DecodeIgnoring(Cut(Encode(password), BCRYPT_LIMIT))) else None
  }

  /** bcrypt, idealised: the digest determines the salt and the hashed text. */
  datatype Digest = Bcrypt(salt: nat, text: seq<CodePoint>)

  /** `get_password_hash`. */
  function HashPassword(password: seq<CodePoint>, salt: nat): Option<Digest> {
    match Truncate(password)
    case Some(text) => Some(Bcrypt(salt, text))
    case None => None
  }

  /** `verify_password`; nothing when it raises. */
  function VerifyPassword(password: seq<CodePoint>, digest: Digest): Option<bool> {
    match Truncate(password)
    case Some(text) => Some(Bcrypt(digest.salt, text) == digest)
    case None => None
  }

  /** Truncation keeps the longest prefix, cut between characters, that encodes to at most 72 bytes. */
  lemma TruncationIsLongestPrefix(password: seq<CodePoint>)
    requires Encodable(password)
    ensures Truncate(password).Some?
    ensures var text := Truncate(password).value;
            && text <= password
            && forall k: nat | k <= |password| :: |Encode(password[..k])| <= BCRYPT_LIMIT <==> k <= |text|
  {
    DecodeCut(password, BCRYPT_LIMIT);
    forall k: nat | k <= |password|
      ensures |Encode(password[..k])| <= BCRYPT_LIMIT <==> k <= Fitting(password, BCRYPT_LIMIT)
    {
      FittingIsLongest(password, BCRYPT_LIMIT, k);
    }
  }

  /** Truncating twice is truncating once, and a password that fits is left alone. */
  lemma TruncationIsIdempotent(password: seq<CodePoint>)
    requires Encodable(password)
    ensures Truncate(password).Some? && Truncate(Truncate(password).value) == Truncate(password)
    ensures |Encode(password)| <= BCRYPT_LIMIT <==> Truncate(password) == Some(password)
  {
    TruncationIsLongestPrefix(password);
    var text := Truncate(password).value;
    assert password[..|text|] == text && password[..|password|] == password;
    TruncationIsLongestPrefix(text);
    assert text[..|text|] == text;
  }

  /** A longer password loses at most one character's worth of the limit: 69 to 72 bytes remain. */
  lemma TruncationKeepsAlmostAll(password: seq<CodePoint>)
    requires Encodable(password) && |Encode(password)| > BCRYPT_LIMIT
    ensures Truncate(password).Some? && 69 <= |Encode(Truncate(password).value)| <= 72
  {
    TruncationIsLongestPrefix(password);
    var k := |Truncate(password).value|;
    assert password[..|password|] == password;
    assert Truncate(password).value == password[..k];
    EncodedOneLonger(password, k);
  }

  /** A password verifies against a hash exactly when both have the same truncation; in particular
      it verifies against its own. */
  lemma VerifiesIffSameTruncation(password: seq<CodePoint>, other: seq<CodePoint>, salt: nat)
    requires Encodable(password) && Encodable(other)
    ensures HashPassword(password, salt).Some?
    ensures VerifyPassword(other, HashPassword(password, salt).value)
            == Some(password[..Fitting(password, BCRYPT_LIMIT)] == other[..Fitting(other, BCRYPT_LIMIT)])
    ensures VerifyPassword(password, HashPassword(password, salt).value) == Some(true)
  {
    DecodeCut(password, BCRYPT_LIMIT);
    DecodeCut(other, BCRYPT_LIMIT);
  }
}
