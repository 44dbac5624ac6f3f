/**
 * The password encoder (BCryptPasswordEncoder) as a transparent model: an
 * encoding is a fixed BCrypt-style tag, one salt character and the password.
 * Only the properties the application relies on are claimed: the encoding is
 * never the plaintext, it verifies against exactly the password it encodes,
 * and two salts give two encodings of the same password.
 */
module Passwords {

  /** The random salt BCrypt draws on each encode; the caller supplies it. */
  type Salt = char

  const Tag: string := "$2a$10$"

  /** PasswordEncoder.encode */
  function Encode(raw: string, salt: Salt): (encoded: string)
    ensures encoded != raw
    ensures Matches(raw, encoded)
  {
    Tag + [salt] + raw
  }

  /** PasswordEncoder.matches: does the raw password verify against the stored encoding? */
  function Matches(raw: string, encoded: string): bool {
    |encoded| > |Tag| && encoded[..|Tag|] == Tag && encoded[|Tag| + 1..] == raw
  }

  /** A stored encoding accepts its own password and no other. */
  lemma MatchesOnlyEncodedPassword(candidate: string, raw: string, salt: Salt)
    ensures Matches(candidate, Encode(raw, salt)) <==> candidate == raw
  {
    var e := Encode(raw, salt);
    assert e[|Tag| + 1..] == raw;
  }

  /** Encoding is salted: the same password encoded twice with different salts differs. */
  lemma SaltedEncodingsDiffer(raw: string, salt: Salt, salt': Salt)
    requires salt != salt'
    ensures Encode(raw, salt) != Encode(raw, salt')
  {
    assert Encode(raw, salt)[|Tag|] == salt;
    assert Encode(raw, salt')[|Tag|] == salt';
  }
}
