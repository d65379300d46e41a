/** A stand-in for the BCrypt calls the controller makes
    (`HashPassword` when storing, `Verify` when logging in).

    A hash is the salt followed by a digest of the password.  The salt is
    random in the real library, so here it is a parameter.  The digest is
    modelled as the password itself: the model keeps only what the
    controller relies on, namely that `Verify(p, Hash(p, s))` holds, that
    it holds for no other password, and that a hash is never the
    plaintext. */
module Hashing {

  /** Length of a BCrypt salt in its encoded form. */
  const SaltLength: nat := 22

  type Salt = s: string | |s| == SaltLength witness "abcdefghijklmnopqrstuv"

  /** Hashing with a given salt: the hash checks against its own password
      and differs from it. */
  function Hash(password: string, salt: Salt): (h: string)
    ensures Verify(password, h)
    ensures h != password
  {
    salt + password
  }

  /** True iff `h` is a hash of `password` under some salt.  A string of
      the wrong shape fails verification instead of raising an error. */
  predicate Verify(password: string, h: string)
  {
    |h| == SaltLength + |password| && h[SaltLength..] == password
  }

  /** Verification succeeds exactly on the hashes of that password. */
  lemma VerifyIffHashed(password: string, h: string)
    ensures Verify(password, h) <==> exists s: Salt :: h == Hash(password, s)
  {
    if Verify(password, h) {
      var s: Salt := h[..SaltLength];
      assert h == s + h[SaltLength..];
      assert h == Hash(password, s);
    }
  }

  /** A hash verifies no password other than the one it was made from. */
  lemma VerifyOnlyOwnPassword(password: string, other: string, salt: Salt)
    requires Verify(other, Hash(password, salt))
    ensures other == password
  {
    assert Hash(password, salt)[SaltLength..] == password;
  }

  /** Hashing the same password with two different salts gives two
      different hashes. */
  lemma SaltedHashesDiffer(password: string, s1: Salt, s2: Salt)
    requires s1 != s2
    ensures Hash(password, s1) != Hash(password, s2)
  {
    assert Hash(password, s1)[..SaltLength] == s1;
    assert Hash(password, s2)[..SaltLength] == s2;
  }
}
