/** The cryptographic collaborators of the vault, kept abstract.

    The vault encrypts passwords with Fernet and hashes the master
    passphrase with SHA-256. Neither algorithm is modelled: a cipher is any
    pair of functions, and the only property the vault relies on is that
    decryption under the same key undoes encryption. */
module Crypto {
  import opened Wrappers
  import Text

  /** The symmetric key kept in `secret.key`. */
  type Key = seq<bv8>

  /** The fresh randomness Fernet draws on every encryption (its IV and
      timestamp), passed in explicitly. */
  type Nonce = nat

  /** An encryption scheme: `encrypt` produces the token text stored in the
      vault; `decrypt` yields `None` where Fernet raises `InvalidToken`. */
  datatype Cipher = Cipher(
    encrypt: (Key, Nonce, string) -> string,
    decrypt: (Key, string) -> Option<string>)

  /** The one assumption made about the cipher: every token decrypts, under
      the key that made it, to the plaintext it was made from. */
  ghost predicate RoundTrips(c: Cipher) {
    forall k, n, p :: c.decrypt(k, c.encrypt(k, n, p)) == Some(p)
  }

  /** The round-trip assumption can be met, so lemmas that rely on it are
      not vacuous. */
  lemma RoundTripCipherExists()
    ensures exists c: Cipher :: RoundTrips(c)
  {
    var c := Cipher((k, n, p) => p, (k, t) => Some(t));
    assert RoundTrips(c);
  }

  predicate IsHexDigit(c: char) {
    '0' <= c <= '9' || 'a' <= c <= 'f'
  }

  /** What `hexdigest()` returns: lower-case hexadecimal text. */
  type HexDigest = s: string | forall i | 0 <= i < |s| :: IsHexDigit(s[i])

  /** The passphrase hash, `sha256(p.encode()).hexdigest()`, left abstract. */
  type Hasher = string -> HexDigest

  /** A digest has no surrounding whitespace, so reading the master file
      back with `.strip()` returns exactly the digest that was written. */
  lemma DigestSurvivesStrip(d: HexDigest)
    ensures Text.Strip(d) == d
  {
    Text.StripOfTrimmed(d);
  }
}
