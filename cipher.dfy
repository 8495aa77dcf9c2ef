/**
 * The symmetric OpenPGP encryption the script asks `gpg` for, reduced to
 * what the bootstrap relies on: the passphrase that sealed a file opens it,
 * any other passphrase fails, and every encryption yields a new ciphertext
 * (a fresh session key), even for the same plaintext.
 */
module Cipher {
  import opened Basics

  /**
   * The contents of a file: plain text, or an ASCII-armoured message holding the
   * passphrase it was sealed with, what it seals, and a number that makes
   * each encryption distinct.
   */
  datatype Content = Plain(text: string) | Armor(passphrase: string, sealed: Content, nonce: nat)

  /** `gpg --armor --symmetric` with passphrase `key`. */
  function Encrypt(key: string, plain: Content, nonce: nat): (r: Content)
    ensures r.Armor? && r.passphrase == key
  {
    Armor(key, plain, nonce)
  }

  /** `gpg --decrypt`: the sealed contents, or nothing when the passphrase is wrong or the file is not a message. */
  function Decrypt(key: string, c: Content): (r: Option<Content>)
    ensures r.Some? <==> c.Armor? && c.passphrase == key
  {
    if c.Armor? && c.passphrase == key then Some(c.sealed) else None
  }

  lemma DecryptEncrypt(key: string, plain: Content, nonce: nat)
    ensures Decrypt(key, Encrypt(key, plain, nonce)) == Some(plain)
  {
  }

  lemma WrongPassphraseFails(key: string, other: string, plain: Content, nonce: nat)
    requires other != key
    ensures Decrypt(other, Encrypt(key, plain, nonce)) == None
  {
  }

  /** Two encryptions with different nonces never produce the same ciphertext. */
  lemma EncryptionsDiffer(key: string, a: Content, b: Content, n: nat, m: nat)
    requires n != m
    ensures Encrypt(key, a, n) != Encrypt(key, b, m)
  {
  }
}
