// Padding, framing and lengths of the sealed payloads. The cipher, the MAC and the
// hash are parameters: only what the protocol relies on is assumed of them.
module Crypto {
  import opened Bytes
  import opened Wrappers

  const CIPHER_BLOCK_SIZE := 16
  const CIPHER_MAC_SIZE := 2
  const ACK_LEN := 4

  type Key = k: seq<Byte> | |k| == 32 witness Zeros(32)

  datatype Primitives = Primitives(
    encrypt: (Key, seq<Byte>) -> seq<Byte>,
    decrypt: (Key, seq<Byte>) -> seq<Byte>,
    mac: (Key, seq<Byte>) -> seq<Byte>,
    digest: seq<Byte> -> seq<Byte>
  ) {
    // The cipher permutes whole blocks, and the tags have their fixed lengths. Nothing
    // is assumed about collisions.
    ghost predicate Sound() {
      && (forall k: Key, p: seq<Byte> {:trigger encrypt(k, p)} :: |p| % CIPHER_BLOCK_SIZE == 0 ==>
           |encrypt(k, p)| == |p| && decrypt(k, encrypt(k, p)) == p)
      && (forall k: Key, c: seq<Byte> {:trigger mac(k, c)} :: |mac(k, c)| == CIPHER_MAC_SIZE)
      && (forall d: seq<Byte> {:trigger digest(d)} :: |digest(d)| == ACK_LEN)
    }

    // The 4-byte proof of receipt: the truncated hash of `data` followed by the peer's key.
    function AckHash(data: seq<Byte>, peer: Key): (checksum: seq<Byte>) {
      digest(data + peer)
    }

    function EncryptThenMac(secret: Key, plaintext: seq<Byte>): (sealed: seq<Byte>) {
      var ciphertext := encrypt(secret, plaintext + Zeros(Padding(|plaintext|)));
      mac(secret, ciphertext) + ciphertext
    }

    function MacThenDecrypt(secret: Key, payload: seq<Byte>): (r: Result<seq<Byte>, DecryptionError>) {
      if |payload| <= CIPHER_MAC_SIZE then Err(TooShort)
      else
        var tag, ciphertext := payload[..CIPHER_MAC_SIZE], payload[CIPHER_MAC_SIZE..];
        if |ciphertext| % CIPHER_BLOCK_SIZE != 0 then Err(NotBlocks)
        else if tag != mac(secret, ciphertext) then Err(MacMismatch)
        else Ok(decrypt(secret, ciphertext))
    }

    // What is sealed is the tag of the ciphertext and the ciphertext, of the plaintext with
    // the fewest zeros that fill its last block.
    lemma SealedExactly(secret: Key, plaintext: seq<Byte>, padding: nat)
      requires padding < 16 && (|plaintext| + padding) % 16 == 0
      ensures
        var ciphertext := encrypt(secret, plaintext + Zeros(padding));
        EncryptThenMac(secret, plaintext) == mac(secret, ciphertext) + ciphertext
    {
    }

    // Whole blocks under their own tag open, and nothing else does.
    lemma OpensExactly(secret: Key, payload: seq<Byte>)
      ensures
        MacThenDecrypt(secret, payload).Ok?
        <==> |payload| > 2 && (|payload| - 2) % 16 == 0 && payload[..2] == mac(secret, payload[2..])
      ensures MacThenDecrypt(secret, payload).Ok? ==> MacThenDecrypt(secret, payload).value == decrypt(secret, payload[2..])
    {
    }

    // Opening what was sealed gives the plaintext back, padded with zeros to a block.
    lemma OpenInvertsSeal(secret: Key, plaintext: seq<Byte>)
      requires Sound() && plaintext != []
      ensures MacThenDecrypt(secret, EncryptThenMac(secret, plaintext))
           == Ok(plaintext + Zeros(Padding(|plaintext|)))
    {
      var padded := plaintext + Zeros(Padding(|plaintext|));
      var ciphertext := encrypt(secret, padded);
      var sealed := mac(secret, ciphertext) + ciphertext;
      assert sealed[..CIPHER_MAC_SIZE] == mac(secret, ciphertext);
      assert sealed[CIPHER_MAC_SIZE..] == ciphertext;
    }
  }

  datatype DecryptionError = TooShort | NotBlocks | MacMismatch

  // `-n % CIPHER_BLOCK_SIZE`, Python's modulus being non-negative.
  function Padding(n: nat): (p: nat)
    ensures p < CIPHER_BLOCK_SIZE && (n + p) % CIPHER_BLOCK_SIZE == 0
  {
    (0 - n) % CIPHER_BLOCK_SIZE
  }

  function SealedLength(n: nat): (len: nat) {
    CIPHER_MAC_SIZE + n + Padding(n)
  }

  lemma SealedLengthIs(prim: Primitives, secret: Key, plaintext: seq<Byte>)
    requires prim.Sound()
    ensures |prim.EncryptThenMac(secret, plaintext)| == SealedLength(|plaintext|)
  {
    var padded := plaintext + Zeros(Padding(|plaintext|));
    assert |prim.encrypt(secret, padded)| == |padded|;
  }
}
