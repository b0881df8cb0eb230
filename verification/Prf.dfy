/** The TLS pseudo-random function and key block: sections 5 and 6.3 of RFC 5246.
    HMAC-SHA256 is any function with 32-byte results, SHA-256 is any function. */
module Prf {
  import opened Bytes

  const HASH_SIZE: nat := 32

  type Mac = f: (Bytes, Bytes) -> Bytes | forall k, d :: |f(k, d)| == HASH_SIZE
    witness (k: Bytes, d: Bytes) => Zeros(HASH_SIZE)

  datatype Crypto = Crypto(hmac: Mac, sha256: Bytes -> Bytes)

  // ---------------------------------------------------------------- P_hash

  /** A(i) of the RFC. */
  function A(hmac: Mac, secret: Bytes, seed: Bytes, i: nat): Bytes {
    if i == 0 then seed else hmac(secret, A(hmac, secret, seed, i - 1))
  }

  /** The i-th block, counted from 0, of P_hash(secret, seed). */
  function Block(hmac: Mac, secret: Bytes, seed: Bytes, i: nat): Bytes {
    hmac(secret, A(hmac, secret, seed, i + 1) + seed)
  }

  /** The i-th byte of the infinite stream P_hash(secret, seed). */
  function StreamByte(hmac: Mac, secret: Bytes, seed: Bytes, i: nat): Byte {
    Block(hmac, secret, seed, i / HASH_SIZE)[i % HASH_SIZE]
  }

  /** The first n bytes of the stream. */
  function PHash(hmac: Mac, secret: Bytes, seed: Bytes, n: nat): (out: Bytes)
    ensures |out| == n
  {
    seq(n, i requires 0 <= i < n => StreamByte(hmac, secret, seed, i))
  }

  lemma NextBlock(hmac: Mac, secret: Bytes, seed: Bytes, k: nat)
    ensures PHash(hmac, secret, seed, (k + 1) * HASH_SIZE)
         == PHash(hmac, secret, seed, k * HASH_SIZE) + Block(hmac, secret, seed, k)
  {
    var longer := PHash(hmac, secret, seed, (k + 1) * HASH_SIZE);
    var sum := PHash(hmac, secret, seed, k * HASH_SIZE) + Block(hmac, secret, seed, k);
    forall i | 0 <= i < (k + 1) * HASH_SIZE ensures longer[i] == sum[i] {
      if i >= k * HASH_SIZE {
        var j := i - k * HASH_SIZE;
        assert i / HASH_SIZE == k && i % HASH_SIZE == j;
      }
    }
  }

  /** prf_p_hash returns exactly the first requestedLength bytes of the stream. */
  method PrfPHash(hmac: Mac, secret: Bytes, seed: Bytes, requestedLength: nat) returns (r: Bytes)
    ensures r == PHash(hmac, secret, seed, requestedLength)
  {
    var lastRound := seed;
    var out: Bytes := [];
    var iterations := (requestedLength + HASH_SIZE - 1) / HASH_SIZE;
    for k := 0 to iterations
      invariant lastRound == A(hmac, secret, seed, k)
      invariant out == PHash(hmac, secret, seed, k * HASH_SIZE)
    {
      lastRound := hmac(secret, lastRound);
      var withSecret := hmac(secret, lastRound + seed);
      NextBlock(hmac, secret, seed, k);
      out := out + withSecret;
    }
    return out[..requestedLength];
  }

  /** A shorter request is a prefix of a longer one. */
  lemma PHashPrefix(hmac: Mac, secret: Bytes, seed: Bytes, m: nat, n: nat)
    requires m <= n
    ensures PHash(hmac, secret, seed, n)[..m] == PHash(hmac, secret, seed, m)
  {
  }

  /** The first two blocks, written out from section 5 of RFC 5246. */
  function TwoBlocks(hmac: Mac, secret: Bytes, seed: Bytes): Bytes {
    hmac(secret, hmac(secret, seed) + seed) + hmac(secret, hmac(secret, hmac(secret, seed)) + seed)
  }

  lemma StartsWithTwoBlocks(hmac: Mac, secret: Bytes, seed: Bytes, n: nat)
    requires n <= 64
    ensures PHash(hmac, secret, seed, n) == TwoBlocks(hmac, secret, seed)[..n]
  {
    assert PHash(hmac, secret, seed, 0) == [];
    NextBlock(hmac, secret, seed, 0);
    NextBlock(hmac, secret, seed, 1);
    EmptyUnit(Block(hmac, secret, seed, 0));
    PHashPrefix(hmac, secret, seed, n, 64);
    assert A(hmac, secret, seed, 1) == hmac(secret, seed);
    assert A(hmac, secret, seed, 2) == hmac(secret, hmac(secret, seed));
  }

  // ---------------------------------------------------------------- labels

  const MASTER_SECRET: Bytes := [109, 97, 115, 116, 101, 114, 32, 115, 101, 99, 114, 101, 116]
  const EXTENDED_MASTER_SECRET: Bytes :=
    [101, 120, 116, 101, 110, 100, 101, 100, 32] + MASTER_SECRET
  const KEY_EXPANSION: Bytes := [107, 101, 121, 32, 101, 120, 112, 97, 110, 115, 105, 111, 110]
  const CLIENT_FINISHED: Bytes := [99, 108, 105, 101, 110, 116, 32, 102, 105, 110, 105, 115, 104, 101, 100]
  const SERVER_FINISHED: Bytes := [115, 101, 114, 118, 101, 114, 32, 102, 105, 110, 105, 115, 104, 101, 100]

  function MasterSecret(c: Crypto, preMaster: Bytes, clientRandom: Bytes, serverRandom: Bytes): Bytes {
    PHash(c.hmac, preMaster, MASTER_SECRET + clientRandom + serverRandom, 48)
  }

  function ExtendedMasterSecret(c: Crypto, preMaster: Bytes, sessionHash: Bytes): Bytes {
    PHash(c.hmac, preMaster, EXTENDED_MASTER_SECRET + sessionHash, 48)
  }

  function VerifyDataClient(c: Crypto, master: Bytes, bodies: Bytes): (v: Bytes)
    ensures |v| == 12
  {
    PHash(c.hmac, master, CLIENT_FINISHED + c.sha256(bodies), 12)
  }

  function VerifyDataServer(c: Crypto, master: Bytes, bodies: Bytes): (v: Bytes)
    ensures |v| == 12
  {
    PHash(c.hmac, master, SERVER_FINISHED + c.sha256(bodies), 12)
  }

  function Ascii(s: string): Bytes {
    seq(|s|, i requires 0 <= i < |s| => s[i] as int % 0x80)
  }

  lemma SecretLabels()
    ensures MASTER_SECRET == Ascii("master secret")
  {
  }

  lemma ExtendedLabel()
    ensures EXTENDED_MASTER_SECRET == Ascii("extended master secret")
  {
  }

  lemma ExpansionLabel()
    ensures KEY_EXPANSION == Ascii("key expansion")
  {
  }

  lemma ClientLabel()
    ensures CLIENT_FINISHED == Ascii("client finished")
  {
  }

  lemma ServerLabel()
    ensures SERVER_FINISHED == Ascii("server finished")
  {
  }

  /** The secrets and the verify data, from the label's text and the order of the seeds (sections
      6.3, 7.4.9 and 8.1 of RFC 5246, section 4 of RFC 7627). */
  lemma SecretsSpelledOut(c: Crypto, secret: Bytes, clientRandom: Bytes, serverRandom: Bytes, text: Bytes)
    ensures MasterSecret(c, secret, clientRandom, serverRandom)
         == TwoBlocks(c.hmac, secret, Ascii("master secret") + clientRandom + serverRandom)[..48]
    ensures ExtendedMasterSecret(c, secret, c.sha256(text))
         == TwoBlocks(c.hmac, secret, Ascii("extended master secret") + c.sha256(text))[..48]
    ensures VerifyDataClient(c, secret, text) == TwoBlocks(c.hmac, secret, Ascii("client finished") + c.sha256(text))[..12]
    ensures VerifyDataServer(c, secret, text) == TwoBlocks(c.hmac, secret, Ascii("server finished") + c.sha256(text))[..12]
    ensures KeyBlock(c, secret, clientRandom, serverRandom, 40)
         == TwoBlocks(c.hmac, secret, Ascii("key expansion") + serverRandom + clientRandom)[..40]
  {
    hide PHash, TwoBlocks, Ascii;
    SecretLabels();
    ExtendedLabel();
    ExpansionLabel();
    ClientLabel();
    ServerLabel();
    StartsWithTwoBlocks(c.hmac, secret, MASTER_SECRET + clientRandom + serverRandom, 48);
    StartsWithTwoBlocks(c.hmac, secret, EXTENDED_MASTER_SECRET + c.sha256(text), 48);
    StartsWithTwoBlocks(c.hmac, secret, CLIENT_FINISHED + c.sha256(text), 12);
    StartsWithTwoBlocks(c.hmac, secret, SERVER_FINISHED + c.sha256(text), 12);
    StartsWithTwoBlocks(c.hmac, secret, KEY_EXPANSION + serverRandom + clientRandom, 40);
  }

  // ---------------------------------------------------------------- key block

  datatype EncryptionKeys = EncryptionKeys(
    clientMacKey: Bytes, serverMacKey: Bytes,
    clientWriteKey: Bytes, serverWriteKey: Bytes,
    clientWriteIv: Bytes, serverWriteIv: Bytes)

  function KeyBlock(c: Crypto, master: Bytes, clientRandom: Bytes, serverRandom: Bytes, n: nat): Bytes {
    PHash(c.hmac, master, KEY_EXPANSION + serverRandom + clientRandom, n)
  }

  /** The six keys are consecutive slices of the key block, in the RFC's order. */
  predicate IsPartition(k: EncryptionKeys, block: Bytes, macLen: nat, keyLen: nat, ivLen: nat)
    requires |block| == 2 * macLen + 2 * keyLen + 2 * ivLen
  {
    var keys := 2 * macLen;
    var ivs := keys + 2 * keyLen;
    && k.clientMacKey == block[..macLen]
    && k.serverMacKey == block[macLen..keys]
    && k.clientWriteKey == block[keys..keys + keyLen]
    && k.serverWriteKey == block[keys + keyLen..ivs]
    && k.clientWriteIv == block[ivs..ivs + ivLen]
    && k.serverWriteIv == block[ivs + ivLen..]
  }

  lemma Consecutive(b: Bytes, i: nat, j: nat)
    requires i <= j <= |b|
    ensures b[..i] + b[i..j] == b[..j]
  {
  }

  /** Nothing of the key block is lost and nothing is used twice. */
  lemma PartitionLosesNothing(k: EncryptionKeys, block: Bytes, macLen: nat, keyLen: nat, ivLen: nat)
    requires |block| == 2 * macLen + 2 * keyLen + 2 * ivLen && IsPartition(k, block, macLen, keyLen, ivLen)
    ensures k.clientMacKey + k.serverMacKey + k.clientWriteKey + k.serverWriteKey + k.clientWriteIv + k.serverWriteIv
         == block
  {
    var keys := 2 * macLen;
    var ivs := keys + 2 * keyLen;
    Consecutive(block, macLen, keys);
    Consecutive(block, keys, keys + keyLen);
    Consecutive(block, keys + keyLen, ivs);
    Consecutive(block, ivs, ivs + ivLen);
    Consecutive(block, ivs + ivLen, |block|);
  }

  /** Splits the next part off what is left of the block. */
  method Take(material: Bytes, n: nat, ghost block: Bytes, ghost at: nat) returns (part: Bytes, rest: Bytes)
    requires at + n <= |block| && material == block[at..]
    ensures part == block[at..at + n] && rest == block[at + n..]
  {
    part, rest := material[..n], material[n..];
  }

  method PrfEncryptionKeys(c: Crypto, master: Bytes, clientRandom: Bytes, serverRandom: Bytes,
                           macLen: nat, keyLen: nat, ivLen: nat) returns (k: EncryptionKeys)
    ensures var n := 2 * macLen + 2 * keyLen + 2 * ivLen;
      IsPartition(k, KeyBlock(c, master, clientRandom, serverRandom, n), macLen, keyLen, ivLen)
  {
    hide PHash, Ascii;
    var seed := KEY_EXPANSION + serverRandom + clientRandom;
    var material := PrfPHash(c.hmac, master, seed, 2 * macLen + 2 * keyLen + 2 * ivLen);
    ghost var block := material;

    var clientMacKey, serverMacKey, clientWriteKey, serverWriteKey, clientWriteIv, serverWriteIv;
    ghost var keys := 2 * macLen;
    ghost var ivs := keys + 2 * keyLen;
    clientMacKey, material := Take(material, macLen, block, 0);
    serverMacKey, material := Take(material, macLen, block, macLen);
    clientWriteKey, material := Take(material, keyLen, block, keys);
    serverWriteKey, material := Take(material, keyLen, block, keys + keyLen);
    clientWriteIv, material := Take(material, ivLen, block, ivs);
    serverWriteIv := material[..ivLen];

    k := EncryptionKeys(clientMacKey, serverMacKey, clientWriteKey, serverWriteKey, clientWriteIv, serverWriteIv);
  }

  datatype CryptoGcm = CryptoGcm(localKey: Bytes, localWriteIv: Bytes, remoteKey: Bytes, remoteWriteIv: Bytes)

  const PRF_MAC_LEN: nat := 0
  const PRF_KEY_LEN: nat := 16
  const PRF_IV_LEN: nat := 4

  /** CipherSuiteAes128GcmSha256::init: which key goes to which direction. */
  method InitAes128Gcm(c: Crypto, master: Bytes, clientRandom: Bytes, serverRandom: Bytes, isClient: bool)
    returns (gcm: CryptoGcm)
    ensures exists k ::
              && IsPartition(k, KeyBlock(c, master, clientRandom, serverRandom, 40), PRF_MAC_LEN, PRF_KEY_LEN, PRF_IV_LEN)
              && gcm == if isClient
                        then CryptoGcm(k.clientWriteKey, k.clientWriteIv, k.serverWriteKey, k.serverWriteIv)
                        else CryptoGcm(k.serverWriteKey, k.serverWriteIv, k.clientWriteKey, k.clientWriteIv)
  {
    var k := PrfEncryptionKeys(c, master, clientRandom, serverRandom, PRF_MAC_LEN, PRF_KEY_LEN, PRF_IV_LEN);
    if isClient {
      gcm := CryptoGcm(k.clientWriteKey, k.clientWriteIv, k.serverWriteKey, k.serverWriteIv);
    } else {
      gcm := CryptoGcm(k.serverWriteKey, k.serverWriteIv, k.clientWriteKey, k.clientWriteIv);
    }
  }

  /** Two ends with the same secrets agree: what one writes with, the other reads with, and
      the two directions use disjoint parts of the key block. */
  method DirectionsAgree(c: Crypto, master: Bytes, clientRandom: Bytes, serverRandom: Bytes)
    returns (client: CryptoGcm, server: CryptoGcm)
    ensures client.localKey == server.remoteKey && client.localWriteIv == server.remoteWriteIv
    ensures client.remoteKey == server.localKey && client.remoteWriteIv == server.localWriteIv
    ensures client.localKey + client.remoteKey + client.localWriteIv + client.remoteWriteIv
         == KeyBlock(c, master, clientRandom, serverRandom, 40)
  {
    client := InitAes128Gcm(c, master, clientRandom, serverRandom, true);
    server := InitAes128Gcm(c, master, clientRandom, serverRandom, false);
    ghost var block := KeyBlock(c, master, clientRandom, serverRandom, 40);
    Consecutive(block, 16, 32);
    Consecutive(block, 32, 36);
    Consecutive(block, 36, 40);
  }
}
