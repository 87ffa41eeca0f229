/**
 * What TLS 1.2 puts on the wire and derives, written out byte by byte and
 * label by label, without the functions that the client computes with; and
 * the proof that those functions agree with it.
 */
module TlsWire {
  import opened ByteStrings
  import opened TlsCrypto

  // ------------------------------------------------- key material (RFC 5246)

  type Hash = (Bytes, Bytes) -> Bytes

  /** `hash` applied `n` times, starting from `inp`. */
  function Iterate(hash: Hash, secret: Bytes, inp: Bytes, n: nat): Bytes
    decreases n
  {
    if n == 0 then inp else Iterate(hash, secret, hash(secret, inp), n - 1)
  }

  lemma {:induction false} IterateIsA(hash: Hash, secret: Bytes, inp: Bytes, m: nat, n: nat)
    ensures Iterate(hash, secret, A(hash, secret, inp, m), n) == A(hash, secret, inp, m + n)
    decreases n
  {
    if n > 0 {
      IterateIsA(hash, secret, inp, m + 1, n - 1);
    }
  }

  /** Block `j` of P_hash: HMAC(secret, A(j + 1) + seed), where A(j + 1) is the seed hashed j + 1 times. */
  function Block(hash: Hash, secret: Bytes, seed: Bytes, j: nat): Bytes {
    hash(secret, Iterate(hash, secret, seed, j + 1) + seed)
  }

  lemma {:induction false} BlocksAt(hash: Hash, size: nat, secret: Bytes, seed: Bytes, n: nat, j: nat)
    requires Sized(hash, size) && j < n
    ensures j * size + size <= |Blocks(hash, secret, seed, n)|
    ensures Blocks(hash, secret, seed, n)[j * size..j * size + size] == Block(hash, secret, seed, j)
  {
    BlocksGrow(hash, size, secret, seed, j + 1, n);
    BlocksGrow(hash, size, secret, seed, j, j + 1);
    IterateIsA(hash, secret, seed, 0, j + 1);
    var upTo := Blocks(hash, secret, seed, j + 1);
    assert upTo == Blocks(hash, secret, seed, j) + Block(hash, secret, seed, j);
    assert j * size + size == (j + 1) * size;
    assert Blocks(hash, secret, seed, n)[..|upTo|] == upTo;
    assert upTo[j * size..] == Block(hash, secret, seed, j);
  }

  /** P_hash is one block after another: block `j` gives the bytes from `j * size` on. */
  lemma PHashIsBlocks(hash: Hash, size: nat, secret: Bytes, seed: Bytes, len: nat, j: nat, k: nat)
    requires Sized(hash, size) && k < size && j * size + k < len
    ensures |PHash(hash, secret, seed, len)| == len
    ensures PHash(hash, secret, seed, len)[j * size + k] == Block(hash, secret, seed, j)[k]
  {
    AtLeastOneByteEach(len, size);
    BlocksGrow(hash, size, secret, seed, len, len);
    var all := Blocks(hash, secret, seed, len);
    assert |all| >= len;
    if j >= len {
      AtLeastOneByteEach(j, size);
      assert false;
    }
    BlocksAt(hash, size, secret, seed, len, j);
    assert all[j * size..j * size + size][k] == all[j * size + k];
  }

  /** The first 48 bytes of P_SHA384, and the 48 after them. */
  function First48(c: Crypto, secret: Bytes, seed: Bytes): Bytes {
    c.hmac(secret, c.hmac(secret, seed) + seed)
  }

  function Next48(c: Crypto, secret: Bytes, seed: Bytes): Bytes {
    c.hmac(secret, c.hmac(secret, c.hmac(secret, seed)) + seed)
  }

  lemma TwoBlocks(c: Crypto, secret: Bytes, seed: Bytes, len: nat)
    requires Sized(c.hmac, 48) && len <= 96
    ensures |First48(c, secret, seed)| == 48 && |Next48(c, secret, seed)| == 48
    ensures PHash(c.hmac, secret, seed, len) == (First48(c, secret, seed) + Next48(c, secret, seed))[..len]
  {
    var two := First48(c, secret, seed) + Next48(c, secret, seed);
    var a1 := c.hmac(secret, seed);
    assert A(c.hmac, secret, seed, 1) == a1;
    assert A(c.hmac, secret, seed, 2) == c.hmac(secret, a1);
    assert Blocks(c.hmac, secret, seed, 1) == [] + First48(c, secret, seed) == First48(c, secret, seed);
    assert Blocks(c.hmac, secret, seed, 2) == two;
    EnoughBlocks(c.hmac, 48, secret, seed, 2, len);
  }

  function MasterSecret(c: Crypto, premaster: Bytes, client: Bytes, server: Bytes): Bytes {
    First48(c, premaster, Ascii("master secret") + (client + server))
  }

  /** 32 bytes for the client's key, 32 for the server's, then four for the salt of each. */
  function KeyMaterial(c: Crypto, master: Bytes, client: Bytes, server: Bytes): (block: Bytes)
    ensures Sized(c.hmac, 48) ==> |block| == 96
  {
    var seed := Ascii("key expansion") + (client + server);
    First48(c, master, seed) + Next48(c, master, seed)
  }

  function VerifyData(c: Crypto, master: Bytes, name: string, digest: Bytes): (data: Bytes)
    ensures Sized(c.hmac, 48) ==> |data| == 12
  {
    var full := First48(c, master, Ascii(name) + digest);
    if |full| < 12 then full else full[..12]
  }

  lemma LabelBytes()
    ensures Ascii("master secret") == [0x6d, 0x61, 0x73, 0x74, 0x65, 0x72, 0x20, 0x73, 0x65, 0x63, 0x72, 0x65, 0x74]
    ensures Ascii("key expansion") == [0x6b, 0x65, 0x79, 0x20, 0x65, 0x78, 0x70, 0x61, 0x6e, 0x73, 0x69, 0x6f, 0x6e]
    ensures Ascii("client finished")
         == [0x63, 0x6c, 0x69, 0x65, 0x6e, 0x74, 0x20, 0x66, 0x69, 0x6e, 0x69, 0x73, 0x68, 0x65, 0x64]
    ensures Ascii("server finished")
         == [0x73, 0x65, 0x72, 0x76, 0x65, 0x72, 0x20, 0x66, 0x69, 0x6e, 0x69, 0x73, 0x68, 0x65, 0x64]
  {
  }

  /** The client derives what TLS derives: client random first in both seeds, the client's half of the block first. */
  lemma DerivesAsTls(c: Crypto, premaster: Bytes, client: Bytes, server: Bytes)
    requires Lengths(c)
    ensures var master := MasterOf(c, premaster, client, server);
      var keys, block := KeysOf(c, master, client, server), KeyMaterial(c, master, client, server);
      && master == MasterSecret(c, premaster, client, server)
      && |block| == 96
      && keys.encrKey == block[..32] && keys.decrKey == block[32..64]
      && keys.encrIv == block[64..68] && keys.decrIv == block[68..72]
  {
    hide PHash, First48, Next48;
    TwoBlocks(c, premaster, Ascii("master secret") + (client + server), 48);
    var master := MasterOf(c, premaster, client, server);
    var first := First48(c, premaster, Ascii("master secret") + (client + server));
    assert (first + Next48(c, premaster, Ascii("master secret") + (client + server)))[..48] == first;
    KeysAsTls(c, master, client, server);
  }

  lemma KeysAsTls(c: Crypto, master: Bytes, client: Bytes, server: Bytes)
    requires Lengths(c)
    ensures var keys, block := KeysOf(c, master, client, server), KeyMaterial(c, master, client, server);
      && |block| == 96
      && keys.encrKey == block[..32] && keys.decrKey == block[32..64]
      && keys.encrIv == block[64..68] && keys.decrIv == block[68..72]
  {
    hide PHash, First48, Next48;
    TwoBlocks(c, master, Ascii("key expansion") + (client + server), 72);
    var keys, block := KeysOf(c, master, client, server), KeyMaterial(c, master, client, server);
    assert KeysFrom(keys, block[..72]);
    var want := Keys(block[..32], block[32..64], block[64..68], block[68..72]);
    assert want.encrKey + want.decrKey + want.encrIv + want.decrIv == block[..72];
    KeysAreUnique(keys, want, block[..72]);
  }

  lemma VerifiesAsTls(c: Crypto, master: Bytes, name: string, digest: Bytes)
    requires Lengths(c)
    ensures PrfOf(c, master, name, digest, 12) == VerifyData(c, master, name, digest)
    ensures |VerifyData(c, master, name, digest)| == 12
  {
    TwoBlocks(c, master, Ascii(name) + digest, 12);
    var first := First48(c, master, Ascii(name) + digest);
    assert (first + Next48(c, master, Ascii(name) + digest))[..12] == first[..12];
  }

  // --------------------------------------------- protected records (RFC 5288)

  /** Sequence number, type, version and length, all most significant byte first. */
  function AddData(s: word64, ct: byte, n: nat): Bytes {
    [(s / 0x100_0000_0000_0000) % 256, (s / 0x1_0000_0000_0000) % 256, (s / 0x100_0000_0000) % 256,
     (s / 0x1_0000_0000) % 256, (s / 0x100_0000) % 256, (s / 0x1_0000) % 256, (s / 0x100) % 256, s % 256,
     ct, 3, 3, (n / 256) % 256, n % 256]
  }

  /** The additional data is laid out as TLS lays it out. */
  lemma AadIsAddData(s: word64, ct: byte, n: nat)
    ensures Aad(s, ct, n) == AddData(s, ct, n)
  {
    Be8IsShifts(s);
  }

  function Protect(c: Crypto, key: Bytes, salt: Bytes, s: word64, ct: byte, nonce: Bytes8, plain: Bytes): Bytes {
    nonce + c.seal(key, salt + nonce, AddData(s, ct, |plain|), plain)
  }

  function Unprotect(c: Crypto, key: Bytes, salt: Bytes, s: word64, ct: byte, frag: Bytes): Option<Bytes> {
    if |frag| < 24 then None
    else c.open(key, salt + frag[..8], AddData(s, ct, |frag| - 24), frag[8..])
  }

  lemma ProtectsAsTls(c: Crypto, key: Bytes, salt: Bytes, s: word64, ct: byte, nonce: Bytes8, plain: Bytes)
    ensures GcmWrap(c, key, salt, s, ct, nonce, plain) == Protect(c, key, salt, s, ct, nonce, plain)
  {
    AadIsAddData(s, ct, |plain|);
  }

  lemma ProtectedLength(c: Crypto, key: Bytes, salt: Bytes, s: word64, ct: byte, nonce: Bytes8, plain: Bytes)
    requires Lengths(c)
    ensures |Protect(c, key, salt, s, ct, nonce, plain)| == |plain| + 24
  {
  }

  lemma UnprotectsAsTls(c: Crypto, key: Bytes, salt: Bytes, s: word64, ct: byte, frag: Bytes)
    ensures GcmUnwrap(c, key, salt, s, ct, frag) == Unprotect(c, key, salt, s, ct, frag)
  {
    if |frag| >= 24 {
      AadIsAddData(s, ct, |frag| - 24);
    }
  }

  // ------------------------------------------------------------- the messages

  type Signature = b: Bytes | |b| < 256

  /** ClientHello: version, random, session id 00 00 00 00 00 00 00, two suites, no compression, two extensions. */
  function HelloMsg(random: Bytes32): (m: Bytes)
    ensures |m| == 67
  {
    [0x01, 0, 0, 63, 3, 3] + random
    + [7, 0, 0, 0, 0, 0, 0, 0, 0x00, 0x04, 0xc0, 0x05, 0xc0, 0x2e, 0x00,
       0x00, 0x0a, 0x00, 0x04, 0x00, 0x02, 0x00, 0x17, 0x00, 0x0b, 0x00, 0x02, 0x01, 0x00]
  }

  /** Certificate: 408 bytes, twice the length 400, two zero bytes, and the vendor's certificate. */
  function CertMsg(cert: Bytes): Bytes {
    [0x0b, 0, 0x01, 0x98, 0, 0x01, 0x90, 0, 0x01, 0x90, 0, 0] + cert
  }

  /** ClientKeyExchange: an uncompressed point. */
  function KeyExchangeMsg(p: Point): Bytes {
    [0x10, 0, 0, 65, 4] + p.x + p.y
  }

  /** CertificateVerify: the bare signature. */
  function VerifyMsg(sig: Signature): Bytes {
    [0x0f, 0, 0, |sig|] + sig
  }

  function FinishedMessage(data: Bytes): Bytes {
    [0x14, 0, 0, 12] + data
  }

  /** A record around a body of less than 65536 bytes. */
  function RecordOf(ct: byte, body: Bytes): Bytes
    requires |body| < 65536
  {
    [ct, 3, 3, |body| / 256, |body| % 256] + body
  }
}
