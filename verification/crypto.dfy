/**
 * The cryptographic core: the primitives as unknown functions with stated
 * laws, and everything the driver builds around them.
 */
module TlsCrypto {
  import opened ByteStrings

  datatype Point = Point(x: Bytes32, y: Bytes32)

  /** The foreign primitives. `seal` and `open` work on ciphertext ‖ tag. */
  datatype Crypto = Crypto(
    sha256: Bytes -> Bytes,
    hmac: (Bytes, Bytes) -> Bytes,
    pub: Bytes32 -> Option<Point>,
    ecdh: (Bytes32, Point) -> Option<Bytes>,
    sign: (Bytes32, Bytes, Bytes) -> Option<Bytes>,
    seal: (Bytes, Bytes, Bytes, Bytes) -> Bytes,
    open: (Bytes, Bytes, Bytes, Bytes) -> Option<Bytes>)

  /** Every digest of `hash` has `size` bytes. */
  ghost predicate Sized(hash: (Bytes, Bytes) -> Bytes, size: nat) {
    forall k, m :: |hash(k, m)| == size
  }

  /** The tag takes 16 bytes, and a P-256 signature in DER at most 72. */
  ghost predicate Lengths(c: Crypto) {
    && Sized(c.hmac, 48)
    && (forall k, iv, aad, p :: |c.seal(k, iv, aad, p)| == |p| + 16)
    && (forall k, d, r :: c.sign(k, d, r).Some? ==> |c.sign(k, d, r).value| <= 72)
  }

  ghost predicate OpenUndoesSeal(c: Crypto) {
    forall k, iv, aad, p :: c.open(k, iv, aad, c.seal(k, iv, aad, p)) == Some(p)
  }

  /** Two parties that exchange public points agree. */
  ghost predicate EcdhAgrees(c: Crypto) {
    forall a, b :: c.pub(a).Some? && c.pub(b).Some? ==>
      c.ecdh(a, c.pub(b).value).Some? && c.ecdh(a, c.pub(b).value) == c.ecdh(b, c.pub(a).value)
  }

  ghost predicate Lawful(c: Crypto) {
    Lengths(c) && OpenUndoesSeal(c) && EcdhAgrees(c)
  }

  /** What was sealed with one additional data does not open with another of the same length. */
  ghost predicate SealBinds(c: Crypto) {
    forall k, iv, aad, other, p :: |aad| == |other| == 13 && aad != other ==>
      c.open(k, iv, other, c.seal(k, iv, aad, p)) == None
  }

  /** A toy instance, whose tag is the additional data: it shows that the laws do not contradict each other. */
  function ToyTag(aad: Bytes): (tag: Bytes)
    ensures |tag| == 16
  {
    if |aad| == 13 then aad + Zeros(3) else Zeros(16)
  }

  function ToySeal(key: Bytes, iv: Bytes, aad: Bytes, plain: Bytes): Bytes {
    plain + ToyTag(aad)
  }

  function ToyOpen(key: Bytes, iv: Bytes, aad: Bytes, x: Bytes): Option<Bytes> {
    if |x| < 16 || x[|x| - 16..] != ToyTag(aad) then None else Some(x[..|x| - 16])
  }

  function Toy(): Crypto {
    Crypto(m => Zeros(32), (k, m) => Zeros(48), (k: Bytes32) => Some(Point(k, k)), (k, p) => Some(Zeros(32)),
           (k, d, r) => Some(Zeros(70)), ToySeal, ToyOpen)
  }

  lemma LawsHaveAModel()
    ensures Lawful(Toy()) && SealBinds(Toy())
  {
    forall k, iv, aad, p ensures ToyOpen(k, iv, aad, ToySeal(k, iv, aad, p)) == Some(p) {
      Cut(p, ToyTag(aad));
    }
    forall k, iv, aad, other, p | |aad| == |other| == 13 && aad != other
      ensures ToyOpen(k, iv, other, ToySeal(k, iv, aad, p)) == None
    {
      Cut(p, ToyTag(aad));
      Cut(aad, Zeros(3));
      Cut(other, Zeros(3));
    }
    assert SealBinds(Toy());
    assert OpenUndoesSeal(Toy());
    assert Lengths(Toy());
    assert EcdhAgrees(Toy());
  }

  // ------------------------------------------------------------------- the PRF

  /** A(i) of RFC 5246 section 5. */
  function A(hash: (Bytes, Bytes) -> Bytes, secret: Bytes, inp: Bytes, i: nat): Bytes {
    if i == 0 then inp else hash(secret, A(hash, secret, inp, i - 1))
  }

  /** The first `n` blocks of P_hash. */
  function Blocks(hash: (Bytes, Bytes) -> Bytes, secret: Bytes, inp: Bytes, n: nat): Bytes {
    if n == 0 then [] else Blocks(hash, secret, inp, n - 1) + hash(secret, A(hash, secret, inp, n) + inp)
  }

  /** The first `len` bytes of P_hash; `len` blocks are more than enough. */
  function PHash(hash: (Bytes, Bytes) -> Bytes, secret: Bytes, inp: Bytes, len: nat): (r: Bytes)
    ensures |r| <= len
  {
    var blocks := Blocks(hash, secret, inp, len);
    blocks[..Min(len, |blocks|)]
  }

  lemma {:induction false} BlocksGrow(hash: (Bytes, Bytes) -> Bytes, size: nat, secret: Bytes, inp: Bytes,
        m: nat, n: nat)
    requires Sized(hash, size) && m <= n
    ensures Blocks(hash, secret, inp, m) <= Blocks(hash, secret, inp, n)
    ensures |Blocks(hash, secret, inp, n)| == n * size
    decreases n
  {
    if n > 0 {
      BlocksGrow(hash, size, secret, inp, Min(m, n - 1), n - 1);
      assert (n - 1) * size + size == n * size;
    }
  }

  lemma AtLeastOneByteEach(n: nat, size: nat)
    requires size > 0
    ensures n * size >= n
  {
  }

  /** Any number of blocks that reaches `len` gives the same bytes. */
  lemma EnoughBlocks(hash: (Bytes, Bytes) -> Bytes, size: nat, secret: Bytes, inp: Bytes, n: nat, len: nat)
    requires Sized(hash, size) && size > 0 && |Blocks(hash, secret, inp, n)| >= len
    ensures |PHash(hash, secret, inp, len)| == len
    ensures Blocks(hash, secret, inp, n)[..len] == PHash(hash, secret, inp, len)
  {
    AtLeastOneByteEach(len, size);
    BlocksGrow(hash, size, secret, inp, Min(n, len), n);
    BlocksGrow(hash, size, secret, inp, Min(n, len), len);
    BlocksGrow(hash, size, secret, inp, Min(n, len), Max(n, len));
    BlocksGrow(hash, size, secret, inp, n, Max(n, len));
    BlocksGrow(hash, size, secret, inp, len, Max(n, len));
  }

  /** A longer output extends a shorter one. */
  lemma PHashPrefix(hash: (Bytes, Bytes) -> Bytes, size: nat, secret: Bytes, inp: Bytes, short: nat, long: nat)
    requires Sized(hash, size) && size > 0 && short <= long
    ensures |PHash(hash, secret, inp, long)| == long
    ensures PHash(hash, secret, inp, long)[..short] == PHash(hash, secret, inp, short)
  {
    AtLeastOneByteEach(long, size);
    BlocksGrow(hash, size, secret, inp, long, long);
    EnoughBlocks(hash, size, secret, inp, long, long);
    EnoughBlocks(hash, size, secret, inp, long, short);
  }

  /** The PRF loop fills any buffer with the first bytes of P_hash. */
  method Prf(hash: (Bytes, Bytes) -> Bytes, ghost size: nat, secret: Bytes, name: Bytes, salt: Bytes, out: array<byte>)
    requires Sized(hash, size) && size > 0
    modifies out
    ensures out[..] == PHash(hash, secret, name + salt, out.Length)
  {
    var inp := name + salt;
    var a := hash(secret, inp);
    var done := 0;
    ghost var i := 0;
    while done < out.Length
      invariant a == A(hash, secret, inp, i + 1)
      invariant done == Min(|Blocks(hash, secret, inp, i)|, out.Length)
      invariant out[..done] == Blocks(hash, secret, inp, i)[..done]
      decreases out.Length - done
    {
      var block := hash(secret, a + inp);
      var n := Min(|block|, out.Length - done);
      ghost var before := out[..done];
      forall k | 0 <= k < n {
        out[done + k] := block[k];
      }
      assert out[..done + n] == before + block[..n];
      done := done + n;
      a := hash(secret, a);
      i := i + 1;
    }
    EnoughBlocks(hash, size, secret, inp, i, out.Length);
    assert out[..] == out[..done];
  }

  function PrfOf(c: Crypto, secret: Bytes, name: string, salt: Bytes, len: nat): Bytes {
    PHash(c.hmac, secret, Ascii(name) + salt, len)
  }

  // ---------------------------------------------------------- key derivation

  datatype Keys = Keys(encrKey: Bytes, decrKey: Bytes, encrIv: Bytes, decrIv: Bytes)

  function MasterOf(c: Crypto, premaster: Bytes, cr: Bytes, sr: Bytes): Bytes {
    PrfOf(c, premaster, "master secret", cr + sr, 48)
  }

  function KeyBlock(c: Crypto, master: Bytes, cr: Bytes, sr: Bytes): Bytes {
    PrfOf(c, master, "key expansion", cr + sr, 72)
  }

  lemma PrfLength(c: Crypto, secret: Bytes, name: string, salt: Bytes, len: nat)
    requires Lengths(c)
    ensures |PrfOf(c, secret, name, salt, len)| == len
  {
    var inp := Ascii(name) + salt;
    BlocksGrow(c.hmac, 48, secret, inp, len, len);
    EnoughBlocks(c.hmac, 48, secret, inp, len, len);
  }

  /** The key material of both directions: the four fields are what the key block splits into. */
  ghost predicate KeysFrom(keys: Keys, block: Bytes) {
    && |keys.encrKey| == 32 && |keys.decrKey| == 32 && |keys.encrIv| == 4 && |keys.decrIv| == 4
    && keys.encrKey + keys.decrKey + keys.encrIv + keys.decrIv == block
  }

  lemma KeysAreUnique(a: Keys, b: Keys, block: Bytes)
    requires KeysFrom(a, block) && KeysFrom(b, block)
    ensures a == b
  {
    forall k: Keys | KeysFrom(k, block)
      ensures k.encrKey == block[..32] && k.decrKey == block[32..64]
      ensures k.encrIv == block[64..68] && k.decrIv == block[68..]
    {
    }
  }

  function KeysOf(c: Crypto, master: Bytes, cr: Bytes, sr: Bytes): (keys: Keys)
    requires Lengths(c)
    ensures KeysFrom(keys, KeyBlock(c, master, cr, sr))
  {
    var block := KeyBlock(c, master, cr, sr);
    PrfLength(c, master, "key expansion", cr + sr, 72);
    assert block == block[..32] + block[32..64] + block[64..68] + block[68..];
    Keys(block[..32], block[32..64], block[64..68], block[68..])
  }

  method DeriveMasterSecret(c: Crypto, premaster: Bytes, cr: Bytes32, sr: Bytes32) returns (master: Bytes)
    requires Lengths(c)
    ensures master == MasterOf(c, premaster, cr, sr) && |master| == 48
  {
    var out := new byte[48](i => 0);
    Prf(c.hmac, 48, premaster, Ascii("master secret"), cr + sr, out);
    master := out[..];
  }

  method DeriveKeys(c: Crypto, master: Bytes, cr: Bytes32, sr: Bytes32) returns (keys: Keys)
    requires Lengths(c)
    ensures keys == KeysOf(c, master, cr, sr)
  {
    var block := new byte[72](i => 0);
    Prf(c.hmac, 48, master, Ascii("key expansion"), cr + sr, block);
    keys := Keys(block[0..32], block[32..64], block[64..68], block[68..72]);
    assert block[..] == block[0..32] + block[32..64] + block[64..68] + block[68..72];
    KeysAreUnique(keys, KeysOf(c, master, cr, sr), block[..]);
  }

  // -------------------------------------------------------------- AEAD framing

  /** The additional data of a record: sequence number, type, version, length (16 bits). */
  function Aad(s: word64, ct: byte, n: nat): (aad: Bytes)
    ensures |aad| == 13
  {
    Be(s, 8) + [ct, 3, 3] + Be16(n)
  }

  method BuildAad(s: word64, ct: byte, n: nat, aad: array<byte>)
    requires aad.Length == 13
    modifies aad
    ensures aad[..] == Aad(s, ct, n)
  {
    aad[0] := (s / 0x100_0000_0000_0000) % 256;
    aad[1] := (s / 0x1_0000_0000_0000) % 256;
    aad[2] := (s / 0x100_0000_0000) % 256;
    aad[3] := (s / 0x1_0000_0000) % 256;
    aad[4] := (s / 0x100_0000) % 256;
    aad[5] := (s / 0x1_0000) % 256;
    aad[6] := (s / 0x100) % 256;
    aad[7] := s % 256;
    aad[8], aad[9], aad[10] := ct, 3, 3;
    aad[11], aad[12] := (n / 256) % 256, n % 256;
    Be8IsShifts(s);
  }

  lemma Be8IsShifts(s: word64)
    ensures Be(s, 8) ==
      [(s / 0x100_0000_0000_0000) % 256, (s / 0x1_0000_0000_0000) % 256, (s / 0x100_0000_0000) % 256,
       (s / 0x1_0000_0000) % 256, (s / 0x100_0000) % 256, (s / 0x1_0000) % 256, (s / 0x100) % 256, s % 256]
  {
    var s1 := s / 0x100;
    var s2 := s1 / 0x100;
    var s3 := s2 / 0x100;
    var s4 := s3 / 0x100;
    var s5 := s4 / 0x100;
    var s6 := s5 / 0x100;
    var s7 := s6 / 0x100;
    assert s2 == s / 0x1_0000 && s3 == s / 0x100_0000 && s4 == s / 0x1_0000_0000;
    assert s5 == s / 0x100_0000_0000 && s6 == s / 0x1_0000_0000_0000 && s7 == s / 0x100_0000_0000_0000;
    assert Be(s7, 1) == [s7 % 256];
    assert Be(s6, 2) == [s7 % 256, s6 % 256];
    assert Be(s5, 3) == [s7 % 256, s6 % 256, s5 % 256];
    assert Be(s4, 4) == [s7 % 256, s6 % 256, s5 % 256, s4 % 256];
    assert Be(s3, 5) == [s7 % 256, s6 % 256, s5 % 256, s4 % 256, s3 % 256];
    assert Be(s2, 6) == [s7 % 256, s6 % 256, s5 % 256, s4 % 256, s3 % 256, s2 % 256];
    assert Be(s1, 7) == [s7 % 256, s6 % 256, s5 % 256, s4 % 256, s3 % 256, s2 % 256, s1 % 256];
  }

  /** The additional data names the record: only the length is cut, to 16 bits. */
  lemma AadIdentifies(s: word64, ct: byte, n: nat, s': word64, ct': byte, n': nat)
    ensures Aad(s, ct, n) == Aad(s', ct', n') <==> s == s' && ct == ct' && n % U16 == n' % U16
  {
    var a, a' := Aad(s, ct, n), Aad(s', ct', n');
    assert a[..8] == Be(s, 8) && a'[..8] == Be(s', 8);
    assert a[8] == ct && a'[8] == ct';
    assert a[11..] == Be16(n) && a'[11..] == Be16(n');
    if a == a' {
      assert Pow256(8) == U64;
      BeInjective(s, s', 8);
      assert Be16(n)[0] == Be16(n')[0] && Be16(n)[1] == Be16(n')[1];
    }
    Be16Low(n, n');
  }

  lemma Be16Low(n: nat, n': nat)
    ensures Be16(n) == Be16(n') <==> n % U16 == n' % U16
  {
    hide Be16;
    Be16Value(n);
    Be16Value(n');
  }

  /** The two bytes are the number modulo 2^16. */
  lemma Be16Value(n: nat)
    ensures Be16(n) == [n % U16 / 256, n % U16 % 256]
  {
    var q, r := n / U16, n % U16;
    assert n == q * 256 * 256 + r;
    assert n / 256 == q * 256 + r / 256;
  }

  /** The fragment of an encrypted record: explicit nonce, ciphertext, tag (RFC 5288 section 3). */
  function GcmWrap(c: Crypto, key: Bytes, iv: Bytes, s: word64, ct: byte, nonce: Bytes8, plain: Bytes): Bytes {
    nonce + c.seal(key, iv + nonce, Aad(s, ct, |plain|), plain)
  }

  function GcmUnwrap(c: Crypto, key: Bytes, iv: Bytes, s: word64, ct: byte, frag: Bytes): Option<Bytes> {
    if |frag| < 24 then None
    else c.open(key, iv + frag[..8], Aad(s, ct, |frag| - 24), frag[8..])
  }

  /** Unwrapping undoes wrapping, for the same key, sequence number and type. */
  lemma UnwrapUndoesWrap(c: Crypto, key: Bytes, iv: Bytes, s: word64, ct: byte, nonce: Bytes8, plain: Bytes)
    requires Lengths(c) && OpenUndoesSeal(c)
    ensures |GcmWrap(c, key, iv, s, ct, nonce, plain)| == |plain| + 24
    ensures GcmUnwrap(c, key, iv, s, ct, GcmWrap(c, key, iv, s, ct, nonce, plain)) == Some(plain)
  {
    var sealed := c.seal(key, iv + nonce, Aad(s, ct, |plain|), plain);
    var frag := nonce + sealed;
    assert |sealed| == |plain| + 16;
    assert frag[..8] == nonce && frag[8..] == sealed;
  }
}
