/** Bytes, byte strings and the integer encodings that the wire formats share. */
module ByteStrings {

  type byte = b: int | 0 <= b < 256

  type Bytes = seq<byte>

  datatype Option<+T> = None | Some(value: T)

  const U16: int := 0x1_0000
  const U24: int := 0x100_0000
  const U64: int := 0x1_0000_0000_0000_0000

  function Min(a: int, b: int): int {
    if a <= b then a else b
  }

  function Max(a: int, b: int): int {
    if a >= b then a else b
  }

  lemma Associates<T>(x: seq<T>, y: seq<T>, z: seq<T>)
    ensures x + (y + z) == x + y + z
  {
  }

  lemma Cut<T>(head: seq<T>, tail: seq<T>)
    ensures (head + tail)[..|head|] == head && (head + tail)[|head|..] == tail
  {
  }

  function Zeros(n: nat): (z: Bytes)
    ensures |z| == n && forall i :: 0 <= i < n ==> z[i] == 0
  {
    seq(n, i => 0)
  }

  function Be16(n: nat): Bytes {
    [(n / 256) % 256, n % 256]
  }

  function Be24(n: nat): Bytes {
    [(n / 65536) % 256, (n / 256) % 256, n % 256]
  }

  /** The little-endian 16-bit word at offset `i`. */
  function Le16At(b: Bytes, i: nat): (v: nat)
    requires i + 2 <= |b|
    ensures v < U16
  {
    (b[i] as nat) + 256 * (b[i + 1] as nat)
  }

  /** The status word that begins a reply of the sensor; 0 if the reply is too short to hold one. */
  function StatusOf(reply: Bytes): nat
    ensures StatusOf(reply) < U16
  {
    if |reply| >= 2 then Le16At(reply, 0) else 0
  }

  type Bytes8 = b: Bytes | |b| == 8 witness Zeros(8)
  type Bytes16 = b: Bytes | |b| == 16 witness Zeros(16)
  type Bytes32 = b: Bytes | |b| == 32 witness Zeros(32)
  type Bytes256 = b: Bytes | |b| == 256 witness Zeros(256)
  type word16 = n: nat | n < U16
  type word64 = n: nat | n < U64

  /** C's increment of a 64-bit counter. */
  function Next64(n: word64): word64 {
    if n == U64 - 1 then 0 else n + 1
  }

  function Reverse(b: Bytes): (r: Bytes)
    ensures |r| == |b| && forall i :: 0 <= i < |b| ==> r[i] == b[|b| - 1 - i]
  {
    seq(|b|, i requires 0 <= i < |b| => b[|b| - 1 - i])
  }

  function Pow256(k: nat): (p: nat)
    ensures p > 0
  {
    if k == 0 then 1 else 256 * Pow256(k - 1)
  }

  /** The value of a little-endian byte string. */
  function LeValue(b: Bytes): nat {
    if b == [] then 0 else (b[0] as nat) + 256 * LeValue(b[1..])
  }

  /** The value of a big-endian byte string. */
  function BeValue(b: Bytes): nat {
    if b == [] then 0 else 256 * BeValue(b[..|b| - 1]) + (b[|b| - 1] as nat)
  }

  lemma {:induction false} ReverseValue(b: Bytes)
    ensures BeValue(Reverse(b)) == LeValue(b)
    decreases |b|
  {
    if b != [] {
      ReverseValue(b[1..]);
      assert Reverse(b)[..|b| - 1] == Reverse(b[1..]);
    }
  }

  /** A little-endian string stays below 256^k exactly when nothing is set from byte k on. */
  lemma {:induction false} LeValueBound(b: Bytes, k: nat)
    requires k <= |b|
    ensures LeValue(b) < Pow256(k) <==> forall i :: k <= i < |b| ==> b[i] == 0
    ensures LeValue(b) < Pow256(k) ==> LeValue(b) == LeValue(b[..k])
    decreases |b|
  {
    if b == [] {
    } else if k > 0 {
      LeValueBound(b[1..], k - 1);
      assert b[..k][1..] == b[1..][..k - 1];
      assert (forall i :: k - 1 <= i < |b[1..]| ==> b[1..][i] == 0) <==> forall i :: k <= i < |b| ==> b[i] == 0 by {
        if forall i :: k - 1 <= i < |b[1..]| ==> b[1..][i] == 0 {
          forall i | k <= i < |b| ensures b[i] == 0 {
            assert b[1..][i - 1] == 0;
          }
        }
      }
    } else {
      LeValueBound(b[1..], 0);
      if LeValue(b) < 1 {
        forall i | 0 <= i < |b| ensures b[i] == 0 {
          if i > 0 {
            assert b[1..][i - 1] == 0;
          }
        }
      }
      if forall i :: 0 <= i < |b| ==> b[i] == 0 {
        assert forall i :: 0 <= i < |b[1..]| ==> b[1..][i] == b[i + 1];
      }
    }
  }

  /** The low `k` bytes of a number, most significant first. */
  function Be(n: nat, k: nat): (b: Bytes)
    ensures |b| == k
  {
    if k == 0 then [] else Be(n / 256, k - 1) + [n % 256]
  }

  lemma {:induction false} BeInjective(n: nat, m: nat, k: nat)
    requires n < Pow256(k) && m < Pow256(k) && Be(n, k) == Be(m, k)
    ensures n == m
  {
    if k > 0 {
      assert Be(n, k)[k - 1] == n % 256 && Be(m, k)[k - 1] == m % 256;
      assert Be(n, k)[..k - 1] == Be(n / 256, k - 1) && Be(m, k)[..k - 1] == Be(m / 256, k - 1);
      BeInjective(n / 256, m / 256, k - 1);
    }
  }

  /** ASCII text as bytes. */
  function Ascii(s: string): (b: Bytes)
    ensures |b| == |s|
  {
    seq(|s|, i requires 0 <= i < |s| => if s[i] < 128 as char then s[i] as byte else 0)
  }
}
