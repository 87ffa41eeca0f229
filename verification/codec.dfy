/** The certificate and pairing codecs: fixed layouts with little-endian curve values. */
module PairingCodec {
  import opened ByteStrings

  const FIELD: nat := 68
  const CERT_LEN: nat := 400
  const PAIRING_LEN: nat := 868

  datatype Cert = Cert(certType: byte, pubX: Bytes32, pubY: Bytes32, signSize: word16, signature: Bytes256)

  datatype Pairing = Pairing(priv: Bytes32, host: Cert, sensor: Cert)

  // ------------------------------------------------------------ curve values

  /** What a little-endian field says, as 32 big-endian bytes; None when it is too large. */
  function FieldValue(le: Bytes): Option<Bytes32>
    requires |le| >= 32
  {
    if forall i :: 32 <= i < |le| ==> le[i] == 0 then Some(Reverse(le[..32])) else None
  }

  function FieldBytes(be: Bytes32): (le: Bytes)
    ensures |le| == FIELD
  {
    Reverse(be) + Zeros(36)
  }

  /** A field is accepted exactly when its value is below 2^256, and keeps its value. */
  lemma FieldKeepsValue(le: Bytes)
    requires |le| >= 32
    ensures FieldValue(le).Some? <==> LeValue(le) < Pow256(32)
    ensures FieldValue(le).Some? ==> BeValue(FieldValue(le).value) == LeValue(le)
  {
    LeValueBound(le, 32);
    ReverseValue(le[..32]);
  }

  lemma FieldRoundTrip(be: Bytes32, le: Bytes)
    requires |le| == FIELD
    ensures FieldValue(FieldBytes(be)) == Some(be)
    ensures FieldValue(le).Some? ==> FieldBytes(FieldValue(le).value) == le
  {
    assert FieldBytes(be)[..32] == Reverse(be);
    assert Reverse(Reverse(be)) == be;
    if FieldValue(le).Some? {
      assert Reverse(Reverse(le[..32])) == le[..32];
      assert le == le[..32] + le[32..];
      assert le[32..] == Zeros(36);
    }
  }

  method LeFieldToBe32(buf: array<byte>, at: nat) returns (r: Option<Bytes32>)
    requires at + FIELD <= buf.Length
    ensures r == FieldValue(buf[at..at + FIELD])
  {
    ghost var le := buf[at..at + FIELD];
    var i := 32;
    while i < FIELD
      invariant 32 <= i <= FIELD
      invariant forall j :: 32 <= j < i ==> le[j] == 0
    {
      assert buf[at + i] == le[i];
      if buf[at + i] != 0 {
        return None;
      }
      i := i + 1;
    }
    var out := new byte[32](k => 0);
    i := 0;
    while i < 32
      invariant 0 <= i <= 32
      invariant forall j :: 0 <= j < i ==> out[j] == le[31 - j]
    {
      out[i] := buf[at + 31 - i];
      i := i + 1;
    }
    assert out[..] == Reverse(le[..32]);
    r := Some(out[..]);
  }

  method Be32ToLeField(be: Bytes32, buf: array<byte>, at: nat)
    requires at + FIELD <= buf.Length
    modifies buf
    ensures buf[at..at + FIELD] == FieldBytes(be)
    ensures forall i :: 0 <= i < buf.Length && !(at <= i < at + FIELD) ==> buf[i] == old(buf[i])
  {
    forall i | at <= i < at + FIELD {
      buf[i] := 0;
    }
    var i := 0;
    while i < 32
      invariant 0 <= i <= 32
      invariant forall j :: at <= j < at + i ==> buf[j] == be[31 - (j - at)]
      invariant forall j :: at + i <= j < at + FIELD ==> buf[j] == 0
      invariant forall j :: 0 <= j < buf.Length && !(at <= j < at + FIELD) ==> buf[j] == old(buf[j])
    {
      buf[at + i] := be[31 - i];
      i := i + 1;
    }
    assert forall j :: at <= j < at + FIELD ==> buf[j] == FieldBytes(be)[j - at];
  }

  // ------------------------------------------------------------- certificates

  function CertBytes(cert: Cert): (b: Bytes)
    ensures |b| == CERT_LEN
  {
    [0x3f, 0x5f, 23, 0] + FieldBytes(cert.pubX) + FieldBytes(cert.pubY)
    + [0, cert.certType, cert.signSize % 256, cert.signSize / 256] + cert.signature
  }

  function ParseCert(b: Bytes): Option<Cert>
    requires |b| == CERT_LEN
  {
    if Le16At(b, 0) != 0x5f3f || Le16At(b, 2) != 23 then None
    else
      match (FieldValue(b[4..72]), FieldValue(b[72..140]))
      case (Some(x), Some(y)) =>
        if Le16At(b, 142) > 256 then None
        else Some(Cert(b[141], x, y, Le16At(b, 142), b[144..400]))
      case _ => None
  }

  lemma FirstFour(b: Bytes)
    requires |b| >= 4
    ensures b[..4] == [0x3f, 0x5f, 23, 0] <==> Le16At(b, 0) == 0x5f3f && Le16At(b, 2) == 23
  {
    assert b[..4] == [b[0], b[1], b[2], b[3]];
  }

  /** What is accepted: magic and curve, both coordinates below 2^256, a signature that fits. */
  lemma CertAcceptedIff(b: Bytes)
    requires |b| == CERT_LEN
    ensures ParseCert(b).Some? <==>
              && b[..4] == [0x3f, 0x5f, 23, 0]
              && LeValue(b[4..72]) < Pow256(32) && LeValue(b[72..140]) < Pow256(32)
              && Le16At(b, 142) <= 256
    ensures ParseCert(b).Some? ==>
              BeValue(ParseCert(b).value.pubX) == LeValue(b[4..72])
              && BeValue(ParseCert(b).value.pubY) == LeValue(b[72..140])
  {
    hide FieldValue, LeValue, BeValue, Pow256;
    FieldKeepsValue(b[4..72]);
    FieldKeepsValue(b[72..140]);
    FirstFour(b);
  }

  lemma CertSlices(cert: Cert)
    ensures var b := CertBytes(cert);
            b[..4] == [0x3f, 0x5f, 23, 0] && b[4..72] == FieldBytes(cert.pubX) && b[72..140] == FieldBytes(cert.pubY)
            && b[140..144] == [0, cert.certType, cert.signSize % 256, cert.signSize / 256]
            && b[144..400] == cert.signature
  {
    var head, x, y := [0x3f, 0x5f, 23, 0], FieldBytes(cert.pubX), FieldBytes(cert.pubY);
    var mid := [0, cert.certType, cert.signSize % 256, cert.signSize / 256];
    assert (head + x + y + mid + cert.signature)[144..400] == cert.signature;
    assert (head + x + y + mid)[140..144] == mid;
  }

  /** A serialized certificate parses to itself exactly when its signature fits. */
  lemma CertRoundTrip(cert: Cert)
    ensures ParseCert(CertBytes(cert)) == if cert.signSize <= 256 then Some(cert) else None
  {
    var b := CertBytes(cert);
    CertSlices(cert);
    FieldRoundTrip(cert.pubX, FieldBytes(cert.pubX));
    FieldRoundTrip(cert.pubY, FieldBytes(cert.pubY));
    assert b[0] == b[..4][0] && b[1] == b[..4][1] && b[2] == b[..4][2] && b[3] == b[..4][3];
    assert b[141] == b[140..144][1] && b[142] == b[140..144][2] && b[143] == b[140..144][3];
  }

  /** Serializing a parsed certificate gives the input back, except that the pad byte is zeroed. */
  lemma CertBackAgain(b: Bytes)
    requires |b| == CERT_LEN && ParseCert(b).Some?
    ensures CertBytes(ParseCert(b).value) == b[140 := 0]
  {
    var cert := ParseCert(b).value;
    CertSlices(cert);
    FieldRoundTrip(cert.pubX, b[4..72]);
    FieldRoundTrip(cert.pubY, b[72..140]);
    var z := b[140 := 0];
    assert z == z[..4] + z[4..72] + z[72..140] + z[140..144] + z[144..400];
    assert z[..4] == [0x3f, 0x5f, 23, 0];
    assert z[4..72] == b[4..72] && z[72..140] == b[72..140] && z[144..400] == b[144..400];
    assert z[140..144] == [0, cert.certType, cert.signSize % 256, cert.signSize / 256];
  }

  // ---------------------------------------------------- the format, field by field

  lemma {:induction false} BeValueInjective(a: Bytes, b: Bytes)
    requires |a| == |b|
    ensures BeValue(a) == BeValue(b) <==> a == b
    decreases |a|
  {
    if a != [] {
      var n := |a| - 1;
      BeValueInjective(a[..n], b[..n]);
      assert a == a[..n] + [a[n]] && b == b[..n] + [b[n]];
    }
  }

  /** A coordinate or a scalar: a number below 2^256 in 68 bytes, least significant first. */
  predicate IsField(le: Bytes, be: Bytes32) {
    |le| == 68 && LeValue(le) == BeValue(be)
  }

  /** These 400 bytes are this certificate. Byte 140 is not looked at. */
  predicate IsCert(b: Bytes, cert: Cert) {
    && |b| == 400
    && b[0] == 0x3f && b[1] == 0x5f && b[2] == 23 && b[3] == 0
    && IsField(b[4..72], cert.pubX) && IsField(b[72..140], cert.pubY)
    && cert.certType == b[141]
    && cert.signSize == (b[142] as nat) + 256 * (b[143] as nat) <= 256
    && cert.signature == b[144..400]
  }

  /** These 868 bytes are this pairing: the scalar, the host's certificate, the sensor's certificate. */
  predicate IsPairing(b: Bytes, p: Pairing) {
    |b| == 868 && IsField(b[..68], p.priv) && IsCert(b[68..468], p.host) && IsCert(b[468..868], p.sensor)
  }

  lemma {:induction false} BeValueBound(b: Bytes)
    ensures BeValue(b) < Pow256(|b|)
    decreases |b|
  {
    if b != [] {
      BeValueBound(b[..|b| - 1]);
    }
  }

  lemma FieldIff(le: Bytes, be: Bytes32)
    requires |le| == FIELD
    ensures FieldValue(le) == Some(be) <==> IsField(le, be)
  {
    FieldKeepsValue(le);
    BeValueBound(be);
    if FieldValue(le).Some? {
      BeValueInjective(FieldValue(le).value, be);
    }
  }

  /** Parsing reads the format, and nothing else. */
  lemma CertReadIff(b: Bytes, cert: Cert)
    requires |b| == 400
    ensures ParseCert(b) == Some(cert) <==> IsCert(b, cert)
  {
    hide FieldValue, IsField;
    FieldIff(b[4..72], cert.pubX);
    FieldIff(b[72..140], cert.pubY);
    FirstFour(b);
  }

  lemma PairingReadIff(b: Bytes, p: Pairing)
    requires |b| == 868
    ensures ParsePairing(b) == Some(p) <==> IsPairing(b, p)
  {
    hide FieldValue, IsField, ParseCert, IsCert;
    FieldIff(b[..68], p.priv);
    CertReadIff(b[68..468], p.host);
    CertReadIff(b[468..868], p.sensor);
  }

  method CertParse(buf: array<byte>, at: nat) returns (r: Option<Cert>)
    requires at + CERT_LEN <= buf.Length
    ensures r == ParseCert(buf[at..at + CERT_LEN])
  {
    ghost var b := buf[at..at + CERT_LEN];
    assert buf[at + 4..at + 72] == b[4..72] && buf[at + 72..at + 140] == b[72..140];
    var magic := (buf[at] as int) + 256 * (buf[at + 1] as int);
    var curve := (buf[at + 2] as int) + 256 * (buf[at + 3] as int);
    if magic != 0x5f3f || curve != 23 {
      return None;
    }
    var x := LeFieldToBe32(buf, at + 4);
    if x.None? {
      return None;
    }
    var y := LeFieldToBe32(buf, at + 72);
    if y.None? {
      return None;
    }
    var signSize := (buf[at + 142] as int) + 256 * (buf[at + 143] as int);
    if signSize > 256 {
      return None;
    }
    assert buf[at + 144..at + 400] == b[144..400];
    r := Some(Cert(buf[at + 141], x.value, y.value, signSize, buf[at + 144..at + 400]));
  }

  /** The first 140 bytes: magic, curve and the two coordinates. */
  method CertSerializeKey(cert: Cert, buf: array<byte>, at: nat)
    requires at + 140 <= buf.Length
    modifies buf
    ensures buf[at..at + 140] == [0x3f, 0x5f, 23, 0] + FieldBytes(cert.pubX) + FieldBytes(cert.pubY)
    ensures forall i :: 0 <= i < buf.Length && !(at <= i < at + 140) ==> buf[i] == old(buf[i])
  {
    buf[at], buf[at + 1], buf[at + 2], buf[at + 3] := 0x3f, 0x5f, 23, 0;
    Be32ToLeField(cert.pubX, buf, at + 4);
    label x:
    Be32ToLeField(cert.pubY, buf, at + 72);
    assert forall i :: at <= i < at + 72 ==> buf[i] == old@x(buf[i]);
    assert buf[at..at + 4] == [0x3f, 0x5f, 23, 0];
    assert buf[at + 4..at + 72] == old@x(buf[at + 4..at + 72]);
    assert buf[at..at + 140] == buf[at..at + 4] + buf[at + 4..at + 72] + buf[at + 72..at + 140];
  }

  method CertSerialize(cert: Cert, buf: array<byte>, at: nat)
    requires at + CERT_LEN <= buf.Length
    modifies buf
    ensures buf[at..at + CERT_LEN] == CertBytes(cert)
    ensures forall i :: 0 <= i < buf.Length && !(at <= i < at + CERT_LEN) ==> buf[i] == old(buf[i])
  {
    forall i | at <= i < at + CERT_LEN {
      buf[i] := 0;
    }
    CertSerializeKey(cert, buf, at);
    label key:
    buf[at + 141] := cert.certType;
    buf[at + 142] := cert.signSize % 256;
    buf[at + 143] := cert.signSize / 256;
    forall i | at + 144 <= i < at + 400 {
      buf[i] := cert.signature[i - (at + 144)];
    }
    assert forall i :: at <= i < at + 140 ==> buf[i] == old@key(buf[i]);
    assert buf[at..at + 140] == old@key(buf[at..at + 140]);
    assert buf[at + 140..at + 144] == [0, cert.certType, cert.signSize % 256, cert.signSize / 256];
    assert buf[at + 144..at + 400] == cert.signature;
    assert buf[at..at + CERT_LEN] == buf[at..at + 140] + buf[at + 140..at + 144] + buf[at + 144..at + 400];
  }

  // ------------------------------------------------------------------ pairings

  function PairingBytes(p: Pairing): (b: Bytes)
    ensures |b| == PAIRING_LEN
  {
    FieldBytes(p.priv) + CertBytes(p.host) + CertBytes(p.sensor)
  }

  function ParsePairing(b: Bytes): Option<Pairing>
    requires |b| == PAIRING_LEN
  {
    match (FieldValue(b[..68]), ParseCert(b[68..468]), ParseCert(b[468..868]))
    case (Some(priv), Some(host), Some(sensor)) => Some(Pairing(priv, host, sensor))
    case _ => None
  }

  lemma PairingSlices(p: Pairing)
    ensures var b := PairingBytes(p);
            b[..68] == FieldBytes(p.priv) && b[68..468] == CertBytes(p.host) && b[468..868] == CertBytes(p.sensor)
  {
  }

  /** A saved pairing loads to itself exactly when both signatures fit. */
  lemma PairingRoundTrip(p: Pairing)
    ensures ParsePairing(PairingBytes(p))
         == if p.host.signSize <= 256 && p.sensor.signSize <= 256 then Some(p) else None
  {
    PairingSlices(p);
    FieldRoundTrip(p.priv, FieldBytes(p.priv));
    CertRoundTrip(p.host);
    CertRoundTrip(p.sensor);
  }

  /** Saving a loaded pairing gives the file back, except for the two zeroed pad bytes. */
  lemma PairingBackAgain(b: Bytes)
    requires |b| == PAIRING_LEN && ParsePairing(b).Some?
    ensures PairingBytes(ParsePairing(b).value) == b[208 := 0][608 := 0]
  {
    var p := ParsePairing(b).value;
    FieldRoundTrip(p.priv, b[..68]);
    CertBackAgain(b[68..468]);
    CertBackAgain(b[468..868]);
    var z := b[208 := 0][608 := 0];
    assert z == z[..68] + z[68..468] + z[468..868];
    assert z[..68] == b[..68];
    assert z[68..468] == b[68..468][140 := 0];
    assert z[468..868] == b[468..868][140 := 0];
  }

  method PairingLoad(buf: array<byte>) returns (r: Option<Pairing>)
    requires buf.Length == PAIRING_LEN
    ensures r == ParsePairing(buf[..])
  {
    ghost var b := buf[..];
    assert buf[0..68] == b[..68] && buf[68..468] == b[68..468] && buf[468..868] == b[468..868];
    var priv := LeFieldToBe32(buf, 0);
    if priv.None? {
      return None;
    }
    var host := CertParse(buf, 68);
    if host.None? {
      return None;
    }
    var sensor := CertParse(buf, 468);
    if sensor.None? {
      return None;
    }
    r := Some(Pairing(priv.value, host.value, sensor.value));
  }

  method PairingSave(p: Pairing, buf: array<byte>)
    requires buf.Length == PAIRING_LEN
    modifies buf
    ensures buf[..] == PairingBytes(p)
  {
    forall i | 0 <= i < buf.Length {
      buf[i] := 0;
    }
    Be32ToLeField(p.priv, buf, 0);
    label priv:
    CertSerialize(p.host, buf, 68);
    assert buf[0..68] == old@priv(buf[0..68]);
    label host:
    CertSerialize(p.sensor, buf, 468);
    assert buf[0..68] == old@host(buf[0..68]) && buf[68..468] == old@host(buf[68..468]);
    assert buf[..] == buf[0..68] + buf[68..468] + buf[468..868];
  }
}
