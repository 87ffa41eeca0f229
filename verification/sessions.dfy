/** Whole runs of a channel: when it is established, what that rests on, and how its counters move. */
module Sessions {
  import opened ByteStrings
  import opened TlsCrypto
  import opened TlsWire
  import opened PairingCodec
  import opened Records
  import opened Channel
  import opened Handshake

  // ------------------------------------------------------------- one handshake

  /** What the driver's functions print is what the format says. */
  lemma MessagesAsTls(random: Bytes32, p: Pairing, point: Point, sig: Signature, data: Bytes)
    ensures ClientHello(random) == HelloMsg(random)
    ensures Certificate(p) == CertMsg(CertBytes(p.host))
    ensures KeyExchange(point) == KeyExchangeMsg(point)
    ensures CertVerify(sig) == VerifyMsg(sig)
    ensures |data| == 12 ==> PrintMsg(HsMsg(0x14, data)) == FinishedMessage(data)
  {
    hide ClientHello, HelloMsg, CertBytes;
    HelloMsgAsTls(random);
  }

  lemma HelloMsgAsTls(random: Bytes32)
    ensures ClientHello(random) == HelloMsg(random)
  {
    var head, behind := [3, 3] + random,
      [7, 0, 0, 0, 0, 0, 0, 0, 0x00, 0x04, 0xc0, 0x05, 0xc0, 0x2e, 0x00,
       0x00, 0x0a, 0x00, 0x04, 0x00, 0x02, 0x00, 0x17, 0x00, 0x0b, 0x00, 0x02, 0x01, 0x00];
    HelloBodyAsTls(random, behind);
    Associates([0x01, 0, 0, 63], head, behind);
    Associates([0x01, 0, 0, 63], [3, 3], random);
    assert [0x01, 0, 0, 63] + [3, 3] == [0x01, 0, 0, 63, 3, 3];
    assert [0x01] + Be24(63) == [0x01, 0, 0, 63];
  }

  lemma HelloBodyAsTls(random: Bytes32, behind: Bytes)
    requires behind ==
      [7, 0, 0, 0, 0, 0, 0, 0, 0x00, 0x04, 0xc0, 0x05, 0xc0, 0x2e, 0x00,
       0x00, 0x0a, 0x00, 0x04, 0x00, 0x02, 0x00, 0x17, 0x00, 0x0b, 0x00, 0x02, 0x01, 0x00]
    ensures ClientHelloBody(random) == [3, 3] + random + behind && |ClientHelloBody(random)| == 63
  {
    var head := [3, 3] + random;
    var session: Bytes, suites: Bytes := [7, 0, 0, 0, 0, 0, 0, 0], [0x00, 0x04, 0xc0, 0x05, 0xc0, 0x2e];
    var curves: Bytes, formats: Bytes :=
      [0x00, 0x0a, 0x00, 0x04, 0x00, 0x02, 0x00, 0x17], [0x00, 0x0b, 0x00, 0x02, 0x01, 0x00];
    Associates(head, session, suites);
    Associates(head, session + suites, [0]);
    Associates(head, session + suites + [0], curves);
    Associates(head, session + suites + [0] + curves, formats);
    assert session + suites + [0] + curves + formats == behind;
  }

  lemma RecordAsTls(ct: byte, body: Bytes)
    requires |body| < 65536
    ensures WriteRecord(ct, body) == RecordOf(ct, body)
  {
  }

  /** Everything that client and sensor have in common when the client sends its second request. */
  datatype Facts = Facts(stream: Bytes, random: Bytes32, point: Point, sig: Signature, premaster: Bytes)

  function FirstRequest(d: Draws): Bytes {
    RecordOf(0x16, HelloMsg(d.clientRandom))
  }

  /** The first reply holds these handshake bytes, a well-formed flight, whose last ServerHello has this random. */
  ghost predicate Heard(resp: Bytes, r0: Bytes32, stream: Bytes, random: Bytes32) {
    && StreamOf(resp) == Some(stream) && SplitMsgs(stream).Some?
    && FlightOk(SplitMsgs(stream).value) && LastRandom(SplitMsgs(stream).value, r0, random)
  }

  /** What the client signs: the transcript up to its key exchange. */
  function Signed(s: Chan, d: Draws, p: Pairing, stream: Bytes, point: Point): Bytes {
    s.transcript + HelloMsg(d.clientRandom) + stream + CertMsg(CertBytes(p.host)) + KeyExchangeMsg(point)
  }

  /** The client gets as far as its second request, and these are the facts. */
  ghost predicate Agreed(c: Crypto, io: Io, s: Chan, d: Draws, f: Facts) {
    && s.pairing.Some? && io(s.sent + [FirstRequest(d)]).Some?
    && Heard(io(s.sent + [FirstRequest(d)]).value, s.serverRandom, f.stream, f.random)
    && var p := s.pairing.value;
    && c.pub(d.ephPriv) == Some(f.point)
    && c.sign(p.priv, c.sha256(Signed(s, d, p, f.stream, f.point)), d.sigNonce) == Some(f.sig)
    && c.ecdh(d.ephPriv, Point(p.sensor.pubX, p.sensor.pubY)) == Some(f.premaster)
  }

  function AuthBytes(p: Pairing, f: Facts): (b: Bytes)
    ensures |b| < 65536
  {
    CertMsg(CertBytes(p.host)) + KeyExchangeMsg(f.point) + VerifyMsg(f.sig)
  }

  /** What both digests cover: the hello, the sensor's flight, and the client's three messages. */
  function Transcript(s: Chan, d: Draws, p: Pairing, f: Facts): Bytes {
    s.transcript + HelloMsg(d.clientRandom) + f.stream + AuthBytes(p, f)
  }

  function MasterFrom(c: Crypto, d: Draws, f: Facts): Bytes {
    MasterSecret(c, f.premaster, d.clientRandom, f.random)
  }

  /** The session's keys: 32, 32, 4 and 4 bytes of the key material. */
  function KeysFor(c: Crypto, d: Draws, f: Facts): Keys
    requires Lengths(c)
  {
    var block := KeyMaterial(c, MasterFrom(c, d, f), d.clientRandom, f.random);
    Keys(block[..32], block[32..64], block[64..68], block[68..72])
  }

  /** The client's Finished. */
  function ClientFinished(c: Crypto, s: Chan, d: Draws, p: Pairing, f: Facts): Bytes {
    FinishedMessage(VerifyData(c, MasterFrom(c, d, f), "client finished", c.sha256(Transcript(s, d, p, f))))
  }

  /** Three records: the three messages, a change of cipher, and the Finished, which is the first under the keys. */
  function SecondRequest(c: Crypto, s: Chan, d: Draws, p: Pairing, f: Facts): Bytes
    requires Lengths(c)
  {
    var keys := KeysFor(c, d, f);
    RecordOf(0x16, AuthBytes(p, f)) + [0x14, 3, 3, 0, 1, 1] + [0x16, 3, 3, 0, 40]
    + Protect(c, keys.encrKey, keys.encrIv, 0, 0x16, d.finNonce, ClientFinished(c, s, d, p, f))
  }

  /** The client when it has sent its second request. */
  function Keyed(c: Crypto, s: Chan, d: Draws, p: Pairing, f: Facts): Chan
    requires Lengths(c)
  {
    s.(clientRandom := d.clientRandom, serverRandom := f.random, ephPriv := d.ephPriv,
       transcript := Transcript(s, d, p, f), verifyDigest := c.sha256(Transcript(s, d, p, f)),
       master := MasterFrom(c, d, f), keys := KeysFor(c, d, f), encrSeq := 1, decrSeq := 0,
       sealed := [Sealed(0x16, d.finNonce, ClientFinished(c, s, d, p, f))],
       sent := s.sent + [FirstRequest(d), SecondRequest(c, s, d, p, f)])
  }

  /** The reply proves that its sender knows the master secret and saw the same transcript. */
  ghost predicate Proven(c: Crypto, s: Chan, reply: Option<Bytes>) {
    && reply.Some? && SplitRecords(reply.value).Some?
    && Has(SplitRecords(reply.value).value, 0x16)
    && ServerFlight(c, s, 0, false, SplitRecords(reply.value).value)
  }

  /**
   * Why a channel may be established: both replies arrived, the first was a
   * well-formed flight, and the second proves that its sender knows the master
   * secret and saw the same transcript. The whole state follows.
   */
  ghost predicate JustifiedBy(c: Crypto, io: Io, s: Chan, d: Draws, f: Facts, s': Chan)
    requires Lengths(c)
  {
    && Agreed(c, io, s, d, f)
    && var made := Keyed(c, s, d, s.pairing.value, f);
    && Proven(c, made, io(made.sent))
    && var rs := SplitRecords(io(made.sent).value).value;
       s' == made.(established := true, decrSeq := Advance(0, Encrypted(rs, |rs|)))
  }

  ghost predicate Justified(c: Crypto, io: Io, s: Chan, d: Draws, s': Chan)
    requires Lengths(c)
  {
    exists f :: JustifiedBy(c, io, s, d, f, s')
  }

  // ------------------------------------------------------- proof of the above

  /** The client after it has heard the first reply. */
  function Greeted(s: Chan, d: Draws, stream: Bytes, random: Bytes32): Chan {
    s.(clientRandom := d.clientRandom, serverRandom := random,
       transcript := s.transcript + HelloMsg(d.clientRandom) + stream, sent := s.sent + [FirstRequest(d)])
  }

  /** The first half: the client goes on exactly when it has heard a flight. */
  lemma FirstHalfIs(s: Chan, d: Draws, resp: Bytes)
    ensures var s1 := SendStep(HelloStep(s, d), WriteRecord(HANDSHAKE, ClientHello(d.clientRandom)));
      var (ok, s2) := Rt1Step(s1, resp);
      && s1.sent == s.sent + [FirstRequest(d)] && s2.sent == s1.sent
      && (ok ==> StreamOf(resp).Some? && Heard(resp, s.serverRandom, StreamOf(resp).value, s2.serverRandom)
                 && s2 == Greeted(s, d, StreamOf(resp).value, s2.serverRandom))
      && (forall stream, random :: Heard(resp, s.serverRandom, stream, random) ==>
            ok && stream == StreamOf(resp).value && random == s2.serverRandom)
  {
    hide FlightFrom, LastRandom, Rt1Of, ClientHello, WriteRecord, RecordOf, HelloMsg;
    HelloAsTls(d);
    Rt1AcceptedIff(resp, s.serverRandom);
    forall stream, random | Heard(resp, s.serverRandom, stream, random)
      ensures random == Rt1Of(resp, s.serverRandom).random
    {
      LastRandomUnique(SplitMsgs(stream).value, s.serverRandom, random, s.serverRandom,
                       Rt1Of(resp, s.serverRandom).random);
    }
  }

  lemma HelloAsTls(d: Draws)
    ensures ClientHello(d.clientRandom) == HelloMsg(d.clientRandom)
    ensures WriteRecord(HANDSHAKE, ClientHello(d.clientRandom)) == FirstRequest(d)
  {
    HelloMsgAsTls(d.clientRandom);
    RecordAsTls(HANDSHAKE, HelloMsg(d.clientRandom));
  }

  /** The second half fails without the facts. */
  lemma SecondHalfFails(c: Crypto, s: Chan, d: Draws, p: Pairing, stream: Bytes, random: Bytes32)
    requires Lengths(c) && s.pairing == Some(p)
    ensures var s2 := Greeted(s, d, stream, random);
      var (out, s3) := Rt2Request(c, s2, d);
      && (out.None? ==> s3.sent == s2.sent && s3.established == s.established)
      && (out.Some? <==>
            && c.pub(d.ephPriv).Some?
            && c.sign(p.priv, c.sha256(Signed(s, d, p, stream, c.pub(d.ephPriv).value)), d.sigNonce).Some?
            && c.ecdh(d.ephPriv, Point(p.sensor.pubX, p.sensor.pubY)).Some?)
  {
    hide MasterOf, KeysOf, HelloMsg, CertMsg, KeyExchangeMsg, VerifyMsg;
    hide Certificate, KeyExchange, CertVerify, SealStep, Lengths, FinishedMsg, WriteRecord;
    if c.pub(d.ephPriv).Some? {
      MessagesAsTls(d.clientRandom, p, c.pub(d.ephPriv).value, [], []);
    }
  }

  /** With the facts it makes the keys and the second request. */
  lemma SecondHalfMakes(c: Crypto, s: Chan, d: Draws, p: Pairing, f: Facts)
    requires Lengths(c) && s.pairing == Some(p) && c.pub(d.ephPriv) == Some(f.point)
    requires c.sign(p.priv, c.sha256(Signed(s, d, p, f.stream, f.point)), d.sigNonce) == Some(f.sig)
    requires c.ecdh(d.ephPriv, Point(p.sensor.pubX, p.sensor.pubY)) == Some(f.premaster)
    ensures var (out, s3) := Rt2Request(c, Greeted(s, d, f.stream, f.random), d);
      out.Some? && SendStep(s3, out.value) == Keyed(c, s, d, p, f)
  {
    hide HelloMsg, CertMsg, KeyExchangeMsg, VerifyMsg, MasterOf, KeysOf, Protect, GcmWrap, PHash, VerifyData;
    hide Certificate, KeyExchange, CertVerify, WriteRecord, PrintMsg, RecordOf, MasterSecret, KeyMaterial;
    var s2 := Greeted(s, d, f.stream, f.random);
    var content := AuthBytes(p, f);
    MessagesAsTls(d.clientRandom, p, f.point, f.sig, []);
    assert s2.transcript + CertMsg(CertBytes(p.host)) + KeyExchangeMsg(f.point) + VerifyMsg(f.sig)
        == Transcript(s, d, p, f);
    var master := MasterOf(c, f.premaster, d.clientRandom, f.random);
    DerivesAsTls(c, f.premaster, d.clientRandom, f.random);
    assert KeysOf(c, master, d.clientRandom, f.random) == KeysFor(c, d, f);
    var digest := c.sha256(Transcript(s, d, p, f));
    VerifiesAsTls(c, master, "client finished", digest);
    MessagesAsTls(d.clientRandom, p, f.point, f.sig, VerifyData(c, master, "client finished", digest));
    assert FinishedMsg(c, master, "client finished", digest) == ClientFinished(c, s, d, p, f);
    var keys := KeysFor(c, d, f);
    var frag := GcmWrap(c, keys.encrKey, keys.encrIv, 0, HANDSHAKE, d.finNonce, ClientFinished(c, s, d, p, f));
    ProtectsAsTls(c, keys.encrKey, keys.encrIv, 0, HANDSHAKE, d.finNonce, ClientFinished(c, s, d, p, f));
    RecordsAsTls(c, keys, d.finNonce, ClientFinished(c, s, d, p, f), content);
  }

  lemma RecordsAsTls(c: Crypto, keys: Keys, nonce: Bytes8, fin: Bytes, content: Bytes)
    requires Lengths(c) && |fin| == 16 && |content| < 65536
    ensures var frag := Protect(c, keys.encrKey, keys.encrIv, 0, HANDSHAKE, nonce, fin);
      WriteRecord(HANDSHAKE, content) + WriteRecord(CHANGE_CIPHER, [1]) + WriteRecord(HANDSHAKE, frag)
      == RecordOf(0x16, content) + [0x14, 3, 3, 0, 1, 1] + [0x16, 3, 3, 0, 40] + frag
  {
    var frag := Protect(c, keys.encrKey, keys.encrIv, 0, HANDSHAKE, nonce, fin);
    assert |frag| == 40;
    RecordAsTls(HANDSHAKE, content);
  }

  /** Which session facts the acceptance of the second reply depends on. */
  lemma ServerFlightReads(c: Crypto, s: Chan, s': Chan, seqNo: word64, rs: seq<Record>)
    requires s.keys == s'.keys && s.master == s'.master && s.verifyDigest == s'.verifyDigest
    ensures ServerFlight(c, s, seqNo, false, rs) == ServerFlight(c, s', seqNo, false, rs)
  {
    forall i | 0 <= i < |rs|
      ensures ServerRecordOk(c, s, seqNo, false, rs, i) == ServerRecordOk(c, s', seqNo, false, rs, i)
    {
    }
  }

  /** How a handshake goes: without facts it fails, and with them everything depends on the second reply. */
  lemma HandshakeRuns(c: Crypto, io: Io, s: Chan, d: Draws) returns (f: Option<Facts>)
    requires Lengths(c)
    ensures var (ok, s') := HandshakeStep(c, io, s, d);
      match f
      case None =>
        && !ok && s'.sent == s.sent + (if s.pairing.Some? then [FirstRequest(d)] else [])
        && forall g :: !Agreed(c, io, s, d, g)
      case Some(facts) =>
        && s.pairing.Some? && (forall g :: Agreed(c, io, s, d, g) <==> g == facts)
        && var made := Keyed(c, s, d, s.pairing.value, facts);
           (ok, s') == if io(made.sent).None? then (false, made) else Rt2Step(c, made, io(made.sent).value)
  {
    hide Rt1Step, Rt2Step, Rt2Request, Heard, ClientHello, WriteRecord, FirstRequest, Keyed, Signed;
    if s.pairing.None? {
      return None;
    }
    var p := s.pairing.value;
    var s1 := SendStep(HelloStep(s, d), WriteRecord(HANDSHAKE, ClientHello(d.clientRandom)));
    FirstHalfIs(s, d, []);
    if io(s1.sent).None? {
      return None;
    }
    var resp := io(s1.sent).value;
    FirstHalfIs(s, d, resp);
    var (ok1, s2) := Rt1Step(s1, resp);
    if !ok1 {
      return None;
    }
    var stream, random := StreamOf(resp).value, s2.serverRandom;
    SecondHalfFails(c, s, d, p, stream, random);
    var (out, s3) := Rt2Request(c, s2, d);
    if out.None? {
      return None;
    }
    var point := c.pub(d.ephPriv).value;
    var sig := c.sign(p.priv, c.sha256(Signed(s, d, p, stream, point)), d.sigNonce).value;
    assert |sig| <= 72;
    var facts := Facts(stream, random, point, sig, c.ecdh(d.ephPriv, Point(p.sensor.pubX, p.sensor.pubY)).value);
    SecondHalfMakes(c, s, d, p, facts);
    f := Some(facts);
  }

  /** Exactly when a handshake succeeds, in terms of what goes over the wire. */
  lemma HandshakeSucceedsIff(c: Crypto, io: Io, s: Chan, d: Draws)
    requires Lengths(c)
    ensures HandshakeStep(c, io, s, d).0 <==>
      exists f :: Agreed(c, io, s, d, f)
        && Proven(c, Keyed(c, s, d, s.pairing.value, f), io(Keyed(c, s, d, s.pairing.value, f).sent))
  {
    hide HandshakeStep, Rt2Step, Keyed, Has, ServerFlight;
    var f := HandshakeRuns(c, io, s, d);
    if f.Some? {
      assert Agreed(c, io, s, d, f.value);
      var made := Keyed(c, s, d, s.pairing.value, f.value);
      KeyedStarts(c, s, d, s.pairing.value, f.value);
      if io(made.sent).Some? {
        Rt2AcceptedIff(c, made, io(made.sent).value);
      }
    }
  }

  lemma KeyedStarts(c: Crypto, s: Chan, d: Draws, p: Pairing, f: Facts)
    requires Lengths(c)
    ensures Keyed(c, s, d, p, f).decrSeq == 0
  {
  }

  /** What a handshake sends: both requests if it gets that far, otherwise the first, and nothing without a pairing. */
  lemma HandshakeSends(c: Crypto, io: Io, s: Chan, d: Draws)
    requires Lengths(c)
    ensures var s' := HandshakeStep(c, io, s, d).1;
      && (forall f :: Agreed(c, io, s, d, f) ==>
            s'.sent == s.sent + [FirstRequest(d), SecondRequest(c, s, d, s.pairing.value, f)])
      && ((forall f :: !Agreed(c, io, s, d, f)) ==>
            s'.sent == s.sent + if s.pairing.Some? then [FirstRequest(d)] else [])
  {
    hide HandshakeStep, Agreed, FirstRequest, SecondRequest, Rt2Walk;
    var f := HandshakeRuns(c, io, s, d);
    if f.Some? {
      assert Agreed(c, io, s, d, f.value);
    }
  }

  /** A handshake that succeeds is justified, down to every field of the channel that it leaves. */
  lemma HandshakeSound(c: Crypto, io: Io, s: Chan, d: Draws)
    requires Lengths(c) && HandshakeStep(c, io, s, d).0
    ensures Justified(c, io, s, d, HandshakeStep(c, io, s, d).1)
  {
    hide HandshakeStep, Rt2Step, Keyed, Has, ServerFlight;
    var f := HandshakeRuns(c, io, s, d);
    var made := Keyed(c, s, d, s.pairing.value, f.value);
    KeyedStarts(c, s, d, s.pairing.value, f.value);
    Rt2AcceptedIff(c, made, io(made.sent).value);
    assert Agreed(c, io, s, d, f.value);
    assert JustifiedBy(c, io, s, d, f.value, HandshakeStep(c, io, s, d).1);
  }

  /** A handshake that fails establishes nothing. */
  lemma FailedHandshakeChangesNoVerdict(c: Crypto, io: Io, s: Chan, d: Draws)
    requires Lengths(c)
    ensures var (ok, s') := HandshakeStep(c, io, s, d);
            && (s'.established <==> s.established || ok)
            && s'.pairing == s.pairing
  {
    hide Rt1Of, Rt2Walk, GcmWrap, MasterOf, KeysOf, ClientHello, FinishedMsg, WriteRecord;
    hide Certificate, KeyExchange, CertVerify;
  }

  // ------------------------------------------------ protected records on the wire

  /** The next sequence number, in 64 bits. */
  function NumberAfter(n: word64): word64 {
    (n + 1) % 0x1_0000_0000_0000_0000
  }

  /** What wrapping puts on the wire, and how it moves the channel. The length field has 16 bits. */
  lemma WrapOnWire(c: Crypto, s: Chan, nonce: Bytes8, plain: Bytes)
    requires Lengths(c)
    ensures var n := |plain| + 24;
      WrapStep(c, s, nonce, plain) ==
      if !s.established then (plain, s)
      else ([0x17, 3, 3, n / 256 % 256, n % 256]
              + Protect(c, s.keys.encrKey, s.keys.encrIv, s.encrSeq, 0x17, nonce, plain),
            s.(encrSeq := NumberAfter(s.encrSeq), sealed := s.sealed + [Sealed(0x17, nonce, plain)]))
  {
    hide Protect, GcmWrap, Lengths;
    ProtectsAsTls(c, s.keys.encrKey, s.keys.encrIv, s.encrSeq, 0x17, nonce, plain);
    ProtectedLength(c, s.keys.encrKey, s.keys.encrIv, s.encrSeq, 0x17, nonce, plain);
  }

  /** Closing sends one close_notify alert under the next number; a channel that is not open sends nothing. */
  lemma CloseOnWire(c: Crypto, s: Chan, nonce: Bytes8)
    requires Lengths(c)
    ensures CloseStep(c, s, nonce) ==
      if !s.established then s
      else s.(established := false, encrSeq := NumberAfter(s.encrSeq),
              sealed := s.sealed + [Sealed(0x15, nonce, [0x01, 0x00])],
              sent := s.sent + [[0x15, 3, 3, 0, 26]
                + Protect(c, s.keys.encrKey, s.keys.encrIv, s.encrSeq, 0x15, nonce, [0x01, 0x00])])
  {
    hide Protect, GcmWrap, Lengths;
    ProtectsAsTls(c, s.keys.encrKey, s.keys.encrIv, s.encrSeq, 0x15, nonce, [1, 0]);
    ProtectedLength(c, s.keys.encrKey, s.keys.encrIv, s.encrSeq, 0x15, nonce, [1, 0]);
  }

  /** What unwrapping makes of a buffer with one record. */
  lemma UnwrapOnWire(c: Crypto, s: Chan, ct: byte, major: byte, minor: byte, frag: Bytes)
    requires |frag| < 65536
    ensures var b := [ct, major, minor, |frag| / 256, |frag| % 256] + frag;
      var plain := Unprotect(c, s.keys.decrKey, s.keys.decrIv, s.decrSeq, ct, frag);
      UnwrapStep(c, s, b) ==
      if !s.established then (Some(b), s)
      else (if ct == 0x17 then plain else None,
            if plain.Some? then s.(decrSeq := NumberAfter(s.decrSeq)) else s)
  {
    hide Unprotect, GcmUnwrap, UnwrapWalk, StartsWhole, FirstRecord, AfterFirst;
    var b := [ct, major, minor, |frag| / 256, |frag| % 256] + frag;
    OneRecordIn(ct, major, minor, frag);
    UnprotectsAsTls(c, s.keys.decrKey, s.keys.decrIv, s.decrSeq, ct, frag);
    WalkOne(c, s.keys, s.decrSeq, b);
  }

  lemma OneRecordIn(ct: byte, major: byte, minor: byte, frag: Bytes)
    requires |frag| < 65536
    ensures var b := [ct, major, minor, |frag| / 256, |frag| % 256] + frag;
      StartsWhole(b) && FirstRecord(b) == Record(ct, major, minor, frag) && AfterFirst(b) == []
  {
    var b := [ct, major, minor, |frag| / 256, |frag| % 256] + frag;
    assert b[3] == |frag| / 256 && b[4] == |frag| % 256;
    assert RecordLen(b) == |frag|;
    assert b[5..] == frag;
  }

  lemma WalkOne(c: Crypto, keys: Keys, seqNo: word64, b: Bytes)
    requires StartsWhole(b) && AfterFirst(b) == []
    ensures var r := FirstRecord(b);
      UnwrapWalk(c, keys, seqNo, [], b) ==
      match GcmUnwrap(c, keys.decrKey, keys.decrIv, seqNo, r.ct, r.frag)
      case None => Unwrapped(false, seqNo, [])
      case Some(plain) =>
        if r.ct == APPDATA then Unwrapped(true, Next64(seqNo), plain) else Unwrapped(false, Next64(seqNo), [])
  {
    hide GcmUnwrap;
    var r := FirstRecord(b);
    var plain := GcmUnwrap(c, keys.decrKey, keys.decrIv, seqNo, r.ct, r.frag);
    if plain.Some? {
      assert [] + plain.value == plain.value;
      assert UnwrapWalk(c, keys, Next64(seqNo), plain.value, []) == Unwrapped(true, Next64(seqNo), plain.value);
    }
  }

  // ------------------------------------------------------------------ whole runs

  datatype Op =
    | OpPair(p: Pairing)
    | OpHandshake(d: Draws)
    | OpWrap(nonce: Bytes8, plain: Bytes)
    | OpUnwrap(buf: Bytes)
    | OpClose(nonce: Bytes8)

  function Do(c: Crypto, io: Io, s: Chan, op: Op): Chan
    requires Lengths(c)
  {
    match op
    case OpPair(p) => s.(pairing := Some(p))
    case OpHandshake(d) => HandshakeStep(c, io, s, d).1
    case OpWrap(nonce, plain) => WrapStep(c, s, nonce, plain).1
    case OpUnwrap(buf) => UnwrapStep(c, s, buf).1
    case OpClose(nonce) => CloseStep(c, s, nonce)
  }

  /** The channel after the first `n` operations on a new one. */
  function After(c: Crypto, io: Io, ops: seq<Op>, n: nat): Chan
    requires Lengths(c) && n <= |ops|
  {
    if n == 0 then Fresh() else Do(c, io, After(c, io, ops, n - 1), ops[n - 1])
  }

  predicate SucceedsAt(c: Crypto, io: Io, ops: seq<Op>, i: nat)
    requires Lengths(c) && i < |ops|
  {
    ops[i].OpHandshake? && HandshakeStep(c, io, After(c, io, ops, i), ops[i].d).0
  }

  /** What each kind of operation does to the verdict and to the session. */
  lemma DoVerdict(c: Crypto, io: Io, s: Chan, op: Op)
    requires Lengths(c)
    ensures var s' := Do(c, io, s, op);
            && (s'.established <==> if op.OpHandshake? then s.established || HandshakeStep(c, io, s, op.d).0
                                    else s.established && !op.OpClose?)
            && (!op.OpHandshake? ==>
                  && s'.transcript == s.transcript && s'.verifyDigest == s.verifyDigest
                  && s'.master == s.master && s'.keys == s.keys
                  && s'.clientRandom == s.clientRandom && s'.serverRandom == s.serverRandom)
  {
    if op.OpHandshake? {
      FailedHandshakeChangesNoVerdict(c, io, s, op.d);
    }
  }

  /** Handshake `i` succeeded and the channel has not been closed since. */
  ghost predicate OpenSince(c: Crypto, io: Io, ops: seq<Op>, i: nat, n: nat)
    requires Lengths(c) && i < n <= |ops|
  {
    SucceedsAt(c, io, ops, i) && forall j :: i < j < n ==> !ops[j].OpClose?
  }

  ghost predicate OpenAt(c: Crypto, io: Io, ops: seq<Op>, n: nat)
    requires Lengths(c) && n <= |ops|
  {
    exists i :: 0 <= i < n && OpenSince(c, io, ops, i, n)
  }

  lemma OpenNext(c: Crypto, io: Io, ops: seq<Op>, n: nat)
    requires Lengths(c) && 0 < n <= |ops|
    ensures OpenAt(c, io, ops, n)
       <==> SucceedsAt(c, io, ops, n - 1) || (OpenAt(c, io, ops, n - 1) && !ops[n - 1].OpClose?)
  {
    hide After, SucceedsAt;
    if SucceedsAt(c, io, ops, n - 1) {
      assert OpenSince(c, io, ops, n - 1, n);
    }
    if OpenAt(c, io, ops, n - 1) && !ops[n - 1].OpClose? {
      var i :| 0 <= i < n - 1 && OpenSince(c, io, ops, i, n - 1);
      assert OpenSince(c, io, ops, i, n);
    }
    if OpenAt(c, io, ops, n) {
      var i :| 0 <= i < n && OpenSince(c, io, ops, i, n);
      if i < n - 1 {
        assert OpenSince(c, io, ops, i, n - 1);
      }
    }
  }

  /** Established is true exactly between a successful handshake and a close. */
  lemma {:induction false} EstablishedIff(c: Crypto, io: Io, ops: seq<Op>, n: nat)
    requires Lengths(c) && n <= |ops|
    ensures After(c, io, ops, n).established <==> OpenAt(c, io, ops, n)
  {
    hide Do, HandshakeStep, OpenAt;
    if n > 0 {
      EstablishedIff(c, io, ops, n - 1);
      DoVerdict(c, io, After(c, io, ops, n - 1), ops[n - 1]);
      OpenNext(c, io, ops, n);
    } else {
      NotOpenAtFirst(c, io, ops);
    }
  }

  lemma NotOpenAtFirst(c: Crypto, io: Io, ops: seq<Op>)
    requires Lengths(c)
    ensures !OpenAt(c, io, ops, 0)
  {
  }

  lemma AfterHandshake(c: Crypto, io: Io, ops: seq<Op>, h: nat)
    requires Lengths(c) && h < |ops| && ops[h].OpHandshake?
    ensures After(c, io, ops, h + 1) == HandshakeStep(c, io, After(c, io, ops, h), ops[h].d).1
  {
    hide HandshakeStep;
  }

  ghost predicate NoHandshake(ops: seq<Op>, lo: nat, hi: nat) {
    forall j :: lo <= j < hi && j < |ops| ==> !ops[j].OpHandshake?
  }

  /** Before any handshake nothing is hashed or sent; afterwards only a new handshake changes the session. */
  lemma {:induction false} UntouchedBefore(c: Crypto, io: Io, ops: seq<Op>, n: nat)
    requires Lengths(c) && n <= |ops| && NoHandshake(ops, 0, n)
    ensures var s := After(c, io, ops, n);
            s.transcript == [] && s.sent == [] && s.sealed == [] && !s.established
  {
    if n > 0 {
      UntouchedBefore(c, io, ops, n - 1);
    }
  }

  lemma {:induction false} SessionStays(c: Crypto, io: Io, ops: seq<Op>, m: nat, n: nat)
    requires Lengths(c) && m <= n <= |ops| && NoHandshake(ops, m, n)
    ensures var s, s' := After(c, io, ops, m), After(c, io, ops, n);
            && s'.transcript == s.transcript && s'.verifyDigest == s.verifyDigest
            && s'.master == s.master && s'.keys == s.keys
            && s'.clientRandom == s.clientRandom && s'.serverRandom == s.serverRandom
    decreases n - m
  {
    hide Do;
    if m < n {
      SessionStays(c, io, ops, m, n - 1);
      DoVerdict(c, io, After(c, io, ops, n - 1), ops[n - 1]);
    }
  }

  /**
   * Soundness over every run with one handshake: if the channel is established
   * after `n` operations, then handshake `h` of the run succeeded on an empty
   * transcript, it was justified, and the present keys are the ones it derived.
   */
  lemma EstablishedIsJustified(c: Crypto, io: Io, ops: seq<Op>, h: nat, n: nat)
    requires Lengths(c) && h < n <= |ops| && ops[h].OpHandshake?
    requires NoHandshake(ops, 0, h) && NoHandshake(ops, h + 1, n)
    requires After(c, io, ops, n).established
    ensures var before, made, now := After(c, io, ops, h), After(c, io, ops, h + 1), After(c, io, ops, n);
            && before.transcript == [] && before.sent == []
            && Justified(c, io, before, ops[h].d, made)
            && now.keys == made.keys && now.master == made.master && now.verifyDigest == made.verifyDigest
            && OpenSince(c, io, ops, h, n)
  {
    hide Do, After, Justified, HandshakeStep;
    EstablishedIff(c, io, ops, n);
    var i :| 0 <= i < n && OpenSince(c, io, ops, i, n);
    assert i == h;
    AfterHandshake(c, io, ops, h);
    UntouchedBefore(c, io, ops, h);
    HandshakeSound(c, io, After(c, io, ops, h), ops[h].d);
    SessionStays(c, io, ops, h + 1, n);
  }

  /** No handshake at all: never established, so everything passes through in the clear. */
  lemma NeverEstablishedAlone(c: Crypto, io: Io, ops: seq<Op>, n: nat, nonce: Bytes8, plain: Bytes)
    requires Lengths(c) && n <= |ops| && NoHandshake(ops, 0, n)
    ensures WrapStep(c, After(c, io, ops, n), nonce, plain).0 == plain
    ensures UnwrapStep(c, After(c, io, ops, n), plain).0 == Some(plain)
  {
    UntouchedBefore(c, io, ops, n);
  }

  // ------------------------------------------------------------------- counters

  /** The records sealed under the present keys: a Finished first, then application data and alerts. */
  ghost predicate Counted(s: Chan) {
    && s.encrSeq == |s.sealed| % U64
    && (s.established ==> s.sealed != [])
    && (s.sealed != [] ==> s.sealed[0].ct == HANDSHAKE && |s.sealed[0].plain| == 16)
    && forall i :: 0 < i < |s.sealed| ==> s.sealed[i].ct == APPDATA || s.sealed[i].ct == ALERT
  }

  lemma SealCounts(c: Crypto, s: Chan, ct: byte, nonce: Bytes8, plain: Bytes)
    requires Counted(s) && s.sealed != [] && (ct == APPDATA || ct == ALERT)
    ensures Counted(SealStep(c, s, ct, nonce, plain).1)
  {
    var n := |s.sealed|;
    assert (n + 1) % U64 == Next64(n % U64);
  }

  lemma Rt2RequestCounts(c: Crypto, s: Chan, d: Draws)
    requires Lengths(c) && s.pairing.Some?
    ensures var (out, s') := Rt2Request(c, s, d);
            s'.established == s.established &&
            if out.None? then s'.encrSeq == s.encrSeq && s'.sealed == s.sealed
            else Counted(s'.(established := true))
  {
    var (content, s1) := ClientAuthStep(c, s, d);
    if content.Some? && c.ecdh(d.ephPriv, SensorPoint(s1.pairing.value)).Some? {
      var s2 := SwitchKeys(c, s1, c.ecdh(d.ephPriv, SensorPoint(s1.pairing.value)).value);
      PrfLength(c, s2.master, "client finished", s2.verifyDigest, 12);
      var fin := FinishedMsg(c, s2.master, "client finished", s2.verifyDigest);
      assert |fin| == 16;
      assert [] + [Sealed(HANDSHAKE, d.finNonce, fin)] == [Sealed(HANDSHAKE, d.finNonce, fin)];
    }
  }

  /** In every run the send counter is the number of records sealed under the present keys. */
  lemma {:induction false} SequenceCountsRecords(c: Crypto, io: Io, ops: seq<Op>, n: nat)
    requires Lengths(c) && n <= |ops|
    ensures Counted(After(c, io, ops, n))
  {
    if n > 0 {
      SequenceCountsRecords(c, io, ops, n - 1);
      var s := After(c, io, ops, n - 1);
      match ops[n - 1]
      case OpPair(_) =>
      case OpHandshake(d) =>
        HandshakeCounts(c, io, s, d);
      case OpWrap(nonce, plain) =>
        if s.established {
          SealCounts(c, s, APPDATA, nonce, plain);
        }
      case OpUnwrap(_) =>
      case OpClose(nonce) =>
        if s.established {
          SealCounts(c, s, ALERT, nonce, [1, 0]);
        }
    }
  }

  lemma HandshakeCounts(c: Crypto, io: Io, s: Chan, d: Draws)
    requires Lengths(c) && Counted(s)
    ensures Counted(HandshakeStep(c, io, s, d).1)
  {
    hide Rt1Of, Rt2Walk, Rt2Request, ClientHello;
    if s.pairing.Some? {
      var s1 := SendStep(HelloStep(s, d), WriteRecord(HANDSHAKE, ClientHello(d.clientRandom)));
      if io(s1.sent).Some? {
        var (ok, s2) := Rt1Step(s1, io(s1.sent).value);
        if ok {
          Rt2RequestCounts(c, s2, d);
        }
      }
    }
  }
}
