/** Handshake completeness: an honest sensor, reading only the bytes on the wire, ends up in the same session. */
module HonestServer {
  import opened ByteStrings
  import opened TlsCrypto
  import opened TlsWire
  import opened PairingCodec
  import opened Records
  import opened Channel
  import opened Handshake
  import opened Sessions
  import opened Delivery

  /** The sensor's key, its random, its first flight in any records, and its nonce. */
  datatype Server = Server(priv: Bytes32, random: Bytes32, flight: seq<Record>, finNonce: Bytes8)

  /** What the sensor has after the second request: `end` is its own end of the channel. */
  datatype ServerSession = ServerSession(master: Bytes, keys: Keys, clientVerified: bool, reply: Bytes, end: Chan)

  /** The same keys, in the other direction. */
  function Flipped(keys: Keys): Keys {
    Keys(keys.decrKey, keys.encrKey, keys.decrIv, keys.encrIv)
  }

  ghost predicate Honest(c: Crypto, srv: Server, p: Pairing) {
    && c.pub(srv.priv) == Some(SensorPoint(p))
    && AllFit(srv.flight) && AllHandshake(srv.flight)
    && SplitMsgs(Frags(srv.flight)).Some?
    && FlightOk(SplitMsgs(Frags(srv.flight)).value)
    && LastRandom(SplitMsgs(Frags(srv.flight)).value, srv.random, srv.random)
  }

  /** What the sensor reads in the two requests. */
  datatype ClientFlight = ClientFlight(hello: Bytes, random: Bytes, auth: Bytes, point: Point, fin: Bytes)

  /**
   * The sensor cuts the requests at fixed places: 5 bytes before the hello,
   * and its random 6 bytes into it; before the three messages 5 bytes, and the
   * point 417 bytes into them; at the end 40 bytes of Finished behind 11 bytes
   * of a change of cipher and a record header.
   */
  function ReadRequests(req1: Bytes, req2: Bytes): Option<ClientFlight> {
    if |req1| != 72 || |req2| < 5 then None
    else
      var n := 256 * (req2[3] as nat) + (req2[4] as nat);
      if n < 481 || |req2| != n + 56 then None
      else if req2[n + 5..n + 16] != [0x14, 3, 3, 0, 1, 1, 0x16, 3, 3, 0, 40] then None
      else Some(ClientFlight(req1[5..], req1[11..43], req2[5..n + 5],
                             Point(req2[422..454], req2[454..486]), req2[n + 16..]))
  }

  /**
   * The sensor derives the session, checks the client's Finished and answers:
   * a change of cipher, and its own Finished as the first record under its key.
   */
  function Answer(c: Crypto, srv: Server, f: ClientFlight): Option<ServerSession>
    requires Lengths(c) && |f.fin| == 40
  {
    match c.ecdh(srv.priv, f.point)
    case None => None
    case Some(premaster) =>
      var master := First48(c, premaster, Ascii("master secret") + (f.random + srv.random));
      var seed := Ascii("key expansion") + (f.random + srv.random);
      var block := First48(c, master, seed) + Next48(c, master, seed);
      var (clientKey, serverKey) := (block[..32], block[32..64]);
      var (clientSalt, serverSalt) := (block[64..68], block[68..72]);
      var digest := c.sha256(f.hello + Frags(srv.flight) + f.auth);
      var aad := [0, 0, 0, 0, 0, 0, 0, 0, 0x16, 3, 3, 0, 16];
      var verified := c.open(clientKey, clientSalt + f.fin[..8], aad, f.fin[8..])
                      == Some([0x14, 0, 0, 12] + First48(c, master, Ascii("client finished") + digest)[..12]);
      var msg := [0x14, 0, 0, 12] + First48(c, master, Ascii("server finished") + digest)[..12];
      var fin := srv.finNonce + c.seal(serverKey, serverSalt + srv.finNonce, aad, msg);
      var reply := [0x14, 3, 3, 0, 1, 1, 0x16, 3, 3, 0, 40] + fin;
      var end := Fresh().(keys := Keys(serverKey, clientKey, serverSalt, clientSalt), established := verified,
                          encrSeq := 1, decrSeq := if verified then 1 else 0,
                          sealed := [Sealed(0x16, srv.finNonce, msg)]);
      Some(ServerSession(master, Keys(clientKey, serverKey, clientSalt, serverSalt), verified, reply, end))
  }

  function ServeSecond(c: Crypto, srv: Server, req1: Bytes, req2: Bytes): Option<ServerSession>
    requires Lengths(c)
  {
    match ReadRequests(req1, req2)
    case None => None
    case Some(f) => Answer(c, srv, f)
  }

  function ServerFinishedFrag(c: Crypto, keys: Keys, master: Bytes, digest: Bytes, nonce: Bytes8): Bytes {
    GcmWrap(c, keys.decrKey, keys.decrIv, 0, HANDSHAKE, nonce, FinishedMsg(c, master, "server finished", digest))
  }

  function ServerReply(c: Crypto, keys: Keys, master: Bytes, digest: Bytes, nonce: Bytes8): Bytes {
    WriteRecord(CHANGE_CIPHER, [1]) + WriteRecord(HANDSHAKE, ServerFinishedFrag(c, keys, master, digest, nonce))
  }

  function ServerIo(c: Crypto, srv: Server): Io
    requires Lengths(c)
  {
    (h: seq<Bytes>) =>
      if |h| == 1 then Some(PrintRecords(srv.flight))
      else if |h| != 2 then None
      else match ServeSecond(c, srv, h[0], h[1])
           case None => None
           case Some(session) => Some(session.reply)
  }

  /** The sensor's session is the client's, if it has the client's secret, randoms and messages. */
  lemma AnswerIs(c: Crypto, srv: Server, f: ClientFlight, premaster: Bytes)
    requires Lengths(c) && |f.fin| == 40 && c.ecdh(srv.priv, f.point) == Some(premaster)
    ensures var master := MasterOf(c, premaster, f.random, srv.random);
      var keys := KeysOf(c, master, f.random, srv.random);
      var digest := c.sha256(f.hello + Frags(srv.flight) + f.auth);
      var session := Answer(c, srv, f);
      && session.Some? && session.value.master == master && session.value.keys == keys
      && session.value.reply == ServerReply(c, keys, master, digest, srv.finNonce)
      && session.value.end.keys == Flipped(keys) && session.value.end.encrSeq == 1
      && (session.value.clientVerified <==>
            GcmUnwrap(c, keys.encrKey, keys.encrIv, 0, HANDSHAKE, f.fin)
            == Some(FinishedMsg(c, master, "client finished", digest)))
      && session.value.end.established == session.value.clientVerified
      && session.value.end.decrSeq == (if session.value.clientVerified then 1 else 0)
  {
    hide MasterOf, KeysOf, FinishedMsg, GcmWrap, GcmUnwrap, First48, Next48;
    var master := MasterOf(c, premaster, f.random, srv.random);
    var keys := KeysOf(c, master, f.random, srv.random);
    var digest := c.sha256(f.hello + Frags(srv.flight) + f.auth);
    DerivesAsTls(c, premaster, f.random, srv.random);
    FinishedIs(c, master, "client finished", digest);
    FinishedIs(c, master, "server finished", digest);
    UnprotectsAsTls(c, keys.encrKey, keys.encrIv, 0, HANDSHAKE, f.fin);
    var msg := FinishedMsg(c, master, "server finished", digest);
    ProtectsAsTls(c, keys.decrKey, keys.decrIv, 0, HANDSHAKE, srv.finNonce, msg);
    assert AddData(0, 0x16, 16) == [0, 0, 0, 0, 0, 0, 0, 0, 0x16, 3, 3, 0, 16];
    var fin := Protect(c, keys.decrKey, keys.decrIv, 0, 0x16, srv.finNonce, msg);
    assert |fin| == 40;
    RecordAsTls(HANDSHAKE, fin);
    assert [0x14, 3, 3, 0, 1, 1, 0x16, 3, 3, 0, 40] + fin
        == WriteRecord(CHANGE_CIPHER, [1]) + WriteRecord(HANDSHAKE, fin);
  }

  lemma FinishedIs(c: Crypto, master: Bytes, name: string, digest: Bytes)
    requires Lengths(c)
    ensures var first := First48(c, master, Ascii(name) + digest);
      && |first| == 48 && |FinishedMsg(c, master, name, digest)| == 16
      && FinishedMsg(c, master, name, digest) == [0x14, 0, 0, 12] + first[..12]
  {
    hide PHash;
    VerifiesAsTls(c, master, name, digest);
  }

  // ------------------------------------------------------- what is on the wire

  lemma TwoRecords(a: Record, b: Record)
    requires Fits(a) && Fits(b)
    ensures SplitRecords(PrintRecord(a) + PrintRecord(b)) == Some([a, b])
  {
    PrintSplits([a], [b]);
    PrintOne(a);
    PrintOne(b);
    assert [a] + [b] == [a, b];
    PrintedSplit([a, b]);
  }

  // ---------------------------------------------------------------- the parts

  /** The client accepts the sensor's flight, hashes it whole and takes over its random. */
  lemma FlightAccepted(c: Crypto, srv: Server, p: Pairing, s: Chan)
    requires Honest(c, srv, p)
    ensures Rt1Step(s, PrintRecords(srv.flight))
         == (true, s.(transcript := s.transcript + Frags(srv.flight), serverRandom := srv.random))
  {
    var b := PrintRecords(srv.flight);
    PrintedSplit(srv.flight);
    StreamIsFragments(b);
    Rt1AcceptedIff(b, s.serverRandom);
    LastRandomUnique(SplitMsgs(Frags(srv.flight)).value, s.serverRandom, Rt1Of(b, s.serverRandom).random,
                     srv.random, srv.random);
  }

  lemma FinishedShape(c: Crypto, master: Bytes, name: string, digest: Bytes)
    requires Lengths(c)
    ensures var m := FinishedMsg(c, master, name, digest);
            |m| == 16 && m[0] == 0x14 && m[4..] == PrfOf(c, master, name, digest, 12)
  {
    PrfLength(c, master, name, digest, 12);
  }

  /** The client accepts the sensor's second reply. */
  function FinishedOnWire(c: Crypto, s: Chan, nonce: Bytes8): Bytes {
    ServerFinishedFrag(c, s.keys, s.master, s.verifyDigest, nonce)
  }

  lemma FinishedOpens(c: Crypto, s: Chan, nonce: Bytes8)
    requires Lengths(c) && OpenUndoesSeal(c)
    ensures |FinishedOnWire(c, s, nonce)| < U16
    ensures GcmUnwrap(c, s.keys.decrKey, s.keys.decrIv, 0, HANDSHAKE, FinishedOnWire(c, s, nonce))
         == Some(FinishedMsg(c, s.master, "server finished", s.verifyDigest))
  {
    FinishedShape(c, s.master, "server finished", s.verifyDigest);
    UnwrapUndoesWrap(c, s.keys.decrKey, s.keys.decrIv, 0, HANDSHAKE, nonce,
                     FinishedMsg(c, s.master, "server finished", s.verifyDigest));
  }

  lemma OnWireIs(c: Crypto, s: Chan, nonce: Bytes8)
    ensures FinishedOnWire(c, s, nonce) == ServerFinishedFrag(c, s.keys, s.master, s.verifyDigest, nonce)
  {
    hide ServerFinishedFrag;
  }

  lemma FinishedIsServers(c: Crypto, s: Chan, frag: Bytes)
    requires Lengths(c)
    requires GcmUnwrap(c, s.keys.decrKey, s.keys.decrIv, 0, HANDSHAKE, frag)
          == Some(FinishedMsg(c, s.master, "server finished", s.verifyDigest))
    ensures IsServerFinished(c, s, 0, frag)
  {
    hide Unprotect, GcmUnwrap, PHash, PrintMsg;
    FinishedShape(c, s.master, "server finished", s.verifyDigest);
    UnprotectsAsTls(c, s.keys.decrKey, s.keys.decrIv, 0, HANDSHAKE, frag);
  }

  lemma ReplyAccepted(c: Crypto, s: Chan, nonce: Bytes8)
    requires Lengths(c) && s.decrSeq == 0 && |FinishedOnWire(c, s, nonce)| < U16
    requires GcmUnwrap(c, s.keys.decrKey, s.keys.decrIv, 0, HANDSHAKE, FinishedOnWire(c, s, nonce))
          == Some(FinishedMsg(c, s.master, "server finished", s.verifyDigest))
    ensures Rt2Step(c, s, ServerReply(c, s.keys, s.master, s.verifyDigest, nonce))
         == (true, s.(established := true, decrSeq := 1))
  {
    hide Rt2Step, FinishedOnWire, GcmUnwrap, WriteRecord, PrintRecord, SplitRecords, IsServerFinished, FinishedMsg;
    var frag := FinishedOnWire(c, s, nonce);
    assert frag == ServerFinishedFrag(c, s.keys, s.master, s.verifyDigest, nonce) by {
      OnWireIs(c, s, nonce);
    }
    FinishedIsServers(c, s, frag);
    var reply := ServerReply(c, s.keys, s.master, s.verifyDigest, nonce);
    var a, b := Record(CHANGE_CIPHER, 3, 3, [1]), Record(HANDSHAKE, 3, 3, frag);
    WriteIsPrint(CHANGE_CIPHER, [1]);
    WriteIsPrint(HANDSHAKE, frag);
    TwoRecords(a, b);
    Rt2AcceptedIff(c, s, reply);
    var rs := [a, b];
    assert rs[1].ct == HANDSHAKE && rs[0].ct == CHANGE_CIPHER;
    assert Encrypted(rs, 1) == 0 && Encrypted(rs, 2) == 1;
    assert CipherChangedBefore(rs, 1);
    assert ServerFlight(c, s, 0, false, rs);
  }

  /** The key pair is usable and the signer produces a signature. */
  ghost predicate CanAnswer(c: Crypto, p: Pairing, d: Draws) {
    c.pub(d.ephPriv).Some? && forall digest :: c.sign(p.priv, digest, d.sigNonce).Some?
  }

  function NewWith(p: Pairing): Chan {
    Fresh().(pairing := Some(p))
  }

  /** What a new channel and the sensor have in common when the client sends its second request. */
  lemma MeetsSensor(c: Crypto, srv: Server, p: Pairing, d: Draws) returns (f: Facts)
    requires Lawful(c) && Honest(c, srv, p) && CanAnswer(c, p, d)
    ensures f.stream == Frags(srv.flight) && f.random == srv.random && c.pub(d.ephPriv) == Some(f.point)
    ensures c.sign(p.priv, c.sha256(Signed(NewWith(p), d, p, f.stream, f.point)), d.sigNonce) == Some(f.sig)
    ensures c.ecdh(d.ephPriv, SensorPoint(p)) == Some(f.premaster) && c.ecdh(srv.priv, f.point) == Some(f.premaster)
    ensures Heard(PrintRecords(srv.flight), NewWith(p).serverRandom, f.stream, f.random)
  {
    hide Signed, Heard, Rt1Step, FirstRequest, ClientHello, WriteRecord;
    var s0 := NewWith(p);
    var s1 := SendStep(HelloStep(s0, d), WriteRecord(HANDSHAKE, ClientHello(d.clientRandom)));
    FirstHalfIs(s0, d, PrintRecords(srv.flight));
    FlightAccepted(c, srv, p, s1);
    PrintedSplit(srv.flight);
    StreamIsFragments(PrintRecords(srv.flight));
    var stream, point := Frags(srv.flight), c.pub(d.ephPriv).value;
    var sig := c.sign(p.priv, c.sha256(Signed(s0, d, p, stream, point)), d.sigNonce).value;
    assert |sig| <= 72;
    assert c.pub(srv.priv) == Some(SensorPoint(p));
    f := Facts(stream, srv.random, point, sig, c.ecdh(d.ephPriv, SensorPoint(p)).value);
  }

  /** The sensor finds in the two requests what the client put there. */
  lemma RequestsAreRead(random: Bytes32, cert: Bytes, point: Point, sig: Signature, frag: Bytes)
    requires |cert| == 400 && |frag| == 40
    ensures var auth := CertMsg(cert) + KeyExchangeMsg(point) + VerifyMsg(sig);
      var req1 := RecordOf(0x16, HelloMsg(random));
      var req2 := RecordOf(0x16, auth) + [0x14, 3, 3, 0, 1, 1] + [0x16, 3, 3, 0, 40] + frag;
      ReadRequests(req1, req2) == Some(ClientFlight(HelloMsg(random), random, auth, point, frag))
  {
    var hello := HelloMsg(random);
    var req1 := RecordOf(0x16, hello);
    assert req1[5..] == hello;
    assert req1[11..43] == hello[6..38] == random;
    var auth := CertMsg(cert) + KeyExchangeMsg(point) + VerifyMsg(sig);
    var n := |auth|;
    AuthParts(cert, point, sig);
    var first := RecordOf(0x16, auth);
    var mid := [0x14, 3, 3, 0, 1, 1] + [0x16, 3, 3, 0, 40];
    var req2 := first + mid + frag;
    assert req2 == first + [0x14, 3, 3, 0, 1, 1] + [0x16, 3, 3, 0, 40] + frag;
    hide CertMsg, KeyExchangeMsg, VerifyMsg, HelloMsg;
    assert first[3] == n / 256 && first[4] == n % 256 && first[5..] == auth;
    assert |first| == n + 5;
    assert req2[..n + 5] == first && req2[n + 5..n + 16] == mid && req2[n + 16..] == frag;
    assert req2[5..n + 5] == req2[..n + 5][5..];
    assert req2[422..454] == first[5..][417..449] && req2[454..486] == first[5..][449..481];
  }

  lemma AuthParts(cert: Bytes, point: Point, sig: Signature)
    requires |cert| == 400
    ensures var auth := CertMsg(cert) + KeyExchangeMsg(point) + VerifyMsg(sig);
      481 <= |auth| < 65536 && auth[417..449] == point.x && auth[449..481] == point.y
  {
    var kex := KeyExchangeMsg(point);
    var auth := CertMsg(cert) + kex + VerifyMsg(sig);
    assert auth[412..481] == kex;
    assert auth[417..449] == kex[5..37] && auth[449..481] == kex[37..69];
  }

  /** The sensor is in the client's session, has verified the client, and its end has sent and read one record. */
  ghost predicate Follows(c: Crypto, srv: Server, s: Chan, session: Option<ServerSession>) {
    && session.Some? && session.value.clientVerified
    && session.value.master == s.master && session.value.keys == s.keys
    && session.value.reply == ServerReply(c, s.keys, s.master, s.verifyDigest, srv.finNonce)
    && var end := session.value.end;
       end.established && end.keys == Flipped(s.keys) && end.encrSeq == 1 && end.decrSeq == 1
  }

  /** The sensor, from the bytes alone, derives the same session and verifies the client. */
  lemma ServerFollows(c: Crypto, srv: Server, p: Pairing, d: Draws, f: Facts)
    requires Lawful(c) && f.stream == Frags(srv.flight) && f.random == srv.random
    requires c.ecdh(srv.priv, f.point) == Some(f.premaster)
    ensures var s := NewWith(p);
      Follows(c, srv, Keyed(c, s, d, p, f), ServeSecond(c, srv, FirstRequest(d), SecondRequest(c, s, d, p, f)))
  {
    hide ReadRequests, Answer, MasterOf, KeysOf, PrintMsg, GcmWrap, GcmUnwrap, Protect, PHash, ServerReply;
    hide First48, Next48, CertMsg, KeyExchangeMsg, VerifyMsg, RecordOf, HelloMsg, KeyMaterial, VerifyData;
    var s := NewWith(p);
    var made, auth := Keyed(c, s, d, p, f), AuthBytes(p, f);
    var fin := ClientFinished(c, s, d, p, f);
    var frag := Protect(c, made.keys.encrKey, made.keys.encrIv, 0, 0x16, d.finNonce, fin);
    DerivesAsTls(c, f.premaster, d.clientRandom, srv.random);
    assert made.keys == KeysOf(c, made.master, d.clientRandom, srv.random);
    FinishedIs(c, made.master, "client finished", made.verifyDigest);
    VerifiesAsTls(c, made.master, "client finished", made.verifyDigest);
    MessagesAsTls(d.clientRandom, p, f.point, f.sig, VerifyData(c, made.master, "client finished", made.verifyDigest));
    assert fin == FinishedMsg(c, made.master, "client finished", made.verifyDigest);
    ProtectsAsTls(c, made.keys.encrKey, made.keys.encrIv, 0, HANDSHAKE, d.finNonce, fin);
    UnwrapUndoesWrap(c, made.keys.encrKey, made.keys.encrIv, 0, HANDSHAKE, d.finNonce, fin);
    assert |frag| == 40;
    RequestsAreRead(d.clientRandom, CertBytes(p.host), f.point, f.sig, frag);
    var heard := ClientFlight(HelloMsg(d.clientRandom), d.clientRandom, auth, f.point, frag);
    assert ReadRequests(FirstRequest(d), SecondRequest(c, s, d, p, f)) == Some(heard);
    assert [] + HelloMsg(d.clientRandom) == HelloMsg(d.clientRandom);
    AnswerIs(c, srv, heard, f.premaster);
  }

  /**
   * Completeness: a new channel paired with an honest sensor becomes
   * established, whatever is drawn and however the sensor cuts its flight;
   * the sensor verifies the client and both hold the same secret and keys.
   */
  lemma HandshakeCompletes(c: Crypto, srv: Server, p: Pairing, d: Draws)
    requires Lawful(c) && Honest(c, srv, p) && CanAnswer(c, p, d)
    ensures var (ok, s) := HandshakeStep(c, ServerIo(c, srv), Fresh().(pairing := Some(p)), d);
            && ok && s.established && s.encrSeq == 1 && s.decrSeq == 1
            && |s.sent| == 2
            && var session := ServeSecond(c, srv, s.sent[0], s.sent[1]);
            && session.Some? && session.value.clientVerified
            && session.value.master == s.master && session.value.keys == s.keys
            && Mirrored(s, session.value.end) && Mirrored(session.value.end, s)
  {
    hide HandshakeStep, Rt2Step, ServeSecond, Honest, CanAnswer, ServerReply, Signed, Heard;
    hide FirstRequest, SecondRequest, Transcript, MasterFrom, KeysFor, ClientFinished, FinishedOnWire;
    var io := ServerIo(c, srv);
    var s0 := NewWith(p);
    var f := MeetsSensor(c, srv, p, d);
    assert [] + [FirstRequest(d)] == [FirstRequest(d)];
    assert Agreed(c, io, s0, d, f);
    var g := HandshakeRuns(c, io, s0, d);
    var made := Keyed(c, s0, d, p, f);
    assert made.sent == [FirstRequest(d), SecondRequest(c, s0, d, p, f)];
    ServerFollows(c, srv, p, d, f);
    FinishedOpens(c, made, srv.finNonce);
    ReplyAccepted(c, made, srv.finNonce);
  }

  // ------------------------------------------- the assumptions can be met together

  function SomeHello(random: Bytes32): HsMsg {
    HsMsg(0x02, [3, 3] + random + [0, 0xc0, 0x2e, 0])
  }

  /** A sensor whose flight is one record with a ServerHello and a ServerHelloDone. */
  function SomeServer(random: Bytes32): Server {
    Server(Zeros(32), random, [Record(HANDSHAKE, 3, 3, PrintMsgs([SomeHello(random), HsMsg(0x0e, [])]))], Zeros(8))
  }

  function SomePairing(): Pairing {
    var cert := Cert(0, Zeros(32), Zeros(32), 0, Zeros(256));
    Pairing(Zeros(32), cert, cert)
  }

  lemma SomeFlight(random: Bytes32)
    ensures var flight, ms := SomeServer(random).flight, [SomeHello(random), HsMsg(0x0e, [])];
            AllFit(flight) && AllHandshake(flight) && SplitMsgs(Frags(flight)) == Some(ms)
  {
    var hello, done := SomeHello(random), HsMsg(0x0e, []);
    var ms := [hello, done];
    PrintedMsgsSplit(ms);
    assert ms[1..] == [done] && [done][1..] == [];
    assert PrintMsgs([done]) == PrintMsg(done) + [] == PrintMsg(done);
    assert PrintMsgs(ms) == PrintMsg(hello) + PrintMsg(done);
    var flight := SomeServer(random).flight;
    assert flight[1..] == [];
    assert Frags(flight) == PrintMsgs(ms) + [] == PrintMsgs(ms);
  }

  /** For every random there is an honest sensor, and a client that can answer it, under lawful primitives. */
  lemma HonestIsPossible(random: Bytes32, d: Draws)
    ensures Lawful(Toy()) && Honest(Toy(), SomeServer(random), SomePairing()) && CanAnswer(Toy(), SomePairing(), d)
  {
    LawsHaveAModel();
    SomeFlight(random);
    var ms := [SomeHello(random), HsMsg(0x0e, [])];
    assert ms[0].body[2..34] == random && HelloOk(ms[0].body);
    HelloOkIff(ms[0].body);
    assert IsFlightMsg(ms[0]);
    assert ms[0].id == 0x02;
  }
}
