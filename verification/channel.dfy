/**
 * The secure channel: a two-round-trip handshake, then application records in
 * both directions. The class updates its fields as the driver does; the
 * functions before it say what each operation makes of the channel's state.
 */
module Channel {
  import opened ByteStrings
  import opened TlsCrypto
  import opened PairingCodec
  import opened Records

  /** The transport callback, as a function of everything the channel has sent through it. */
  type Io = seq<Bytes> -> Option<Bytes>

  /** What the random generator and the signer's own randomness contribute to one handshake. */
  datatype Draws = Draws(clientRandom: Bytes32, ephPriv: Bytes32, sigNonce: Bytes, finNonce: Bytes8)

  /** The input of one AEAD seal. */
  datatype Sealed = Sealed(ct: byte, nonce: Bytes8, plain: Bytes)

  /** `transcript` is what has been hashed, `sealed` what was sealed under the present keys. */
  datatype Chan = Chan(
    pairing: Option<Pairing>, established: bool,
    clientRandom: Bytes32, serverRandom: Bytes32, ephPriv: Bytes32,
    master: Bytes, verifyDigest: Bytes, keys: Keys,
    encrSeq: word64, decrSeq: word64,
    transcript: Bytes, sent: seq<Bytes>, sealed: seq<Sealed>)

  function Fresh(): Chan {
    Chan(None, false, Zeros(32), Zeros(32), Zeros(32), Zeros(48), Zeros(32),
         Keys(Zeros(32), Zeros(32), Zeros(4), Zeros(4)), 0, 0, [], [], [])
  }

  // -------------------------------------------------------------- ClientHello

  function ClientHelloBody(random: Bytes32): Bytes {
    [3, 3] + random + [7, 0, 0, 0, 0, 0, 0, 0] + [0x00, 0x04, 0xc0, 0x05, 0xc0, 0x2e] + [0]
    + [0x00, 0x0a, 0x00, 0x04, 0x00, 0x02, 0x00, 0x17] + [0x00, 0x0b, 0x00, 0x02, 0x01, 0x00]
  }

  function ClientHello(random: Bytes32): Bytes {
    PrintMsg(HsMsg(0x01, ClientHelloBody(random)))
  }

  function HelloStep(s: Chan, d: Draws): Chan {
    s.(clientRandom := d.clientRandom, transcript := s.transcript + ClientHello(d.clientRandom))
  }

  // ------------------------------------------------------ the first reply (RT1)

  /** The handshake bytes of a buffer of whole handshake records. */
  function StreamOf(b: Bytes): Option<Bytes>
    decreases |b|
  {
    if b == [] then Some([])
    else if !StartsWhole(b) || FirstRecord(b).ct != HANDSHAKE then None
    else match StreamOf(AfterFirst(b))
         case None => None
         case Some(rest) => Some(FirstRecord(b).frag + rest)
  }

  predicate HelloOk(body: Bytes) {
    && |body| >= 38
    && var p := 35 + (body[34] as int);
    p + 3 <= |body| && body[p] == 0xc0 && body[p + 1] == 0x2e
  }

  /** The certificate types listed include ECDSA signatures. */
  predicate CertRequestOk(body: Bytes) {
    && |body| >= 1
    && 1 + (body[0] as int) <= |body|
    && 64 in body[1..1 + (body[0] as int)]
  }

  datatype Rt1 = Rt1(fed: Bytes, random: Bytes32, hello: bool, done: bool, ok: bool)

  function Rt1Take(st: Rt1, m: HsMsg): Rt1 {
    var fed := st.(fed := st.fed + PrintMsg(m));
    var bad := fed.(ok := false);
    if st.done then bad
    else if m.id == 0x02 then
      if |m.body| < 38 then bad
      else if HelloOk(m.body) then fed.(random := m.body[2..34], hello := true)
      else bad.(random := m.body[2..34])
    else if m.id == 0x0b then fed
    else if m.id == 0x0d then if CertRequestOk(m.body) then fed else bad
    else if m.id == 0x0e then if st.hello then fed.(done := true) else bad
    else bad
  }

  function Rt1Walk(st: Rt1, b: Bytes): Rt1
    decreases |b|
  {
    if !st.ok || b == [] then st
    else if !StartsMsg(b) then st.(ok := false)
    else Rt1Walk(Rt1Take(st, FirstMsg(b)), AfterMsg(b))
  }

  function Rt1Start(random: Bytes32): Rt1 {
    Rt1([], random, false, false, true)
  }

  function Rt1Of(resp: Bytes, random: Bytes32): Rt1 {
    match StreamOf(resp)
    case None => Rt1Start(random).(ok := false)
    case Some(stream) => var w := Rt1Walk(Rt1Start(random), stream); w.(ok := w.ok && w.done)
  }

  function Rt1Step(s: Chan, resp: Bytes): (bool, Chan) {
    var w := Rt1Of(resp, s.serverRandom);
    (w.ok, s.(transcript := s.transcript + w.fed, serverRandom := w.random))
  }

  // --------------------------------------------------- the second request (RT2)

  function Certificate(p: Pairing): Bytes {
    PrintMsg(HsMsg(0x0b, [0x00, 0x01, 0x90, 0x00, 0x01, 0x90, 0, 0] + CertBytes(p.host)))
  }

  function KeyExchange(p: Point): Bytes {
    PrintMsg(HsMsg(0x10, [4] + p.x + p.y))
  }

  function CertVerify(sig: Bytes): Bytes {
    PrintMsg(HsMsg(0x0f, sig))
  }

  function FinishedMsg(c: Crypto, master: Bytes, name: string, digest: Bytes): Bytes {
    PrintMsg(HsMsg(0x14, PrfOf(c, master, name, digest, 12)))
  }

  function SensorPoint(p: Pairing): Point {
    Point(p.sensor.pubX, p.sensor.pubY)
  }

  /** One record sealed under the present keys. */
  function SealStep(c: Crypto, s: Chan, ct: byte, nonce: Bytes8, plain: Bytes): (Bytes, Chan) {
    (WriteRecord(ct, GcmWrap(c, s.keys.encrKey, s.keys.encrIv, s.encrSeq, ct, nonce, plain)),
     s.(encrSeq := Next64(s.encrSeq), sealed := s.sealed + [Sealed(ct, nonce, plain)]))
  }

  /** The three hashed messages, if nothing fails; the signature covers the first two. */
  function ClientAuthStep(c: Crypto, s: Chan, d: Draws): (Option<Bytes>, Chan)
    requires s.pairing.Some?
  {
    var p := s.pairing.value;
    var s1 := s.(transcript := s.transcript + Certificate(p), ephPriv := d.ephPriv);
    match c.pub(d.ephPriv)
    case None => (None, s1)
    case Some(point) =>
      var s2 := s1.(transcript := s1.transcript + KeyExchange(point));
      match c.sign(p.priv, c.sha256(s2.transcript), d.sigNonce)
      case None => (None, s2)
      case Some(sig) => (Some(Certificate(p) + KeyExchange(point) + CertVerify(sig)),
                         s2.(transcript := s2.transcript + CertVerify(sig)))
  }

  /** Keys, digest and both sequence numbers, once the premaster secret is known. */
  function SwitchKeys(c: Crypto, s: Chan, premaster: Bytes): Chan
    requires Lengths(c)
  {
    var master := MasterOf(c, premaster, s.clientRandom, s.serverRandom);
    s.(master := master, keys := KeysOf(c, master, s.clientRandom, s.serverRandom),
       verifyDigest := c.sha256(s.transcript), encrSeq := 0, decrSeq := 0, sealed := [])
  }

  /** The request, if nothing fails, and the channel after the messages that were hashed. */
  function Rt2Request(c: Crypto, s: Chan, d: Draws): (Option<Bytes>, Chan)
    requires Lengths(c) && s.pairing.Some?
  {
    var (content, s1) := ClientAuthStep(c, s, d);
    if content.None? then (None, s1)
    else
      match c.ecdh(d.ephPriv, SensorPoint(s1.pairing.value))
      case None => (None, s1)
      case Some(premaster) =>
        var s2 := SwitchKeys(c, s1, premaster);
        var (fin, s3) := SealStep(c, s2, HANDSHAKE, d.finNonce,
                                  FinishedMsg(c, s2.master, "client finished", s2.verifyDigest));
        (Some(WriteRecord(HANDSHAKE, content.value) + WriteRecord(CHANGE_CIPHER, [1]) + fin), s3)
  }

  // ----------------------------------------------------- the second reply (RT2)

  datatype Rt2 = Rt2(decrSeq: word64, ccs: bool, fin: bool, ok: bool)

  function Rt2Take(c: Crypto, s: Chan, st: Rt2, r: Record): Rt2 {
    var bad := st.(ok := false);
    if r.ct == CHANGE_CIPHER then if r.frag == [1] then st.(ccs := true) else bad
    else if r.ct == HANDSHAKE then
      if !st.ccs then bad
      else match GcmUnwrap(c, s.keys.decrKey, s.keys.decrIv, st.decrSeq, HANDSHAKE, r.frag)
           case None => bad
           case Some(plain) =>
             var st' := st.(decrSeq := Next64(st.decrSeq));
             if |plain| == 16 && plain[0] == 0x14
                && plain[4..] == PrfOf(c, s.master, "server finished", s.verifyDigest, 12)
             then st'.(fin := true)
             else st'.(ok := false)
    else bad
  }

  function Rt2Walk(c: Crypto, s: Chan, st: Rt2, b: Bytes): Rt2
    decreases |b|
  {
    if !st.ok || b == [] then st
    else if !StartsWhole(b) then st.(ok := false)
    else Rt2Walk(c, s, Rt2Take(c, s, st, FirstRecord(b)), AfterFirst(b))
  }

  function Rt2Step(c: Crypto, s: Chan, resp: Bytes): (bool, Chan) {
    var w := Rt2Walk(c, s, Rt2(s.decrSeq, false, false, true), resp);
    var ok := w.ok && w.ccs && w.fin;
    (ok, s.(decrSeq := w.decrSeq, established := s.established || ok))
  }

  // ------------------------------------------------------------- the handshake

  function SendStep(s: Chan, out: Bytes): Chan {
    s.(sent := s.sent + [out])
  }

  function HandshakeStep(c: Crypto, io: Io, s: Chan, d: Draws): (bool, Chan)
    requires Lengths(c)
  {
    if s.pairing.None? then (false, s)
    else
      var s1 := SendStep(HelloStep(s, d), WriteRecord(HANDSHAKE, ClientHello(d.clientRandom)));
      match io(s1.sent)
      case None => (false, s1)
      case Some(resp1) =>
        var (ok1, s2) := Rt1Step(s1, resp1);
        if !ok1 then (false, s2)
        else
          var (out, s3) := Rt2Request(c, s2, d);
          if out.None? then (false, s3)
          else
            var s4 := SendStep(s3, out.value);
            match io(s4.sent)
            case None => (false, s4)
            case Some(resp2) => Rt2Step(c, s4, resp2)
  }

  // ------------------------------------------------------- application records

  function WrapStep(c: Crypto, s: Chan, nonce: Bytes8, plain: Bytes): (Bytes, Chan) {
    if !s.established then (plain, s) else SealStep(c, s, APPDATA, nonce, plain)
  }

  datatype Unwrapped = Unwrapped(ok: bool, decrSeq: word64, out: Bytes)

  /** A failure gives no data, but keeps the sequence number it reached. */
  function UnwrapWalk(c: Crypto, keys: Keys, seqNo: word64, out: Bytes, b: Bytes): Unwrapped
    decreases |b|
  {
    if b == [] then Unwrapped(true, seqNo, out)
    else if !StartsWhole(b) then Unwrapped(false, seqNo, [])
    else
      var r := FirstRecord(b);
      match GcmUnwrap(c, keys.decrKey, keys.decrIv, seqNo, r.ct, r.frag)
      case None => Unwrapped(false, seqNo, [])
      case Some(plain) =>
        if r.ct == APPDATA then UnwrapWalk(c, keys, Next64(seqNo), out + plain, AfterFirst(b))
        else Unwrapped(false, Next64(seqNo), [])
  }

  function UnwrapStep(c: Crypto, s: Chan, b: Bytes): (Option<Bytes>, Chan) {
    if !s.established then (Some(b), s)
    else
      var u := UnwrapWalk(c, s.keys, s.decrSeq, [], b);
      (if u.ok then Some(u.out) else None, s.(decrSeq := u.decrSeq))
  }

  /** `close_notify` is sent if it can be; the channel is closed in any case. */
  function CloseStep(c: Crypto, s: Chan, nonce: Bytes8): Chan {
    if !s.established then s
    else
      var (alert, s') := SealStep(c, s, ALERT, nonce, [1, 0]);
      SendStep(s', alert).(established := false)
  }

  // ------------------------------------------------------------ the channel object

  /** The record that starts at an offset, read through the header's own bytes. */
  lemma RecordAt(buf: Bytes, off: nat)
    requires off <= |buf| && StartsWhole(buf[off..])
    ensures var b := buf[off..]; var n := RecordLen(b);
            && FirstRecord(b).ct == buf[off] && FirstRecord(b).frag == buf[off + 5..off + 5 + n]
            && AfterFirst(b) == buf[off + 5 + n..]
  {
  }

  lemma MsgAt(buf: Bytes, off: nat)
    requires off <= |buf| && StartsMsg(buf[off..])
    ensures var b := buf[off..]; var n := MsgLen(b);
            && FirstMsg(b) == HsMsg(buf[off], buf[off + 4..off + 4 + n])
            && AfterMsg(b) == buf[off + 4 + n..]
            && buf[off..off + 4 + n] == PrintMsg(FirstMsg(b))
  {
    var b := buf[off..];
    var n := MsgLen(b);
    Be24OfLen(b);
    assert buf[off..off + 4 + n] == [b[0]] + [b[1], b[2], b[3]] + b[4..4 + n];
  }

  lemma Rt2WalkNext(c: Crypto, s: Chan, st: Rt2, b: Bytes)
    requires st.ok && StartsWhole(b)
    ensures Rt2Walk(c, s, st, b) == Rt2Walk(c, s, Rt2Take(c, s, st, FirstRecord(b)), AfterFirst(b))
  {
  }

  lemma Rt1WalkNext(st: Rt1, b: Bytes)
    requires st.ok && StartsMsg(b)
    ensures Rt1Walk(st, b) == Rt1Walk(Rt1Take(st, FirstMsg(b)), AfterMsg(b))
  {
  }

  lemma Rt1WalkEnd(st: Rt1, b: Bytes)
    requires !st.ok || b == [] || !StartsMsg(b)
    ensures Rt1Walk(st, b) == if st.ok && b != [] then st.(ok := false) else st
  {
  }

  lemma StreamNext(b: Bytes)
    ensures b == [] ==> StreamOf(b) == Some([])
    ensures b != [] && !(StartsWhole(b) && FirstRecord(b).ct == HANDSHAKE) ==> StreamOf(b) == None
    ensures b != [] && StartsWhole(b) && FirstRecord(b).ct == HANDSHAKE ==>
              StreamOf(b) == match StreamOf(AfterFirst(b))
                             case None => None
                             case Some(rest) => Some(FirstRecord(b).frag + rest)
  {
  }

  /** What a handshake record of the second reply does depends on the session, not on the version bytes. */
  lemma Rt2TakeReads(c: Crypto, was: Chan, s: Chan, st: Rt2, frag: Bytes, r: Record)
    requires s.keys == was.keys && s.master == was.master && s.verifyDigest == was.verifyDigest
    requires r.ct == HANDSHAKE && r.frag == frag
    ensures Rt2Take(c, was, st, r) == Rt2Take(c, s, st, Record(HANDSHAKE, 3, 3, frag))
  {
  }

  /** Reads the record at `off`, or nothing if its header or its body is cut. */
  method ReadRecord(buf: Bytes, off: nat) returns (r: Option<Record>)
    requires off < |buf|
    ensures r.Some? <==> StartsWhole(buf[off..])
    ensures r.Some? ==> r.value == FirstRecord(buf[off..]) && off + 5 + |r.value.frag| <= |buf|
                        && buf[off + 5 + |r.value.frag|..] == AfterFirst(buf[off..])
  {
    if off + 5 > |buf| {
      return None;
    }
    var rlen := (buf[off + 3] as int) * 256 + (buf[off + 4] as int);
    assert rlen == RecordLen(buf[off..]);
    if off + 5 + rlen > |buf| {
      return None;
    }
    RecordAt(buf, off);
    r := Some(Record(buf[off], buf[off + 1], buf[off + 2], buf[off + 5..off + 5 + rlen]));
  }

  /** Reads the handshake message at `off`, or nothing if its header or its body is cut. */
  method ReadMsg(buf: Bytes, off: nat) returns (r: Option<HsMsg>)
    requires off < |buf|
    ensures r.Some? <==> StartsMsg(buf[off..])
    ensures r.Some? ==> r.value == FirstMsg(buf[off..]) && off + 4 + |r.value.body| <= |buf|
                        && buf[off + 4 + |r.value.body|..] == AfterMsg(buf[off..])
                        && buf[off..off + 4 + |r.value.body|] == PrintMsg(r.value)
  {
    if off + 4 > |buf| {
      return None;
    }
    var mlen := (buf[off + 1] as int) * 65536 + (buf[off + 2] as int) * 256 + (buf[off + 3] as int);
    assert mlen == MsgLen(buf[off..]);
    if off + 4 + mlen > |buf| {
      return None;
    }
    MsgAt(buf, off);
    r := Some(HsMsg(buf[off], buf[off + 4..off + 4 + mlen]));
  }

  class VerimarkTls {
    const c: Crypto
    const io: Io
    var pairing: Option<Pairing>
    var established: bool
    var clientRandom: Bytes32
    var serverRandom: Bytes32
    var ephPriv: Bytes32
    var master: Bytes
    var verifyDigest: Bytes
    var keys: Keys
    var encrSeq: word64
    var decrSeq: word64
    var transcript: Bytes
    var sent: seq<Bytes>
    ghost var sealed: seq<Sealed>

    ghost function State(): Chan
      reads this
    {
      Chan(pairing, established, clientRandom, serverRandom, ephPriv, master, verifyDigest, keys,
           encrSeq, decrSeq, transcript, sent, sealed)
    }

    constructor (c: Crypto, io: Io)
      ensures this.c == c && this.io == io && State() == Fresh()
    {
      this.c, this.io := c, io;
      pairing, established := None, false;
      clientRandom, serverRandom, ephPriv := Zeros(32), Zeros(32), Zeros(32);
      master, verifyDigest := Zeros(48), Zeros(32);
      keys := Keys(Zeros(32), Zeros(32), Zeros(4), Zeros(4));
      encrSeq, decrSeq, transcript, sent, sealed := 0, 0, [], [], [];
    }

    method SetPairing(p: Pairing)
      modifies this
      ensures State() == old(State()).(pairing := Some(p))
    {
      pairing := Some(p);
    }

    /** Appends a message to `dst`; every message but Finished is hashed too. */
    method AppendMsg(dst: Bytes, id: byte, body: Bytes) returns (grown: Bytes)
      modifies this
      ensures grown == dst + PrintMsg(HsMsg(id, body))
      ensures State() == old(State()).(transcript := old(transcript)
                                       + if id != 0x14 then PrintMsg(HsMsg(id, body)) else [])
    {
      var n := |body|;
      var start := |dst|;
      grown := dst + [id, (n / 65536) % 256, (n / 256) % 256, n % 256] + body;
      assert grown == dst + PrintMsg(HsMsg(id, body));
      if id != 0x14 {
        assert grown[start..] == PrintMsg(HsMsg(id, body));
        transcript := transcript + grown[start..];
      } else {
        assert transcript + [] == transcript;
      }
    }

    method BuildClientHello(d: Draws) returns (out: Bytes)
      modifies this
      ensures State() == HelloStep(old(State()), d)
      ensures out == WriteRecord(HANDSHAKE, ClientHello(d.clientRandom))
    {
      clientRandom := d.clientRandom;
      var body: Bytes := [3, 3];
      body := body + clientRandom;
      body := body + [7, 0, 0, 0, 0, 0, 0, 0];
      body := body + [0x00, 0x04, 0xc0, 0x05, 0xc0, 0x2e];
      body := body + [0];
      body := body + [0x00, 0x0a, 0x00, 0x04, 0x00, 0x02, 0x00, 0x17];
      body := body + [0x00, 0x0b, 0x00, 0x02, 0x01, 0x00];
      var content := AppendMsg([], 0x01, body);
      assert [] + PrintMsg(HsMsg(0x01, body)) == PrintMsg(HsMsg(0x01, body));
      out := WriteRecord(HANDSHAKE, content);
    }

    /** The first loop of the parser: unpack the records, all of them handshake. */
    static method CollectStream(resp: Bytes) returns (r: Option<Bytes>)
      ensures r == StreamOf(resp)
    {
      hide StreamOf;
      var hsbuf: Bytes := [];
      var off := 0;
      assert resp[0..] == resp;
      assert StreamOf(resp).Some? ==> [] + StreamOf(resp).value == StreamOf(resp).value;
      while off < |resp|
        invariant off <= |resp|
        invariant StreamOf(resp) == match StreamOf(resp[off..])
                                    case None => None
                                    case Some(rest) => Some(hsbuf + rest)
      {
        var record := ReadRecord(resp, off);
        StreamNext(resp[off..]);
        if record.None? || record.value.ct != HANDSHAKE {
          return None;
        }
        var frag := record.value.frag;
        ghost var rest := StreamOf(AfterFirst(resp[off..]));
        if rest.Some? {
          Associates(hsbuf, frag, rest.value);
        }
        hsbuf := hsbuf + frag;
        off := off + 5 + |frag|;
      }
      StreamNext(resp[off..]);
      assert hsbuf + [] == hsbuf;
      r := Some(hsbuf);
    }

    /** One message of the first reply: the switch of the parser. */
    method TakeMsg(ghost st: Rt1, id: byte, body: Bytes, gotServerHello: bool, rt1Done: bool)
        returns (ok: bool, hello: bool, done: bool)
      requires st == Rt1(st.fed, serverRandom, gotServerHello, rt1Done, true)
      modifies this`serverRandom
      ensures Rt1Take(st, HsMsg(id, body)) == Rt1(st.fed + PrintMsg(HsMsg(id, body)), serverRandom, hello, done, ok)
    {
      hello, done, ok := gotServerHello, rt1Done, false;
      var mlen := |body|;
      if rt1Done {
        return;
      }
      if id == 0x02 {
        if mlen < 2 + 32 + 1 + 2 + 1 {
          return;
        }
        serverRandom := body[2..34];
        var p := 35 + (body[34] as int);
        if p + 3 > mlen {
          return;
        }
        var suite := (body[p] as int) * 256 + (body[p + 1] as int);
        if suite != 0xc02e {
          return;
        }
        hello := true;
      } else if id == 0x0b {
      } else if id == 0x0d {
        if mlen < 1 {
          return;
        }
        var count := body[0] as int;
        if 1 + count > mlen {
          return;
        }
        var hasEcdsa := HasEcdsa(body, count);
        if !hasEcdsa {
          return;
        }
      } else if id == 0x0e {
        if !gotServerHello {
          return;
        }
        done := true;
      } else {
        return;
      }
      ok := true;
    }

    /** The second loop of the parser: hash and check the messages one by one. */
    method ParseMessages(hsbuf: Bytes) returns (ok: bool)
      modifies this`transcript, this`serverRandom
      ensures var w := Rt1Walk(Rt1Start(old(serverRandom)), hsbuf);
              ok == (w.ok && w.done) && transcript == old(transcript) + w.fed && serverRandom == w.random
    {
      hide Rt1Walk, Rt1Take, PrintMsg;
      var gotServerHello, rt1Done := false, false;
      var off := 0;
      ghost var before := transcript;
      ghost var fed: Bytes := [];
      ghost var goal := Rt1Walk(Rt1Start(serverRandom), hsbuf);
      assert hsbuf[0..] == hsbuf && transcript + [] == transcript;
      while off < |hsbuf|
        invariant off <= |hsbuf|
        invariant Rt1Walk(Rt1(fed, serverRandom, gotServerHello, rt1Done, true), hsbuf[off..]) == goal
        invariant transcript == before + fed
      {
        ghost var st := Rt1(fed, serverRandom, gotServerHello, rt1Done, true);
        var m := ReadMsg(hsbuf, off);
        if m.None? {
          Rt1WalkEnd(st, hsbuf[off..]);
          return false;
        }
        Rt1WalkNext(st, hsbuf[off..]);
        ghost var next := Rt1Take(st, m.value);
        ghost var rest := AfterMsg(hsbuf[off..]);
        var end := off + 4 + |m.value.body|;
        transcript := transcript + hsbuf[off..end];
        fed := fed + hsbuf[off..end];
        assert transcript == before + fed;
        var taken;
        taken, gotServerHello, rt1Done := TakeMsg(st, m.value.id, m.value.body, gotServerHello, rt1Done);
        assert next == Rt1(fed, serverRandom, gotServerHello, rt1Done, taken);
        if !taken {
          Rt1WalkEnd(next, rest);
          return false;
        }
        off := end;
        assert hsbuf[off..] == rest;
        assert goal == Rt1Walk(next, rest);
      }
      Rt1WalkEnd(Rt1(fed, serverRandom, gotServerHello, rt1Done, true), hsbuf[off..]);
      ok := rt1Done;
    }

    method ProcessRt1(resp: Bytes) returns (ok: bool)
      modifies this`transcript, this`serverRandom
      ensures (ok, State()) == Rt1Step(old(State()), resp)
    {
      var collected := CollectStream(resp);
      if collected.None? {
        assert transcript + [] == transcript;
        return false;
      }
      ok := ParseMessages(collected.value);
    }

    static method HasEcdsa(body: Bytes, count: nat) returns (has: bool)
      requires 1 + count <= |body|
      ensures has <==> 64 in body[1..1 + count]
    {
      has := false;
      var i := 0;
      while i < count
        invariant 0 <= i <= count
        invariant has <==> 64 in body[1..1 + i]
      {
        assert body[1..1 + (i + 1)] == body[1..1 + i] + [body[1 + i]];
        if body[1 + i] == 64 {
          has := true;
        }
        i := i + 1;
      }
    }

    method BuildClientAuth(d: Draws) returns (content: Option<Bytes>)
      requires pairing.Some?
      modifies this
      ensures (content, State()) == ClientAuthStep(c, old(State()), d)
    {
      var p := pairing.value;
      var hostcert := new byte[400](i => 0);
      CertSerialize(p.host, hostcert, 0);
      assert hostcert[..] == hostcert[0..400];
      var content16 := AppendMsg([], 0x0b, [0x00, 0x01, 0x90] + [0x00, 0x01, 0x90] + [0, 0] + hostcert[..]);
      assert [0x00, 0x01, 0x90] + [0x00, 0x01, 0x90] + [0, 0] + hostcert[..]
          == [0x00, 0x01, 0x90, 0x00, 0x01, 0x90, 0, 0] + CertBytes(p.host);
      assert content16 == Certificate(p);
      ephPriv := d.ephPriv;
      var point := c.pub(ephPriv);
      if point.None? {
        return None;
      }
      content16 := AppendMsg(content16, 0x10, [4] + point.value.x + point.value.y);
      var sig := c.sign(p.priv, c.sha256(transcript), d.sigNonce);
      if sig.None? {
        return None;
      }
      content16 := AppendMsg(content16, 0x0f, sig.value);
      content := Some(content16);
    }

    /** Premaster, master secret, key block, and both sequence numbers back to zero. */
    method DeriveSession(premaster: Bytes)
      requires Lengths(c)
      modifies this`master, this`keys, this`verifyDigest, this`encrSeq, this`decrSeq, this`sealed
      ensures State() == SwitchKeys(c, old(State()), premaster)
    {
      hide MasterOf, KeysOf, Lengths, KeysFrom;
      var secret := DeriveMasterSecret(c, premaster, clientRandom, serverRandom);
      var block := DeriveKeys(c, secret, clientRandom, serverRandom);
      master, keys, verifyDigest := secret, block, c.sha256(transcript);
      encrSeq, decrSeq, sealed := 0, 0, [];
    }

    method VerifyData(name: Bytes) returns (data: Bytes)
      requires Lengths(c)
      ensures data == PHash(c.hmac, master, name + verifyDigest, 12)
    {
      var out := new byte[12](i => 0);
      Prf(c.hmac, 48, master, name, verifyDigest, out);
      data := out[..];
    }

    method SealRecord(ct: byte, nonce: Bytes8, plain: Bytes) returns (record: Bytes)
      modifies this
      ensures (record, State()) == SealStep(c, old(State()), ct, nonce, plain)
    {
      var frag := GcmWrap(c, keys.encrKey, keys.encrIv, encrSeq, ct, nonce, plain);
      encrSeq := Next64(encrSeq);
      sealed := sealed + [Sealed(ct, nonce, plain)];
      record := WriteRecord(ct, frag);
    }

    method BuildRt2(d: Draws) returns (out: Option<Bytes>)
      requires Lengths(c) && pairing.Some?
      modifies this
      ensures (out, State()) == Rt2Request(c, old(State()), d)
    {
      var content := BuildClientAuth(d);
      if content.None? {
        return None;
      }
      var records := WriteRecord(HANDSHAKE, content.value);
      var premaster := c.ecdh(d.ephPriv, SensorPoint(pairing.value));
      if premaster.None? {
        return None;
      }
      DeriveSession(premaster.value);
      records := records + WriteRecord(CHANGE_CIPHER, [1]);
      var verifyData := VerifyData(Ascii("client finished"));
      ghost var before := State();
      var finmsg := AppendMsg([], 0x14, verifyData);
      assert finmsg == PrintMsg(HsMsg(0x14, verifyData));
      assert before.transcript + [] == before.transcript;
      var fin := SealRecord(HANDSHAKE, d.finNonce, finmsg);
      out := Some(records + fin);
    }

    /** An encrypted handshake record of the second reply: it must be the server's Finished. */
    method TakeFinished(frag: Bytes) returns (ok: bool)
      requires Lengths(c)
      modifies this`decrSeq
      ensures forall fin :: Rt2Take(c, old(State()), Rt2(old(decrSeq), true, fin, true), Record(HANDSHAKE, 3, 3, frag))
                         == Rt2(decrSeq, true, ok || fin, ok)
    {
      var plain := GcmUnwrap(c, keys.decrKey, keys.decrIv, decrSeq, HANDSHAKE, frag);
      if plain.None? {
        return false;
      }
      decrSeq := Next64(decrSeq);
      if |plain.value| != 16 || plain.value[0] != 0x14 {
        return false;
      }
      var expected := VerifyData(Ascii("server finished"));
      ok := plain.value[4..] == expected;
    }

    /** One record of the second reply. */
    method TakeRecord(ghost was: Chan, r: Record, ccsSeen: bool, finSeen: bool)
        returns (ok: bool, ccs: bool, fin: bool)
      requires Lengths(c)
      requires was.keys == keys && was.master == master && was.verifyDigest == verifyDigest
      modifies this`decrSeq
      ensures Rt2Take(c, was, Rt2(old(decrSeq), ccsSeen, finSeen, true), r) == Rt2(decrSeq, ccs, fin, ok)
    {
      ok, ccs, fin := false, ccsSeen, finSeen;
      var ct, frag := r.ct, r.frag;
      if ct == CHANGE_CIPHER {
        assert frag == [1] <==> |frag| == 1 && frag[0] == 1;
        if |frag| != 1 || frag[0] != 1 {
          return;
        }
        ccs, ok := true, true;
      } else if ct == HANDSHAKE {
        if !ccsSeen {
          return;
        }
        Rt2TakeReads(c, was, State(), Rt2(decrSeq, ccsSeen, finSeen, true), frag, r);
        ok := TakeFinished(frag);
        fin := ok || finSeen;
      }
    }

    method ProcessRt2(resp: Bytes) returns (ok: bool)
      requires Lengths(c)
      modifies this`decrSeq, this`established
      ensures (ok, State()) == Rt2Step(c, old(State()), resp)
    {
      ghost var was := State();
      ghost var goal := Rt2Walk(c, was, Rt2(was.decrSeq, false, false, true), resp);
      var ccsSeen, finSeen := false, false;
      var off := 0;
      assert resp[0..] == resp;
      while off < |resp|
        invariant off <= |resp|
        invariant established == was.established
        invariant Rt2Walk(c, was, Rt2(decrSeq, ccsSeen, finSeen, true), resp[off..]) == goal
      {
        var record := ReadRecord(resp, off);
        if record.None? {
          return false;
        }
        ghost var rest := AfterFirst(resp[off..]);
        Rt2WalkNext(c, was, Rt2(decrSeq, ccsSeen, finSeen, true), resp[off..]);
        ghost var st := Rt2Take(c, was, Rt2(decrSeq, ccsSeen, finSeen, true), record.value);
        var taken;
        taken, ccsSeen, finSeen := TakeRecord(was, record.value, ccsSeen, finSeen);
        assert st == Rt2(decrSeq, ccsSeen, finSeen, taken);
        if !taken {
          return false;
        }
        off := off + 5 + |record.value.frag|;
        assert resp[off..] == rest;
        assert goal == Rt2Walk(c, was, st, rest);
      }
      assert resp[off..] == [];
      if !ccsSeen || !finSeen {
        return false;
      }
      established := true;
      ok := true;
    }

    method Handshake(d: Draws) returns (ok: bool)
      requires Lengths(c)
      modifies this
      ensures (ok, State()) == HandshakeStep(c, io, old(State()), d)
    {
      if pairing.None? {
        return false;
      }
      var out := BuildClientHello(d);
      sent := sent + [out];
      var resp1 := io(sent);
      if resp1.None? {
        return false;
      }
      var ok1 := ProcessRt1(resp1.value);
      if !ok1 {
        return false;
      }
      var out2 := BuildRt2(d);
      if out2.None? {
        return false;
      }
      sent := sent + [out2.value];
      var resp2 := io(sent);
      if resp2.None? {
        return false;
      }
      var ok2 := ProcessRt2(resp2.value);
      if !ok2 {
        return false;
      }
      ok := established;
    }

    method Wrap(nonce: Bytes8, plain: Bytes) returns (record: Bytes)
      modifies this
      ensures (record, State()) == WrapStep(c, old(State()), nonce, plain)
    {
      if !established {
        return plain;
      }
      record := SealRecord(APPDATA, nonce, plain);
    }

    /** The loop over the records of an established channel. */
    method UnwrapRecords(record: Bytes) returns (plain: Option<Bytes>)
      modifies this`decrSeq
      ensures var u := UnwrapWalk(c, keys, old(decrSeq), [], record);
              plain == (if u.ok then Some(u.out) else None) && decrSeq == u.decrSeq
    {
      var out: Bytes := [];
      var off := 0;
      ghost var goal := UnwrapWalk(c, keys, decrSeq, [], record);
      assert record[0..] == record;
      while off < |record|
        invariant off <= |record|
        invariant UnwrapWalk(c, keys, decrSeq, out, record[off..]) == goal
      {
        ghost var b := record[off..];
        var r := ReadRecord(record, off);
        if r.None? {
          return None;
        }
        var ct := r.value.ct;
        ghost var rest := AfterFirst(b);
        var dec := GcmUnwrap(c, keys.decrKey, keys.decrIv, decrSeq, ct, r.value.frag);
        if dec.None? {
          return None;
        }
        decrSeq := Next64(decrSeq);
        if ct == APPDATA {
          out := out + dec.value;
        } else {
          return None;
        }
        off := off + 5 + |r.value.frag|;
        assert record[off..] == rest;
        assert goal == UnwrapWalk(c, keys, decrSeq, out, rest);
      }
      assert record[off..] == [];
      plain := Some(out);
    }

    method Unwrap(record: Bytes) returns (plain: Option<Bytes>)
      modifies this`decrSeq
      ensures (plain, State()) == UnwrapStep(c, old(State()), record)
    {
      if !established {
        return Some(record);
      }
      plain := UnwrapRecords(record);
    }

    method Close(nonce: Bytes8)
      modifies this
      ensures State() == CloseStep(c, old(State()), nonce)
    {
      if !established {
        return;
      }
      var alert := SealRecord(ALERT, nonce, [1, 0]);
      sent := sent + [alert];
      var ignored := io(sent);
      established := false;
    }
  }
}
