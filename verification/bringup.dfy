/** The layers together: open the device, bring up the channel, ask for the stored objects. */
module BringUp {
  import opened ByteStrings
  import opened TlsCrypto
  import opened PairingCodec
  import opened Channel
  import opened HonestServer
  import opened Open
  import opened Framing
  import M = MocSend
  import T = Transport

  /** After a handshake with an honest sensor each end expects what the other sends next. */
  lemma EndsMeet(c: Crypto, srv: Server, p: Pairing, d: Draws)
    requires Lawful(c) && Honest(c, srv, p) && CanAnswer(c, p, d)
    ensures var (ok, s) := HandshakeStep(c, ServerIo(c, srv), Fresh().(pairing := Some(p)), d);
            ok && |s.sent| == 2
            && ServeSecond(c, srv, s.sent[0], s.sent[1]).Some?
            && M.Paired(s, ServeSecond(c, srv, s.sent[0], s.sent[1]).value.end)
  {
    hide HandshakeStep, ServeSecond, Honest, CanAnswer;
    HandshakeCompletes(c, srv, p, d);
  }

  /** The sensor holds the end of the channel that it made from the client's two requests. */
  ghost predicate AtItsEnd(c: Crypto, srv: Server, s: Chan, q: M.Sensor)
    requires Lengths(c)
  {
    && |s.sent| == 2 && ServeSecond(c, srv, s.sent[0], s.sent[1]).Some?
    && q.chan == ServeSecond(c, srv, s.sent[0], s.sent[1]).value.end
  }

  /**
   * What the theorem below is about: an open that begins a handshake with the
   * pairing of an honest sensor, and that sensor at its end of the channel,
   * with its objects and with at most 25 pauses before each chunk.
   */
  ghost predicate Ready(c: Crypto, hs: Bytes32, s: Station, ch: Chance, sid: Bytes, p: Pairing, srv: Server,
                        app: Bytes -> Bytes, ids: seq<Bytes16>, q: M.Sensor) {
    && Lawful(c) && Honest(c, srv, p) && CanAnswer(c, p, ch.draws) && ch.tlsIo == ServerIo(c, srv)
    && HandshakeBegun(sid, p) in OpenStep(c, hs, s, ch).1.acts[|s.acts|..]
    && AtItsEnd(c, srv, HandshakeStep(c, ch.tlsIo, Fresh().(pairing := Some(p)), ch.draws).1, q)
    && |ids| <= 4094 && app([0x9f, 0x01]) == M.ListReply(ids)
    && forall i :: 0 <= i < |q.stalls| ==> q.stalls[i] <= T.READ_MAX_RETRIES
  }

  /**
   * An open that comes to the handshake with the pairing of an honest sensor
   * succeeds, and the first command on the channel works end to end: `list`
   * returns the sensor's objects, in order, if there are at most 65 of them.
   */
  lemma OpenThenList(c: Crypto, hs: Bytes32, s: Station, ch: Chance, sid: Bytes, p: Pairing, srv: Server,
                     app: Bytes -> Bytes, ids: seq<Bytes16>, q: M.Sensor, nonce: Bytes8)
    requires Ready(c, hs, s, ch, sid, p, srv, app, ids, q)
    ensures var (ok, s') := OpenStep(c, hs, s, ch);
            && ok && s'.dev.tls.Some? && s'.dev.sid == Some(sid) && s'.dev.pairing == Some(p)
            && var r := M.SendStep(c, s'.dev.tls.value, M.SensorDevice(c, app), q, M.LIST_CMD, M.LIST_HINT, nonce).0;
               M.ListOf(r) == if |ids| <= 65 then Some(ids) else None
  {
    hide HandshakeStep, ServeSecond, Honest, CanAnswer, LoadOrPair, M.SendStep, M.ListOf, M.Paired, Lengths;
    assert Lengths(c);
    EndsMeet(c, srv, p, ch.draws);
    OpenUses(c, hs, s, ch, sid, p);
    var chan := HandshakeStep(c, ch.tlsIo, Fresh().(pairing := Some(p)), ch.draws).1;
    M.ListIsComplete(c, app, chan, q, ids, nonce);
  }

  /** What an open makes of a handshake it began. */
  lemma OpenUses(c: Crypto, hs: Bytes32, s: Station, ch: Chance, sid: Bytes, p: Pairing)
    requires Lengths(c) && HandshakeBegun(sid, p) in OpenStep(c, hs, s, ch).1.acts[|s.acts|..]
    ensures var (ok, s') := OpenStep(c, hs, s, ch);
            var (shook, chan) := HandshakeStep(c, ch.tlsIo, Fresh().(pairing := Some(p)), ch.draws);
            ok == shook && (ok ==> s'.dev == Device(Some(chan), Some(p), Some(sid), IFACE, EP_INTR_IN))
  {
    hide HandshakeStep, LoadOrPair, Lengths;
    BeginsWith(c, hs, s, ch, sid, p);
  }

  function SomeChance(c: Crypto, srv: Server, d: Draws): Chance
    requires Lengths(c)
  {
    Chance(true, Some(Zeros(VERSION_REPLY_LEN)), false, None, [], cmd => None, NoDirectory, ServerIo(c, srv), d)
  }

  /** There is such an open and such a sensor, for any objects and any randomness. */
  lemma ReadyIsPossible(hs: Bytes32, random: Bytes32, d: Draws, ids: seq<Bytes16>)
      returns (s: Station, ch: Chance, sid: Bytes, srv: Server, q: M.Sensor)
    requires |ids| <= 4094
    ensures Ready(Toy(), hs, s, ch, sid, SomePairing(), srv, cmd => M.ListReply(ids), ids, q)
  {
    hide HandshakeStep, ServeSecond, Honest, CanAnswer, OpenStep;
    var c, p := Toy(), SomePairing();
    srv, sid := SomeServer(random), Zeros(6);
    HonestIsPossible(random, d);
    s := Station(map[sid := PairingBytes(p)], CLOSED, []);
    ch := SomeChance(c, srv, d);
    assert Zeros(VERSION_REPLY_LEN)[18..24] == Zeros(6);
    PairedIsSaved(p);
    ReachesHandshakeIff(c, hs, s, ch, sid, p);
    EndsMeet(c, srv, p, d);
    var chan := HandshakeStep(c, ch.tlsIo, Fresh().(pairing := Some(p)), d).1;
    var end := ServeSecond(c, srv, chan.sent[0], chan.sent[1]).value.end;
    q := M.Sensor(end, Receiver([], []), T.Replier([], []), [], Zeros(8), []);
  }
}
