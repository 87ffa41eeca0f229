/**
 * Opening the device: find out which sensor it is, load its pairing or pair
 * once and store the result, bring up the secure channel. The disk is a map
 * from sensor id to file contents.
 */
module Open {
  import opened ByteStrings
  import opened TlsCrypto
  import opened PairingCodec
  import opened Channel

  const IFACE: nat := 1
  const EP_INTR_IN: nat := 0x83
  const PAIR_REPLY_LEN: nat := 802
  const VERSION_REPLY_LEN: nat := 38

  type Disk = map<Bytes, Bytes>

  /** What becomes of a save: no directory, no file, or so many bytes written. */
  datatype Fate = NoDirectory | NoFile | Written(n: nat)

  /** Everything that one open leaves to its surroundings. */
  datatype Chance = Chance(
    claims: bool, version: Option<Bytes>, readFault: bool,
    hostPriv: Option<Bytes32>, signNonce: Bytes, pairIo: Bytes -> Option<Bytes>, fate: Fate,
    tlsIo: Io, draws: Draws)

  /** A pairing command was sent, or a handshake was begun with a pairing. */
  datatype Act = PairSent(sid: Bytes, cmd: Bytes) | HandshakeBegun(sid: Bytes, pairing: Pairing)

  datatype Device = Device(tls: Option<Chan>, pairing: Option<Pairing>, sid: Option<Bytes>, iface: nat, epIntrIn: nat)

  datatype Station = Station(disk: Disk, dev: Device, acts: seq<Act>)

  // ------------------------------------------------------------- specification

  /** The sensor id in a good reply to GET_VERSION. */
  function SidOf(reply: Option<Bytes>): Option<Bytes> {
    if reply.None? || |reply.value| < VERSION_REPLY_LEN || reply.value[0] != 0 || reply.value[1] != 0 then None
    else Some(reply.value[18..24])
  }

  /** The host's certificate, signed with the shared signing key `hs`. */
  function HostCert(c: Crypto, hs: Bytes32, priv: Bytes32, nonce: Bytes): Option<Cert> {
    match c.pub(priv)
    case None => None
    case Some(q) =>
      var bare := Cert(0, q.x, q.y, 0, Zeros(256));
      match c.sign(hs, c.sha256(CertBytes(bare)[..142]), nonce)
      case None => None
      case Some(sig) =>
        if |sig| > 256 then None
        else Some(bare.(signSize := |sig|, signature := sig + Zeros(256 - |sig|)))
  }

  function PairReply(priv: Bytes32, reply: Option<Bytes>): Option<Pairing> {
    if reply.None? || |reply.value| != PAIR_REPLY_LEN || reply.value[0] != 0 || reply.value[1] != 0 then None
    else
      match (ParseCert(reply.value[2..402]), ParseCert(reply.value[402..802]))
      case (Some(host), Some(sensor)) => Some(Pairing(priv, host, sensor))
      case _ => None
  }

  /** The exchange of certificates: what is sent, if it comes to that, and the pairing. */
  function PairStep(c: Crypto, hs: Bytes32, ch: Chance): (Option<Bytes>, Option<Pairing>) {
    if ch.hostPriv.None? then (None, None)
    else
      match HostCert(c, hs, ch.hostPriv.value, ch.signNonce)
      case None => (None, None)
      case Some(cert) =>
        var cmd := [0x93] + CertBytes(cert);
        (Some(cmd), PairReply(ch.hostPriv.value, ch.pairIo(cmd)))
  }

  function SaveStep(disk: Disk, sid: Bytes, p: Pairing, fate: Fate): (bool, Disk) {
    match fate
    case NoDirectory => (false, disk)
    case NoFile => (false, disk)
    case Written(n) => (n >= PAIRING_LEN, disk[sid := PairingBytes(p)[..Min(n, PAIRING_LEN)]])
  }

  datatype Load = Missing | Unusable | Loaded(pairing: Pairing)

  function LoadStep(disk: Disk, sid: Bytes, readFault: bool): Load {
    if readFault then Unusable
    else if sid !in disk then Missing
    else if |disk[sid]| != PAIRING_LEN then Unusable
    else match ParsePairing(disk[sid])
         case None => Unusable
         case Some(p) => Loaded(p)
  }

  /** The pairing for the handshake, the disk, and the pairing command if one was sent. */
  datatype Provision = Provision(pairing: Option<Pairing>, disk: Disk, cmd: Option<Bytes>)

  function LoadOrPair(c: Crypto, hs: Bytes32, disk: Disk, sid: Bytes, ch: Chance): Provision {
    match LoadStep(disk, sid, ch.readFault)
    case Loaded(p) => Provision(Some(p), disk, None)
    case Unusable => Provision(None, disk, None)
    case Missing =>
      var (cmd, p) := PairStep(c, hs, ch);
      if p.None? then Provision(None, disk, cmd)
      else
        var (saved, disk') := SaveStep(disk, sid, p.value, ch.fate);
        Provision(if saved then p else None, disk', cmd)
  }

  const CLOSED: Device := Device(None, None, None, 0, 0)

  function OpenStep(c: Crypto, hs: Bytes32, s: Station, ch: Chance): (r: (bool, Station))
    requires Lengths(c)
    ensures s.acts <= r.1.acts
  {
    if !ch.claims then (false, s)
    else
      match SidOf(ch.version)
      case None => (false, s.(dev := CLOSED))
      case Some(sid) =>
        var pv := LoadOrPair(c, hs, s.disk, sid, ch);
        var acts := s.acts + if pv.cmd.Some? then [PairSent(sid, pv.cmd.value)] else [];
        if pv.pairing.None? then (false, Station(pv.disk, CLOSED, acts))
        else
          var shook := acts + [HandshakeBegun(sid, pv.pairing.value)];
          var (ok, chan) := HandshakeStep(c, ch.tlsIo, Fresh().(pairing := pv.pairing), ch.draws);
          if ok then (true, Station(pv.disk, Device(Some(chan), pv.pairing, Some(sid), IFACE, EP_INTR_IN), shook))
          else (false, Station(pv.disk, CLOSED, shook))
  }

  // ---------------------------------------------------------------- the device

  class Verimark {
    const c: Crypto
    const hs: Bytes32
    var disk: Disk
    var tls: VerimarkTls?
    var pairing: Option<Pairing>
    var sid: Option<Bytes>
    var iface: nat
    var epIntrIn: nat
    ghost var acts: seq<Act>

    ghost function State(): Station
      reads this, tls
    {
      Station(disk, Device(if tls == null then None else Some(tls.State()), pairing, sid, iface, epIntrIn), acts)
    }

    constructor (c: Crypto, hs: Bytes32, disk: Disk)
      ensures this.c == c && this.hs == hs && State() == Station(disk, CLOSED, [])
    {
      this.c, this.hs, this.disk := c, hs, disk;
      tls, pairing, sid, iface, epIntrIn, acts := null, None, None, 0, 0, [];
    }

    method BuildHostCert(priv: Bytes32, nonce: Bytes) returns (r: Option<(Cert, Bytes)>)
      ensures r == match HostCert(c, hs, priv, nonce) case None => None case Some(cert) => Some((cert, CertBytes(cert)))
    {
      var q := c.pub(priv);
      if q.None? {
        return None;
      }
      var cert := Cert(0, q.value.x, q.value.y, 0, Zeros(256));
      var full := new byte[400];
      CertSerialize(cert, full, 0);
      assert full[..142] == CertBytes(cert)[..142];
      var sig := c.sign(hs, c.sha256(full[..142]), nonce);
      if sig.None? || |sig.value| > 256 {
        return None;
      }
      cert := cert.(signSize := |sig.value|, signature := sig.value + Zeros(256 - |sig.value|));
      var buf := new byte[400];
      CertSerialize(cert, buf, 0);
      assert buf[..] == buf[0..400];
      r := Some((cert, buf[..]));
    }

    /** The pairing exchange over the control endpoint. */
    method PairingDo(sid: Bytes, ch: Chance) returns (p: Option<Pairing>)
      modifies this`acts
      ensures var (cmd, made) := PairStep(c, hs, ch);
              p == made && acts == old(acts) + if cmd.Some? then [PairSent(sid, cmd.value)] else []
    {
      if ch.hostPriv.None? {
        return None;
      }
      var cert := BuildHostCert(ch.hostPriv.value, ch.signNonce);
      if cert.None? {
        return None;
      }
      var out := [0x93] + cert.value.1;
      acts := acts + [PairSent(sid, out)];
      var reply := ch.pairIo(out);
      if reply.None? || |reply.value| != PAIR_REPLY_LEN || reply.value[0] != 0 || reply.value[1] != 0 {
        return None;
      }
      var resp := new byte[802](i requires 0 <= i < 802 => reply.value[i]);
      assert resp[..] == reply.value;
      var host := CertParse(resp, 2);
      if host.None? {
        return None;
      }
      var sensor := CertParse(resp, 402);
      if sensor.None? {
        return None;
      }
      p := Some(Pairing(ch.hostPriv.value, host.value, sensor.value));
    }

    /** The file is created or truncated before it is written, so a write that falls short leaves a short file. */
    method SaveFile(p: Pairing, sid: Bytes, fate: Fate) returns (ok: bool)
      modifies this`disk
      ensures (ok, disk) == SaveStep(old(disk), sid, p, fate)
    {
      if fate.NoDirectory? {
        return false;
      }
      var buf := new byte[868];
      PairingSave(p, buf);
      if fate.NoFile? {
        return false;
      }
      var n := Min(fate.n, PAIRING_LEN);
      disk := disk[sid := buf[..n]];
      ok := n == PAIRING_LEN;
    }

    method LoadFile(sid: Bytes, readFault: bool) returns (r: Load)
      ensures r == LoadStep(disk, sid, readFault)
    {
      if readFault {
        return Unusable;
      }
      if sid !in disk {
        return Missing;
      }
      var data := disk[sid];
      if |data| != PAIRING_LEN {
        return Unusable;
      }
      var buf := new byte[868](i requires 0 <= i < 868 => data[i]);
      assert buf[..] == data;
      var p := PairingLoad(buf);
      r := if p.None? then Unusable else Loaded(p.value);
    }

    /** The open has failed: everything that was set up is undone. */
    method OpenFail()
      modifies this`tls, this`iface, this`epIntrIn
      ensures tls == null && iface == 0 && epIntrIn == 0
    {
      tls, iface, epIntrIn := null, 0, 0;
    }

    method Provide(id: Bytes, ch: Chance) returns (pd: Option<Pairing>)
      modifies this`disk, this`acts
      ensures var pv := LoadOrPair(c, hs, old(disk), id, ch);
              pd == pv.pairing && disk == pv.disk
              && acts == old(acts) + if pv.cmd.Some? then [PairSent(id, pv.cmd.value)] else []
    {
      var load := LoadFile(id, ch.readFault);
      if load.Loaded? {
        return Some(load.pairing);
      }
      if load.Unusable? {
        return None;
      }
      pd := PairingDo(id, ch);
      if pd.None? {
        return None;
      }
      var saved := SaveFile(pd.value, id, ch.fate);
      if !saved {
        return None;
      }
    }

    method Open(ch: Chance) returns (ok: bool)
      requires Lengths(c)
      modifies this
      ensures (ok, State()) == OpenStep(c, hs, old(State()), ch)
      ensures ch.claims && tls != null ==> fresh(tls)
    {
      hide LoadOrPair, HandshakeStep;
      if !ch.claims {
        return false;
      }
      iface, epIntrIn := IFACE, EP_INTR_IN;
      tls, pairing, sid := null, None, None;
      var id := SidOf(ch.version);
      if id.None? {
        OpenFail();
        return false;
      }
      var pd := Provide(id.value, ch);
      if pd.None? {
        OpenFail();
        return false;
      }
      var channel := new VerimarkTls(c, ch.tlsIo);
      channel.SetPairing(pd.value);
      tls := channel;
      acts := acts + [HandshakeBegun(id.value, pd.value)];
      ok := channel.Handshake(ch.draws);
      if !ok {
        OpenFail();
        return false;
      }
      sid, pairing := id, pd;
    }

    /** Closing says goodbye on the channel and keeps nothing but the disk. */
    method Close(nonce: Bytes8)
      modifies this, tls
      ensures State() == Station(old(disk), CLOSED, old(acts))
      ensures old(tls) != null ==> old(tls).State() == CloseStep(old(tls).c, old(tls.State()), nonce)
    {
      if tls != null {
        tls.Close(nonce);
        tls := null;
      }
      pairing, sid := None, None;
      iface, epIntrIn := 0, 0;
    }
  }

  // ------------------------------------------------------------ whole histories

  /** One open after another, of any sensors. */
  function StationAfter(c: Crypto, hs: Bytes32, s: Station, chs: seq<Chance>): Station
    requires Lengths(c)
    decreases |chs|
  {
    if chs == [] then s else OpenStep(c, hs, StationAfter(c, hs, s, chs[..|chs| - 1]), chs[|chs| - 1]).1
  }

  // ------------------------------------------------------ what the bytes say

  /** The sensor says who it is: a good reply of 38 bytes or more, with the id in bytes 18 to 23. */
  predicate Identifies(reply: Option<Bytes>, sid: Bytes) {
    && reply.Some? && |reply.value| >= 38 && reply.value[0] == 0 && reply.value[1] == 0
    && sid == reply.value[18..24]
  }

  /** The part of the host's certificate that is signed: 142 bytes, up to the type 0. */
  function SignedPart(q: Point): Bytes {
    [0x3f, 0x5f, 23, 0] + (Reverse(q.x) + Zeros(36)) + (Reverse(q.y) + Zeros(36)) + [0, 0]
  }

  /** The pairing command: 0x93, what is signed, and the signature in a frame of 258 bytes. */
  ghost predicate IsPairCommand(c: Crypto, hs: Bytes32, priv: Bytes32, nonce: Bytes, cmd: Bytes) {
    && c.pub(priv).Some?
    && var part := SignedPart(c.pub(priv).value);
       var sig := c.sign(hs, c.sha256(part), nonce);
    && sig.Some? && |sig.value| <= 256
    && cmd == [0x93] + part + [|sig.value| % 256, |sig.value| / 256] + sig.value + Zeros(256 - |sig.value|)
  }

  /** The pairing that the sensor returns: the host's own scalar, and two certificates of 400 bytes in this order. */
  predicate IsPairReply(priv: Bytes32, reply: Option<Bytes>, p: Pairing) {
    && reply.Some? && |reply.value| == 802 && reply.value[0] == 0 && reply.value[1] == 0
    && p.priv == priv && IsCert(reply.value[2..402], p.host) && IsCert(reply.value[402..802], p.sensor)
  }

  /** The file is whole and holds this pairing. */
  predicate Holds(disk: Disk, sid: Bytes, p: Pairing) {
    sid in disk && IsPairing(disk[sid], p)
  }

  lemma SidIff(reply: Option<Bytes>, sid: Bytes)
    ensures SidOf(reply) == Some(sid) <==> Identifies(reply, sid)
  {
  }

  lemma HostCertSays(c: Crypto, hs: Bytes32, priv: Bytes32, nonce: Bytes)
    ensures c.pub(priv).None? ==> HostCert(c, hs, priv, nonce).None?
    ensures c.pub(priv).Some? ==>
      var part := SignedPart(c.pub(priv).value);
      var sig := c.sign(hs, c.sha256(part), nonce);
      if sig.None? || |sig.value| > 256 then HostCert(c, hs, priv, nonce).None?
      else
        HostCert(c, hs, priv, nonce).Some?
        && CertBytes(HostCert(c, hs, priv, nonce).value)
           == part + [|sig.value| % 256, |sig.value| / 256] + sig.value + Zeros(256 - |sig.value|)
  {
    if c.pub(priv).Some? {
      var q := c.pub(priv).value;
      CertStarts(Cert(0, q.x, q.y, 0, Zeros(256)));
      var sig := c.sign(hs, c.sha256(SignedPart(q)), nonce);
      if sig.Some? && |sig.value| <= 256 {
        CertStarts(Cert(0, q.x, q.y, |sig.value|, sig.value + Zeros(256 - |sig.value|)));
      }
    }
  }

  lemma CertStarts(cert: Cert)
    requires cert.certType == 0
    ensures var part := SignedPart(Point(cert.pubX, cert.pubY));
      |part| == 142 && CertBytes(cert)[..142] == part
      && CertBytes(cert) == part + [cert.signSize % 256, cert.signSize / 256] + cert.signature
  {
    var key := [0x3f, 0x5f, 23, 0] + FieldBytes(cert.pubX) + FieldBytes(cert.pubY);
    var size := [cert.signSize % 256, cert.signSize / 256];
    Associates(key, [0, 0], size);
    assert [0, 0] + size == [0, cert.certType, cert.signSize % 256, cert.signSize / 256];
    Associates(key + [0, 0], size, cert.signature);
    Cut(key + [0, 0], size + cert.signature);
  }

  /** What the pairing exchange sends and what it makes of the reply. */
  lemma PairStepIff(c: Crypto, hs: Bytes32, ch: Chance, cmd: Bytes, p: Pairing)
    ensures PairStep(c, hs, ch).0 == Some(cmd) <==>
      ch.hostPriv.Some? && IsPairCommand(c, hs, ch.hostPriv.value, ch.signNonce, cmd)
    ensures PairStep(c, hs, ch).1 == Some(p) ==> PairStep(c, hs, ch).0.Some?
    ensures PairStep(c, hs, ch).0 == Some(cmd) ==>
      (PairStep(c, hs, ch).1 == Some(p) <==> IsPairReply(ch.hostPriv.value, ch.pairIo(cmd), p))
  {
    hide HostCert, CertBytes, ParseCert, IsCert, SignedPart, Zeros;
    if ch.hostPriv.Some? {
      HostCertSays(c, hs, ch.hostPriv.value, ch.signNonce);
      if c.pub(ch.hostPriv.value).Some? {
        CommandParts(c, hs, ch.hostPriv.value, ch.signNonce);
      }
      var reply := ch.pairIo(cmd);
      if reply.Some? && |reply.value| == 802 {
        CertReadIff(reply.value[2..402], p.host);
        CertReadIff(reply.value[402..802], p.sensor);
      }
    }
  }

  lemma CommandParts(c: Crypto, hs: Bytes32, priv: Bytes32, nonce: Bytes)
    requires c.pub(priv).Some?
    ensures var part := SignedPart(c.pub(priv).value);
      var sig := c.sign(hs, c.sha256(part), nonce);
      sig.Some? && |sig.value| <= 256 ==>
        var size := [|sig.value| % 256, |sig.value| / 256];
        var fill := Zeros(256 - |sig.value|);
        [0x93] + (part + size + sig.value + fill) == [0x93] + part + size + sig.value + fill
  {
  }

  /** What the disk says about these acts. */
  predicate Backed(disk: Disk, files: Disk, act: Act) {
    match act
    case PairSent(sid, _) => sid !in files
    case HandshakeBegun(sid, p) => Holds(disk, sid, p)
  }

  /** Every file is still there, unchanged. */
  predicate Keeps(before: Disk, after: Disk) {
    forall sid :: sid in before ==> sid in after && after[sid] == before[sid]
  }

  lemma HoldsOne(disk: Disk, sid: Bytes, p: Pairing, q: Pairing)
    requires Holds(disk, sid, p) && Holds(disk, sid, q)
    ensures p == q
  {
    hide IsCert, IsField, ParsePairing;
    PairingReadIff(disk[sid], p);
    PairingReadIff(disk[sid], q);
  }

  lemma LoadedIff(disk: Disk, sid: Bytes, readFault: bool, p: Pairing)
    ensures LoadStep(disk, sid, readFault) == Loaded(p) <==> !readFault && Holds(disk, sid, p)
    ensures LoadStep(disk, sid, readFault).Missing? <==> !readFault && sid !in disk
  {
    hide IsCert, IsField, ParsePairing;
    if sid in disk && |disk[sid]| == 868 {
      PairingReadIff(disk[sid], p);
    }
  }

  lemma PairedIsSaved(p: Pairing)
    requires p.host.signSize <= 256 && p.sensor.signSize <= 256
    ensures PairingBytes(p)[..868] == PairingBytes(p) && IsPairing(PairingBytes(p), p)
  {
    hide IsCert, IsField, ParsePairing, PairingBytes;
    PairingRoundTrip(p);
    PairingReadIff(PairingBytes(p), p);
  }

  lemma PairedFits(c: Crypto, hs: Bytes32, ch: Chance)
    requires PairStep(c, hs, ch).1.Some?
    ensures var p := PairStep(c, hs, ch).1.value; p.host.signSize <= 256 && p.sensor.signSize <= 256
  {
    hide HostCert, FieldValue;
  }

  /** Only a missing file is ever written, and a pairing that is used is one that the file holds. */
  lemma ProvisionIsBacked(c: Crypto, hs: Bytes32, disk: Disk, sid: Bytes, ch: Chance)
    ensures var pv := LoadOrPair(c, hs, disk, sid, ch);
      && Keeps(disk, pv.disk)
      && (sid in disk ==> pv.disk == disk && pv.cmd.None?)
      && (pv.pairing.Some? ==> Holds(pv.disk, sid, pv.pairing.value))
  {
    hide PairStep, ParsePairing, PairingBytes, IsPairing;
    match LoadStep(disk, sid, ch.readFault) {
      case Loaded(p) => LoadedIff(disk, sid, ch.readFault, p);
      case Unusable =>
      case Missing =>
        var p := PairStep(c, hs, ch).1;
        if p.Some? {
          PairedFits(c, hs, ch);
          PairedIsSaved(p.value);
        }
    }
  }

  /** What one open adds to the acts is backed by the disk that it leaves. */
  lemma OpenIsBacked(c: Crypto, hs: Bytes32, s: Station, ch: Chance)
    requires Lengths(c)
    ensures var s' := OpenStep(c, hs, s, ch).1;
      && Keeps(s.disk, s'.disk) && s.acts <= s'.acts
      && (forall i :: |s.acts| <= i < |s'.acts| ==> Backed(s'.disk, s.disk, s'.acts[i]))
  {
    hide LoadOrPair, HandshakeStep, Lengths, Holds;
    if ch.claims && SidOf(ch.version).Some? {
      ProvisionIsBacked(c, hs, s.disk, SidOf(ch.version).value, ch);
    }
  }

  /**
   * Over every history of opens: no file that exists is ever written, no
   * pairing command is sent while the sensor's file exists, and every handshake
   * uses the pairing that the sensor's file holds from then on.
   */
  lemma {:induction false} FilesAreNeverOverwritten(c: Crypto, hs: Bytes32, s: Station, chs: seq<Chance>)
    requires Lengths(c)
    ensures var s' := StationAfter(c, hs, s, chs);
      && Keeps(s.disk, s'.disk) && s.acts <= s'.acts
      && (forall i :: |s.acts| <= i < |s'.acts| ==> Backed(s'.disk, s.disk, s'.acts[i]))
    decreases |chs|
  {
    hide Lengths, OpenStep, IsPairing;
    if chs != [] {
      var before := StationAfter(c, hs, s, chs[..|chs| - 1]);
      FilesAreNeverOverwritten(c, hs, s, chs[..|chs| - 1]);
      OpenIsBacked(c, hs, before, chs[|chs| - 1]);
    }
  }

  /** The first handshake with a sensor fixes the pairing for all later ones. */
  lemma PairingIsForLife(c: Crypto, hs: Bytes32, s: Station, chs: seq<Chance>, i: nat, j: nat)
    requires Lengths(c) && s.acts == []
    requires var acts := StationAfter(c, hs, s, chs).acts;
      i < |acts| && j < |acts| && acts[i].HandshakeBegun? && acts[j].HandshakeBegun? && acts[i].sid == acts[j].sid
    ensures var acts := StationAfter(c, hs, s, chs).acts; acts[i].pairing == acts[j].pairing
  {
    hide Lengths, StationAfter, IsPairing;
    FilesAreNeverOverwritten(c, hs, s, chs);
    var s' := StationAfter(c, hs, s, chs);
    assert Backed(s'.disk, s.disk, s'.acts[i]) && Backed(s'.disk, s.disk, s'.acts[j]);
    HoldsOne(s'.disk, s'.acts[i].sid, s'.acts[i].pairing, s'.acts[j].pairing);
  }

  /** While a sensor has a file, that file alone decides: what it holds is used, and if it holds nothing, nothing is. */
  lemma FileDecides(c: Crypto, hs: Bytes32, s: Station, chs: seq<Chance>, sid: Bytes, i: nat)
    requires Lengths(c) && sid in s.disk
    requires var acts := StationAfter(c, hs, s, chs).acts; |s.acts| <= i < |acts| && acts[i].sid == sid
    ensures var act := StationAfter(c, hs, s, chs).acts[i]; act.HandshakeBegun? && Holds(s.disk, sid, act.pairing)
  {
    hide Lengths, StationAfter, IsPairing;
    FilesAreNeverOverwritten(c, hs, s, chs);
    var s' := StationAfter(c, hs, s, chs);
    assert Backed(s'.disk, s.disk, s'.acts[i]);
  }

  /** The open that this describes sends the pairing command: it is the first of its sensor. */
  ghost predicate AsksToPair(c: Crypto, hs: Bytes32, s: Station, ch: Chance, sid: Bytes, cmd: Bytes) {
    && ch.claims && Identifies(ch.version, sid) && !ch.readFault && sid !in s.disk
    && ch.hostPriv.Some? && IsPairCommand(c, hs, ch.hostPriv.value, ch.signNonce, cmd)
  }

  /** And it gets this pairing for it. */
  ghost predicate PairsNow(c: Crypto, hs: Bytes32, s: Station, ch: Chance, sid: Bytes, cmd: Bytes, p: Pairing) {
    AsksToPair(c, hs, s, ch, sid, cmd) && IsPairReply(ch.hostPriv.value, ch.pairIo(cmd), p)
  }

  /** The file: the scalar, least significant byte first, and the reply's certificates with their pad bytes zeroed. */
  function FileFor(priv: Bytes32, reply: Bytes): (file: Bytes)
    requires |reply| == 802
    ensures |file| == 868
  {
    Reverse(priv) + Zeros(36) + reply[2..402][140 := 0] + reply[402..802][140 := 0]
  }

  lemma FileIs(priv: Bytes32, reply: Bytes, p: Pairing)
    requires IsPairReply(priv, Some(reply), p)
    ensures PairingBytes(p) == FileFor(priv, reply)
  {
    hide IsCert, ParseCert, CertBytes;
    CertReadIff(reply[2..402], p.host);
    CertReadIff(reply[402..802], p.sensor);
    CertBackAgain(reply[2..402]);
    CertBackAgain(reply[402..802]);
  }

  /** What one open provides, in terms of the bytes on the disk and on the wire. */
  lemma ProvidesIff(c: Crypto, hs: Bytes32, s: Station, ch: Chance, sid: Bytes, cmd: Bytes, p: Pairing)
    requires ch.claims && Identifies(ch.version, sid)
    ensures var pv := LoadOrPair(c, hs, s.disk, sid, ch);
      && (pv.cmd == Some(cmd) <==> AsksToPair(c, hs, s, ch, sid, cmd))
      && (pv.cmd.None? ==> pv.disk == s.disk && (pv.pairing == Some(p) <==> !ch.readFault && Holds(s.disk, sid, p)))
      && (pv.cmd == Some(cmd) ==>
            && (pv.pairing == Some(p) <==>
                  PairsNow(c, hs, s, ch, sid, cmd, p) && ch.fate.Written? && ch.fate.n >= 868)
            && (PairsNow(c, hs, s, ch, sid, cmd, p) ==>
                  pv.disk == if ch.fate.Written?
                             then s.disk[sid := FileFor(p.priv, ch.pairIo(cmd).value)[..Min(ch.fate.n, 868)]]
                             else s.disk)
            && ((forall q :: !PairsNow(c, hs, s, ch, sid, cmd, q)) ==> pv.disk == s.disk))
  {
    hide PairStep, IsPairCommand, IsPairReply, IsPairing, PairingBytes, FileFor, Identifies;
    LoadedIff(s.disk, sid, ch.readFault, p);
    PairStepIff(c, hs, ch, cmd, p);
    var pv := LoadOrPair(c, hs, s.disk, sid, ch);
    if LoadStep(s.disk, sid, ch.readFault).Missing? {
      var (sent, made) := PairStep(c, hs, ch);
      if made.Some? {
        PairStepIff(c, hs, ch, cmd, made.value);
        if PairsNow(c, hs, s, ch, sid, cmd, made.value) {
          ReplyHasBytes(ch.hostPriv.value, ch.pairIo(cmd), made.value);
          FileIs(ch.hostPriv.value, ch.pairIo(cmd).value, made.value);
        }
      }
    }
  }

  lemma ReplyHasBytes(priv: Bytes32, reply: Option<Bytes>, p: Pairing)
    requires IsPairReply(priv, reply, p)
    ensures reply.Some? && |reply.value| == 802 && p.priv == priv
  {
  }

  /** What an open does with the pairing that was loaded or made. */
  lemma OpenGoes(c: Crypto, hs: Bytes32, s: Station, ch: Chance)
    requires Lengths(c)
    ensures var (ok, s') := OpenStep(c, hs, s, ch);
      if !ch.claims then (ok, s') == (false, s)
      else if SidOf(ch.version).None? then (ok, s') == (false, s.(dev := CLOSED))
      else
        var sid := SidOf(ch.version).value;
        var pv := LoadOrPair(c, hs, s.disk, sid, ch);
        var sent := if pv.cmd.Some? then [PairSent(sid, pv.cmd.value)] else [];
        && s'.disk == pv.disk
        && s'.acts == s.acts + (sent + if pv.pairing.Some? then [HandshakeBegun(sid, pv.pairing.value)] else [])
        && var chan := if pv.pairing.None? then Fresh()
                       else HandshakeStep(c, ch.tlsIo, Fresh().(pairing := pv.pairing), ch.draws).1;
           && (ok <==> pv.pairing.Some?
                       && HandshakeStep(c, ch.tlsIo, Fresh().(pairing := pv.pairing), ch.draws).0)
           && s'.dev == if ok then Device(Some(chan), pv.pairing, Some(sid), 1, 0x83)
                        else Device(None, None, None, 0, 0)
  {
    hide Lengths, LoadOrPair, HandshakeStep, SidOf;
    if ch.claims && SidOf(ch.version).Some? {
      var sid := SidOf(ch.version).value;
      var pv := LoadOrPair(c, hs, s.disk, sid, ch);
      var sent := if pv.cmd.Some? then [PairSent(sid, pv.cmd.value)] else [];
      if pv.pairing.Some? {
        Associates(s.acts, sent, [HandshakeBegun(sid, pv.pairing.value)]);
      } else {
        assert sent + [] == sent;
      }
    }
  }

  /** Exactly when an open sends the pairing command, and that command. */
  lemma SendsPairIff(c: Crypto, hs: Bytes32, s: Station, ch: Chance, sid: Bytes, cmd: Bytes)
    requires Lengths(c)
    ensures PairSent(sid, cmd) in OpenStep(c, hs, s, ch).1.acts[|s.acts|..] <==> AsksToPair(c, hs, s, ch, sid, cmd)
  {
    hide Lengths, OpenStep, LoadOrPair, IsPairCommand, SidOf;
    OpenGoes(c, hs, s, ch);
    SidIff(ch.version, sid);
    if ch.claims && SidOf(ch.version).Some? {
      var id := SidOf(ch.version).value;
      SidIff(ch.version, id);
      var cert := Cert(0, Zeros(32), Zeros(32), 0, Zeros(256));
      ProvidesIff(c, hs, s, ch, id, cmd, Pairing(Zeros(32), cert, cert));
    }
  }

  /** A handshake is begun exactly with the pairing that was loaded or made. */
  lemma BeginsWith(c: Crypto, hs: Bytes32, s: Station, ch: Chance, sid: Bytes, p: Pairing)
    requires Lengths(c)
    ensures HandshakeBegun(sid, p) in OpenStep(c, hs, s, ch).1.acts[|s.acts|..] <==>
            ch.claims && SidOf(ch.version) == Some(sid) && LoadOrPair(c, hs, s.disk, sid, ch).pairing == Some(p)
  {
    hide Lengths, LoadOrPair, OpenStep, SidOf;
    OpenGoes(c, hs, s, ch);
  }

  /** Exactly when an open reaches the handshake, and with which pairing. */
  lemma ReachesHandshakeIff(c: Crypto, hs: Bytes32, s: Station, ch: Chance, sid: Bytes, p: Pairing)
    requires Lengths(c)
    ensures HandshakeBegun(sid, p) in OpenStep(c, hs, s, ch).1.acts[|s.acts|..] <==>
      || (ch.claims && Identifies(ch.version, sid) && !ch.readFault && Holds(s.disk, sid, p))
      || (ch.fate.Written? && ch.fate.n >= 868 && exists cmd :: PairsNow(c, hs, s, ch, sid, cmd, p))
  {
    hide Lengths, OpenStep, LoadOrPair, IsPairCommand, IsPairReply, IsPairing, SidOf;
    BeginsWith(c, hs, s, ch, sid, p);
    SidIff(ch.version, sid);
    if ch.claims && Identifies(ch.version, sid) {
      var pv := LoadOrPair(c, hs, s.disk, sid, ch);
      forall cmd {
        ProvidesIff(c, hs, s, ch, sid, cmd, p);
      }
      assert pv.cmd.Some? ==> AsksToPair(c, hs, s, ch, sid, pv.cmd.value);
    }
  }

  /** The disk after an open: a new file exactly after a pairing, as much of it as could be written. */
  lemma DiskAfterOpen(c: Crypto, hs: Bytes32, s: Station, ch: Chance)
    requires Lengths(c)
    ensures var disk := OpenStep(c, hs, s, ch).1.disk;
      && (forall sid, cmd, p :: PairsNow(c, hs, s, ch, sid, cmd, p) && ch.fate.Written? ==>
            ch.pairIo(cmd).Some? && |ch.pairIo(cmd).value| == 802
            && disk == s.disk[sid := FileFor(p.priv, ch.pairIo(cmd).value)[..Min(ch.fate.n, 868)]])
      && (!ch.fate.Written? || (forall sid, cmd, p :: !PairsNow(c, hs, s, ch, sid, cmd, p)) ==> disk == s.disk)
  {
    hide Lengths, OpenStep, LoadOrPair, IsPairCommand, IsPairReply, IsPairing, SidOf, FileFor, Identifies;
    OpenGoes(c, hs, s, ch);
    var disk := OpenStep(c, hs, s, ch).1.disk;
    forall sid, cmd, p | PairsNow(c, hs, s, ch, sid, cmd, p)
      ensures ch.pairIo(cmd).Some? && |ch.pairIo(cmd).value| == 802
      ensures disk == if ch.fate.Written?
                      then s.disk[sid := FileFor(p.priv, ch.pairIo(cmd).value)[..Min(ch.fate.n, 868)]] else s.disk
    {
      SidIff(ch.version, sid);
      ReplyHasBytes(ch.hostPriv.value, ch.pairIo(cmd), p);
      ProvidesIff(c, hs, s, ch, sid, cmd, p);
    }
    if ch.claims && SidOf(ch.version).Some? && forall sid, cmd, p :: !PairsNow(c, hs, s, ch, sid, cmd, p) {
      var id := SidOf(ch.version).value;
      SidIff(ch.version, id);
      var pv := LoadOrPair(c, hs, s.disk, id, ch);
      var cert := Cert(0, Zeros(32), Zeros(32), 0, Zeros(256));
      ProvidesIff(c, hs, s, ch, id, if pv.cmd.Some? then pv.cmd.value else [], Pairing(Zeros(32), cert, cert));
    }
  }

  /**
   * After one pairing that was saved whole, every later open of the sensor that
   * reaches the handshake uses exactly the pairing that the sensor returned: the
   * host's scalar and the two certificates in the reply's bytes. The file that
   * this rests on holds those bytes, with the two pad bytes zeroed.
   */
  lemma TrustOnFirstUse(c: Crypto, hs: Bytes32, s: Station, ch: Chance, sid: Bytes, cmd: Bytes, p: Pairing,
        chs: seq<Chance>, i: nat)
    requires Lengths(c) && PairsNow(c, hs, s, ch, sid, cmd, p) && ch.fate.Written? && ch.fate.n >= 868
    requires var s1 := OpenStep(c, hs, s, ch).1; var acts := StationAfter(c, hs, s1, chs).acts;
      |s1.acts| <= i < |acts| && acts[i].sid == sid
    ensures var s1 := OpenStep(c, hs, s, ch).1; StationAfter(c, hs, s1, chs).acts[i] == HandshakeBegun(sid, p)
    ensures HandshakeBegun(sid, p) in OpenStep(c, hs, s, ch).1.acts[|s.acts|..]
    ensures ch.pairIo(cmd).Some? && |ch.pairIo(cmd).value| == 802
      && var s1 := OpenStep(c, hs, s, ch).1;
         sid in s1.disk && s1.disk[sid] == FileFor(ch.hostPriv.value, ch.pairIo(cmd).value)
  {
    hide Lengths, StationAfter, OpenStep, IsPairCommand, IsPairReply, IsPairing, FileFor, Identifies;
    var s1 := OpenStep(c, hs, s, ch).1;
    ReplyHasBytes(ch.hostPriv.value, ch.pairIo(cmd), p);
    DiskAfterOpen(c, hs, s, ch);
    var file := FileFor(p.priv, ch.pairIo(cmd).value);
    assert file[..868] == file;
    ReachesHandshakeIff(c, hs, s, ch, sid, p);
    FileHolds(ch.hostPriv.value, ch.pairIo(cmd), p);
    FileDecides(c, hs, s1, chs, sid, i);
    HoldsOne(s1.disk, sid, p, StationAfter(c, hs, s1, chs).acts[i].pairing);
  }

  lemma FileHolds(priv: Bytes32, reply: Option<Bytes>, p: Pairing)
    requires IsPairReply(priv, reply, p)
    ensures reply.Some? && |reply.value| == 802 && IsPairing(FileFor(priv, reply.value), p)
  {
    hide FileFor, IsPairing;
    FileIs(priv, reply.value, p);
    PairedIsSaved(p);
  }

  /**
   * If the save falls short, the short file stays: no later open of the sensor
   * pairs again or reaches the handshake.
   */
  lemma ShortSaveIsFinal(c: Crypto, hs: Bytes32, s: Station, ch: Chance, sid: Bytes, cmd: Bytes, p: Pairing,
        chs: seq<Chance>)
    requires Lengths(c) && PairsNow(c, hs, s, ch, sid, cmd, p) && ch.fate.Written? && ch.fate.n < 868
    ensures var s1 := OpenStep(c, hs, s, ch).1; var acts := StationAfter(c, hs, s1, chs).acts;
      && sid in s1.disk && |s1.disk[sid]| == ch.fate.n
      && s1.acts <= acts && forall i :: |s1.acts| <= i < |acts| ==> acts[i].sid != sid
  {
    hide Lengths, StationAfter, OpenStep, IsPairCommand, IsPairReply, FileFor, Identifies;
    var s1 := OpenStep(c, hs, s, ch).1;
    DiskAfterOpen(c, hs, s, ch);
    var acts := StationAfter(c, hs, s1, chs).acts;
    FilesAreNeverOverwritten(c, hs, s1, chs);
    forall i | |s1.acts| <= i < |acts| ensures acts[i].sid != sid {
      if acts[i].sid == sid {
        FileDecides(c, hs, s1, chs, sid, i);
        assert false;
      }
    }
  }

  /** One of these acts begins a handshake that succeeds. */
  ghost predicate ShakesWell(c: Crypto, ch: Chance, acts: seq<Act>)
    requires Lengths(c)
  {
    exists i :: 0 <= i < |acts| && acts[i].HandshakeBegun?
      && HandshakeStep(c, ch.tlsIo, Fresh().(pairing := Some(acts[i].pairing)), ch.draws).0
  }

  /**
   * An open succeeds exactly when it reaches a handshake that succeeds. Then it
   * has that established channel, and keeps the pairing, which is on the disk;
   * otherwise it leaves nothing, and if the device cannot be claimed it changes
   * nothing at all.
   */
  lemma OpenIsAllOrNothing(c: Crypto, hs: Bytes32, s: Station, ch: Chance)
    requires Lengths(c)
    ensures var (ok, s') := OpenStep(c, hs, s, ch);
      && (ok <==> ShakesWell(c, ch, s'.acts[|s.acts|..]))
      && (!ch.claims ==> s' == s)
      && (ch.claims && !ok ==> s'.dev == Device(None, None, None, 0, 0))
      && (ok ==>
            && s'.dev.tls.Some? && s'.dev.tls.value.established && s'.dev.iface == 1 && s'.dev.epIntrIn == 0x83
            && s'.dev.pairing.Some? && s'.dev.tls.value.pairing == s'.dev.pairing
            && s'.dev.sid.Some? && Identifies(ch.version, s'.dev.sid.value)
            && HandshakeBegun(s'.dev.sid.value, s'.dev.pairing.value) in s'.acts[|s.acts|..]
            && Holds(s'.disk, s'.dev.sid.value, s'.dev.pairing.value))
  {
    hide Lengths, LoadOrPair, Holds, HandshakeStep, OpenStep, SidOf;
    OpenGoes(c, hs, s, ch);
    var (ok, s') := OpenStep(c, hs, s, ch);
    if ch.claims && SidOf(ch.version).Some? {
      var sid := SidOf(ch.version).value;
      SidIff(ch.version, sid);
      ProvisionIsBacked(c, hs, s.disk, sid, ch);
      var pv := LoadOrPair(c, hs, s.disk, sid, ch);
      if pv.pairing.Some? {
        Established(c, ch.tlsIo, Fresh().(pairing := pv.pairing), ch.draws);
        var acts := s'.acts[|s.acts|..];
        assert acts[|acts| - 1] == HandshakeBegun(sid, pv.pairing.value);
      }
    }
  }

  lemma Established(c: Crypto, io: Io, s: Chan, d: Draws)
    requires Lengths(c)
    ensures var (ok, s') := HandshakeStep(c, io, s, d); s'.pairing == s.pairing && (ok ==> s'.established)
  {
    hide Rt1Of, Rt2Walk, GcmWrap, MasterOf, KeysOf, ClientHello, FinishedMsg;
  }
}
