/** Which replies of the server the handshake accepts, exactly. */
module Handshake {
  import opened ByteStrings
  import opened TlsCrypto
  import opened TlsWire
  import opened Records
  import opened Channel

  // ---------------------------------------------- the first reply: what is accepted

  predicate AllHandshake(rs: seq<Record>) {
    forall i :: 0 <= i < |rs| ==> rs[i].ct == HANDSHAKE
  }

  lemma {:induction false} StreamIsFragments(b: Bytes)
    ensures StreamOf(b) == match SplitRecords(b)
                           case None => None
                           case Some(rs) => if AllHandshake(rs) then Some(Frags(rs)) else None
    decreases |b|
  {
    if b != [] && StartsWhole(b) {
      StreamIsFragments(AfterFirst(b));
      if SplitRecords(b).Some? {
        var rs := SplitRecords(b).value;
        var rest := SplitRecords(AfterFirst(b)).value;
        assert rs[0] == FirstRecord(b) && rs[1..] == rest;
        assert AllHandshake(rs) <==> rs[0].ct == HANDSHAKE && AllHandshake(rest) by {
          if rs[0].ct == HANDSHAKE && AllHandshake(rest) {
            forall i | 0 <= i < |rs| ensures rs[i].ct == HANDSHAKE {
              assert i > 0 ==> rs[i] == rest[i - 1];
            }
          }
          if AllHandshake(rs) {
            forall i | 0 <= i < |rest| ensures rest[i].ct == HANDSHAKE {
              assert rest[i] == rs[i + 1];
            }
          }
        }
      }
    }
  }

  /** How the server cuts its flight into records makes no difference to verdict, random or transcript. */
  lemma FragmentationIndependence(a: seq<Record>, b: seq<Record>, random: Bytes32)
    requires AllFit(a) && AllFit(b) && AllHandshake(a) && AllHandshake(b) && Frags(a) == Frags(b)
    ensures Rt1Of(PrintRecords(a), random) == Rt1Of(PrintRecords(b), random)
  {
    PrintedSplit(a);
    PrintedSplit(b);
    StreamIsFragments(PrintRecords(a));
    StreamIsFragments(PrintRecords(b));
  }

  /** A ServerHello: version and random, a session id, and the one suite that the driver wants; more has to follow. */
  predicate HelloParts(body: Bytes, start: Bytes, sid: Bytes, rest: Bytes) {
    |start| == 34 && |sid| < 256 && rest != [] && body == start + ([|sid|] + (sid + ([0xc0, 0x2e] + rest)))
  }

  ghost predicate IsHello(body: Bytes) {
    exists start: Bytes, sid: Bytes, rest: Bytes :: HelloParts(body, start, sid, rest)
  }

  lemma HelloIsGrammar(body: Bytes)
    requires HelloOk(body)
    ensures IsHello(body)
  {
    var n := body[34] as int;
    var sid, suite, rest := body[35..35 + n], body[35 + n..37 + n], body[37 + n..];
    assert body[35 + n..] == suite + rest;
    assert body[35..] == sid + body[35 + n..];
    assert body[34..] == [n] + body[35..];
    assert body == body[..34] + body[34..];
    assert suite == [0xc0, 0x2e];
    assert HelloParts(body, body[..34], sid, rest);
  }

  lemma GrammarIsHello(body: Bytes, start: Bytes, sid: Bytes, rest: Bytes)
    requires HelloParts(body, start, sid, rest)
    ensures HelloOk(body)
  {
    var tail := [0xc0, 0x2e] + rest;
    var behind := [|sid|] + (sid + tail);
    assert body[34] == behind[0] && body[35..] == behind[1..] == sid + tail;
    assert body[35 + |sid|] == tail[0] && body[36 + |sid|] == tail[1];
  }

  lemma HelloOkIff(body: Bytes)
    ensures HelloOk(body) <==> IsHello(body)
  {
    hide HelloOk, HelloParts;
    if HelloOk(body) {
      HelloIsGrammar(body);
    }
    if IsHello(body) {
      var start: Bytes, sid: Bytes, rest: Bytes :| HelloParts(body, start, sid, rest);
      GrammarIsHello(body, start, sid, rest);
    }
  }

  /** A CertificateRequest: a list of certificate types with ecdsa_sign (64) in it; anything may follow. */
  predicate TypeParts(body: Bytes, types: Bytes, rest: Bytes) {
    |types| < 256 && 64 in types && body == [|types|] + types + rest
  }

  ghost predicate AsksForEcdsa(body: Bytes) {
    exists types: Bytes, rest: Bytes :: TypeParts(body, types, rest)
  }

  lemma CertRequestOkIff(body: Bytes)
    ensures CertRequestOk(body) <==> AsksForEcdsa(body)
  {
    if CertRequestOk(body) {
      var types, rest := body[1..1 + (body[0] as int)], body[1 + (body[0] as int)..];
      assert body == [|types|] + types + rest;
      assert TypeParts(body, types, rest);
    }
    if AsksForEcdsa(body) {
      var types: Bytes, rest: Bytes :| TypeParts(body, types, rest);
      assert body[1..1 + |types|] == types;
    }
  }

  /** What the driver accepts before the ServerHelloDone. */
  ghost predicate IsFlightMsg(m: HsMsg) {
    (m.id == 0x02 && IsHello(m.body)) || m.id == 0x0b || (m.id == 0x0d && AsksForEcdsa(m.body))
  }

  /** Well-formed messages and one final ServerHelloDone, with a ServerHello unless one came before. */
  ghost predicate FlightFrom(ms: seq<HsMsg>, hello: bool) {
    && ms != []
    && ms[|ms| - 1].id == 0x0e
    && (forall i :: 0 <= i < |ms| - 1 ==> IsFlightMsg(ms[i]))
    && (hello || exists i :: 0 <= i < |ms| - 1 && ms[i].id == 0x02)
  }

  ghost predicate FlightOk(ms: seq<HsMsg>) {
    FlightFrom(ms, false)
  }

  /** `r` is the random of the last ServerHello, or `r0` if there is none. */
  ghost predicate LastRandom(ms: seq<HsMsg>, r0: Bytes32, r: Bytes32) {
    || (r == r0 && forall i :: 0 <= i < |ms| ==> ms[i].id != 0x02)
    || exists i :: 0 <= i < |ms| && ms[i].id == 0x02 && |ms[i].body| >= 34 && ms[i].body[2..34] == r
                   && forall j :: i < j < |ms| ==> ms[j].id != 0x02
  }

  lemma LastRandomUnique(ms: seq<HsMsg>, r0: Bytes32, r: Bytes32, r0': Bytes32, r': Bytes32)
    requires FlightOk(ms) && LastRandom(ms, r0, r) && LastRandom(ms, r0', r')
    ensures r == r'
  {
    var h :| 0 <= h < |ms| - 1 && ms[h].id == 0x02;
    var i :| 0 <= i < |ms| && ms[i].id == 0x02 && |ms[i].body| >= 34 && ms[i].body[2..34] == r
             && forall j :: i < j < |ms| ==> ms[j].id != 0x02;
    var i' :| 0 <= i' < |ms| && ms[i'].id == 0x02 && |ms[i'].body| >= 34 && ms[i'].body[2..34] == r'
              && forall j :: i' < j < |ms| ==> ms[j].id != 0x02;
    assert i == i';
  }

  lemma LastRandomCons(ms: seq<HsMsg>, r0: Bytes32, r: Bytes32)
    requires ms != [] && (ms[0].id == 0x02 ==> |ms[0].body| >= 34)
    requires LastRandom(ms[1..], if ms[0].id == 0x02 then ms[0].body[2..34] else r0, r)
    ensures LastRandom(ms, r0, r)
  {
    var rest := ms[1..];
    if forall i :: 0 <= i < |rest| ==> rest[i].id != 0x02 {
      assert forall j :: 0 < j < |ms| ==> ms[j] == rest[j - 1];
    } else {
      var i :| 0 <= i < |rest| && rest[i].id == 0x02 && |rest[i].body| >= 34 && rest[i].body[2..34] == r
               && forall j :: i < j < |rest| ==> rest[j].id != 0x02;
      assert ms[i + 1] == rest[i];
      assert forall j :: i + 1 < j < |ms| ==> ms[j] == rest[j - 1];
    }
  }

  lemma FlightCons(ms: seq<HsMsg>, hello: bool)
    requires |ms| > 1
    ensures FlightFrom(ms, hello) <==> IsFlightMsg(ms[0]) && FlightFrom(ms[1..], hello || ms[0].id == 0x02)
  {
    var rest := ms[1..];
    if IsFlightMsg(ms[0]) && FlightFrom(rest, hello || ms[0].id == 0x02) {
      forall i | 0 <= i < |ms| - 1 ensures IsFlightMsg(ms[i]) {
        assert i > 0 ==> ms[i] == rest[i - 1];
      }
      if !hello && ms[0].id != 0x02 {
        var i :| 0 <= i < |rest| - 1 && rest[i].id == 0x02;
        assert ms[i + 1].id == 0x02;
      }
    }
    if FlightFrom(ms, hello) {
      forall i | 0 <= i < |rest| - 1 ensures IsFlightMsg(rest[i]) {
        assert rest[i] == ms[i + 1];
      }
      if !hello && ms[0].id != 0x02 {
        var i :| 0 <= i < |ms| - 1 && ms[i].id == 0x02;
        assert rest[i - 1].id == 0x02;
      }
    }
  }

  /** What one message does, in terms of the grammar. */
  lemma TakeByGrammar(st: Rt1, m: HsMsg)
    requires st.ok && !st.done
    ensures IsFlightMsg(m) ==>
      (m.id == 0x02 ==> |m.body| >= 38) &&
      Rt1Take(st, m) == Rt1(st.fed + PrintMsg(m), if m.id == 0x02 then m.body[2..34] else st.random,
                            st.hello || m.id == 0x02, false, true)
    ensures m.id == 0x0e && st.hello ==> Rt1Take(st, m) == Rt1(st.fed + PrintMsg(m), st.random, true, true, true)
    ensures !IsFlightMsg(m) && !(m.id == 0x0e && st.hello) ==> !Rt1Take(st, m).ok
  {
    hide IsHello, AsksForEcdsa, CertRequestOk;
    HelloOkIff(m.body);
    CertRequestOkIff(m.body);
  }

  ghost predicate WalkGood(st: Rt1, b: Bytes) {
    var w := Rt1Walk(st, b);
    && (w.ok && w.done <==> SplitMsgs(b).Some? && FlightFrom(SplitMsgs(b).value, st.hello))
    && (w.ok && w.done ==> w.fed == st.fed + b && LastRandom(SplitMsgs(b).value, st.random, w.random))
  }

  lemma WalkMiddle(st: Rt1, b: Bytes)
    requires st.ok && !st.done && StartsMsg(b) && IsFlightMsg(FirstMsg(b))
    requires WalkGood(Rt1Take(st, FirstMsg(b)), AfterMsg(b))
    ensures WalkGood(st, b)
  {
    var m, rest := FirstMsg(b), AfterMsg(b);
    var st' := Rt1Take(st, m);
    TakeByGrammar(st, m);
    Rt1WalkNext(st, b);
    PrintedFirstMsg(b);
    assert st'.fed + rest == st.fed + b;
    if SplitMsgs(rest).Some? {
      var tail := SplitMsgs(rest).value;
      var ms := [m] + tail;
      assert SplitMsgs(b) == Some(ms) && ms[1..] == tail;
      if tail != [] {
        FlightCons(ms, st.hello);
      }
      var w := Rt1Walk(st', rest);
      if w.ok && w.done {
        LastRandomCons(ms, st.random, w.random);
      }
    }
  }

  lemma WalkLast(st: Rt1, b: Bytes)
    requires st.ok && !st.done && StartsMsg(b) && !IsFlightMsg(FirstMsg(b))
    ensures WalkGood(st, b)
  {
    var m, rest := FirstMsg(b), AfterMsg(b);
    var st' := Rt1Take(st, m);
    TakeByGrammar(st, m);
    Rt1WalkNext(st, b);
    PrintedFirstMsg(b);
    if SplitMsgs(rest).Some? {
      var ms := [m] + SplitMsgs(rest).value;
      assert SplitMsgs(b) == Some(ms) && ms[0] == m;
      if rest == [] {
        assert ms == [m];
      } else {
        assert SplitMsgs(rest).value != [];
        assert !FlightFrom(ms, st.hello);
      }
    }
    if st'.ok {
      DoneMeansEnd(st', rest);
      assert st.fed + PrintMsg(m) + [] == st.fed + PrintMsg(m);
    }
  }

  lemma {:induction false} WalkAccepts(st: Rt1, b: Bytes)
    requires st.ok && !st.done
    ensures WalkGood(st, b)
    decreases |b|
  {
    if b != [] && StartsMsg(b) {
      if IsFlightMsg(FirstMsg(b)) {
        TakeByGrammar(st, FirstMsg(b));
        WalkAccepts(Rt1Take(st, FirstMsg(b)), AfterMsg(b));
        WalkMiddle(st, b);
      } else {
        WalkLast(st, b);
      }
    }
  }

  lemma DoneMeansEnd(st: Rt1, b: Bytes)
    requires st.ok && st.done
    ensures Rt1Walk(st, b).ok <==> b == []
    ensures b == [] ==> Rt1Walk(st, b) == st
  {
    if b != [] && StartsMsg(b) {
      Rt1WalkNext(st, b);
    }
  }

  /**
   * The first reply is accepted exactly when it is a run of whole handshake
   * records around a well-formed flight; then everything it said is hashed.
   */
  lemma Rt1AcceptedIff(resp: Bytes, random: Bytes32)
    ensures var w := Rt1Of(resp, random);
            && (w.ok <==> StreamOf(resp).Some? && SplitMsgs(StreamOf(resp).value).Some?
                          && FlightOk(SplitMsgs(StreamOf(resp).value).value))
            && (w.ok ==> w.fed == StreamOf(resp).value
                         && LastRandom(SplitMsgs(StreamOf(resp).value).value, random, w.random))
  {
    if StreamOf(resp).Some? {
      WalkAccepts(Rt1Start(random), StreamOf(resp).value);
    }
  }

  // --------------------------------------------- the second reply: what is accepted

  /** How many encrypted records come before record `i`. */
  function Encrypted(rs: seq<Record>, i: nat): nat
    requires i <= |rs|
  {
    if i == 0 then 0 else Encrypted(rs, i - 1) + if rs[i - 1].ct == HANDSHAKE then 1 else 0
  }

  function Advance(s: word64, n: nat): word64 {
    (s + n) % U64
  }

  /** The fragment opens, at this sequence number, to the Finished of this session's server. */
  predicate IsServerFinished(c: Crypto, s: Chan, seqNo: word64, frag: Bytes) {
    match Unprotect(c, s.keys.decrKey, s.keys.decrIv, seqNo, 0x16, frag)
    case None => false
    case Some(plain) => |plain| == 16 && plain[0] == 0x14
                        && plain[4..] == PHash(c.hmac, s.master, Ascii("server finished") + s.verifyDigest, 12)
  }

  predicate CipherChangedBefore(rs: seq<Record>, i: nat)
    requires i <= |rs|
  {
    exists j :: 0 <= j < i && rs[j].ct == CHANGE_CIPHER
  }

  lemma CipherChangedCons(rs: seq<Record>, i: nat)
    requires 0 < i <= |rs|
    ensures CipherChangedBefore(rs, i) <==> rs[0].ct == CHANGE_CIPHER || CipherChangedBefore(rs[1..], i - 1)
  {
    var rest := rs[1..];
    if CipherChangedBefore(rs, i) {
      var j :| 0 <= j < i && rs[j].ct == CHANGE_CIPHER;
      assert j > 0 ==> rest[j - 1].ct == CHANGE_CIPHER;
    }
    if CipherChangedBefore(rest, i - 1) {
      var j :| 0 <= j < i - 1 && rest[j].ct == CHANGE_CIPHER;
      assert rs[j + 1].ct == CHANGE_CIPHER;
    }
  }

  lemma AdvanceNext(s: word64, n: nat)
    ensures Advance(Next64(s), n) == Advance(s, n + 1)
  {
    if s == U64 - 1 {
      assert (s + n + 1) % U64 == (n + U64) % U64 == n % U64;
    }
  }

  predicate ServerRecordOk(c: Crypto, s: Chan, seqNo: word64, ccs: bool, rs: seq<Record>, i: nat)
    requires i < |rs|
  {
    if rs[i].ct == 0x14 then rs[i].frag == [1]
    else
      && rs[i].ct == 0x16
      && (ccs || CipherChangedBefore(rs, i))
      && IsServerFinished(c, s, Advance(seqNo, Encrypted(rs, i)), rs[i].frag)
  }

  ghost predicate ServerFlight(c: Crypto, s: Chan, seqNo: word64, ccs: bool, rs: seq<Record>) {
    forall i :: 0 <= i < |rs| ==> ServerRecordOk(c, s, seqNo, ccs, rs, i)
  }

  ghost predicate Has(rs: seq<Record>, ct: byte) {
    exists i :: 0 <= i < |rs| && rs[i].ct == ct
  }

  lemma HasCons(rs: seq<Record>, ct: byte)
    requires rs != []
    ensures Has(rs, ct) <==> rs[0].ct == ct || Has(rs[1..], ct)
  {
    if Has(rs, ct) && rs[0].ct != ct {
      var i :| 0 <= i < |rs| && rs[i].ct == ct;
      assert rs[1..][i - 1].ct == ct;
    }
    if Has(rs[1..], ct) {
      var i :| 0 <= i < |rs[1..]| && rs[1..][i].ct == ct;
      assert rs[i + 1].ct == ct;
    }
  }

  lemma {:induction false} EncryptedCons(rs: seq<Record>, i: nat)
    requires 0 < i <= |rs|
    ensures Encrypted(rs, i) == (if rs[0].ct == HANDSHAKE then 1 else 0) + Encrypted(rs[1..], i - 1)
    decreases i
  {
    if i > 1 {
      EncryptedCons(rs, i - 1);
    }
  }

  lemma ServerRecordCons(c: Crypto, s: Chan, seqNo: word64, ccs: bool, rs: seq<Record>, i: nat)
    requires 0 < i < |rs|
    ensures ServerRecordOk(c, s, seqNo, ccs, rs, i)
       <==> ServerRecordOk(c, s, if rs[0].ct == HANDSHAKE then Next64(seqNo) else seqNo,
                           ccs || rs[0].ct == CHANGE_CIPHER, rs[1..], i - 1)
  {
    assert rs[1..][i - 1] == rs[i];
    EncryptedCons(rs, i);
    CipherChangedCons(rs, i);
    AdvanceNext(seqNo, Encrypted(rs[1..], i - 1));
  }

  lemma ServerFlightCons(c: Crypto, s: Chan, seqNo: word64, ccs: bool, rs: seq<Record>)
    requires rs != []
    ensures ServerFlight(c, s, seqNo, ccs, rs)
       <==> ServerRecordOk(c, s, seqNo, ccs, rs, 0)
            && ServerFlight(c, s, if rs[0].ct == HANDSHAKE then Next64(seqNo) else seqNo,
                            ccs || rs[0].ct == CHANGE_CIPHER, rs[1..])
  {
    var seqNo' := if rs[0].ct == HANDSHAKE then Next64(seqNo) else seqNo;
    var ccs' := ccs || rs[0].ct == CHANGE_CIPHER;
    forall i | 0 < i < |rs|
      ensures ServerRecordOk(c, s, seqNo, ccs, rs, i) <==> ServerRecordOk(c, s, seqNo', ccs', rs[1..], i - 1)
    {
      ServerRecordCons(c, s, seqNo, ccs, rs, i);
    }
    if ServerFlight(c, s, seqNo, ccs, rs) {
      forall i | 0 <= i < |rs[1..]| ensures ServerRecordOk(c, s, seqNo', ccs', rs[1..], i) {
        assert ServerRecordOk(c, s, seqNo, ccs, rs, i + 1);
      }
    }
  }

  lemma TakeIsRecordOk(c: Crypto, s: Chan, st: Rt2, rs: seq<Record>)
    requires st.ok && rs != []
    ensures var st' := Rt2Take(c, s, st, rs[0]);
            && (st'.ok <==> ServerRecordOk(c, s, st.decrSeq, st.ccs, rs, 0))
            && (st'.ok ==> st' == Rt2(if rs[0].ct == HANDSHAKE then Next64(st.decrSeq) else st.decrSeq,
                                      st.ccs || rs[0].ct == CHANGE_CIPHER, st.fin || rs[0].ct == HANDSHAKE, true))
  {
    assert Encrypted(rs, 0) == 0 && Advance(st.decrSeq, 0) == st.decrSeq;
    UnprotectsAsTls(c, s.keys.decrKey, s.keys.decrIv, st.decrSeq, HANDSHAKE, rs[0].frag);
  }

  ghost predicate Rt2WalkGood(c: Crypto, s: Chan, st: Rt2, b: Bytes) {
    var w := Rt2Walk(c, s, st, b);
    && (w.ok <==> SplitRecords(b).Some? && ServerFlight(c, s, st.decrSeq, st.ccs, SplitRecords(b).value))
    && (w.ok ==> var rs := SplitRecords(b).value;
                 && (w.ccs <==> st.ccs || Has(rs, CHANGE_CIPHER))
                 && (w.fin <==> st.fin || Has(rs, HANDSHAKE))
                 && w.decrSeq == Advance(st.decrSeq, Encrypted(rs, |rs|)))
  }

  lemma Rt2WalkMiddle(c: Crypto, s: Chan, st: Rt2, b: Bytes)
    requires st.ok && StartsWhole(b)
    requires var st' := Rt2Take(c, s, st, FirstRecord(b)); st'.ok ==> Rt2WalkGood(c, s, st', AfterFirst(b))
    ensures Rt2WalkGood(c, s, st, b)
  {
    hide Rt2Take, ServerFlight, Encrypted;
    var r, rest := FirstRecord(b), AfterFirst(b);
    var st' := Rt2Take(c, s, st, r);
    Rt2WalkNext(c, s, st, b);
    if SplitRecords(rest).Some? {
      var rs := [r] + SplitRecords(rest).value;
      assert SplitRecords(b) == Some(rs) && rs[0] == r && rs[1..] == SplitRecords(rest).value;
      TakeIsRecordOk(c, s, st, rs);
      ServerFlightCons(c, s, st.decrSeq, st.ccs, rs);
      if st'.ok {
        HasCons(rs, CHANGE_CIPHER);
        HasCons(rs, HANDSHAKE);
        EncryptedCons(rs, |rs|);
        AdvanceNext(st.decrSeq, Encrypted(rs[1..], |rs| - 1));
      }
    }
  }

  lemma {:induction false} Rt2WalkAccepts(c: Crypto, s: Chan, st: Rt2, b: Bytes)
    requires st.ok
    ensures Rt2WalkGood(c, s, st, b)
    decreases |b|
  {
    if b == [] {
      assert Advance(st.decrSeq, Encrypted([], 0)) == st.decrSeq;
    } else if StartsWhole(b) {
      if Rt2Take(c, s, st, FirstRecord(b)).ok {
        Rt2WalkAccepts(c, s, Rt2Take(c, s, st, FirstRecord(b)), AfterFirst(b));
      }
      Rt2WalkMiddle(c, s, st, b);
    }
  }

  /**
   * The second reply is accepted exactly when it consists of ChangeCipherSpec
   * records and, after one of those, encrypted records that each open to the
   * server's Finished for this transcript; at least one of them.
   */
  lemma Rt2AcceptedIff(c: Crypto, s: Chan, resp: Bytes)
    ensures var (ok, s') := Rt2Step(c, s, resp);
            && (ok <==> SplitRecords(resp).Some? && Has(SplitRecords(resp).value, HANDSHAKE)
                        && ServerFlight(c, s, s.decrSeq, false, SplitRecords(resp).value))
            && (ok ==> var rs := SplitRecords(resp).value;
                       s' == s.(established := true, decrSeq := Advance(s.decrSeq, Encrypted(rs, |rs|))))
  {
    Rt2WalkAccepts(c, s, Rt2(s.decrSeq, false, false, true), resp);
    if SplitRecords(resp).Some? && ServerFlight(c, s, s.decrSeq, false, SplitRecords(resp).value)
       && Has(SplitRecords(resp).value, HANDSHAKE) {
      var rs := SplitRecords(resp).value;
      var i :| 0 <= i < |rs| && rs[i].ct == HANDSHAKE;
      assert ServerRecordOk(c, s, s.decrSeq, false, rs, i);
      assert Has(rs, CHANGE_CIPHER);
    }
  }
}
