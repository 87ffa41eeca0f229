/**
 * The two layers of TLS framing: records, and the handshake messages inside
 * them. Parsing and printing are inverse, so each byte string has one reading.
 */
module Records {
  import opened ByteStrings

  const HANDSHAKE: byte := 0x16
  const CHANGE_CIPHER: byte := 0x14
  const ALERT: byte := 0x15
  const APPDATA: byte := 0x17

  // ------------------------------------------------------------------- records

  /** The two version bytes are carried but never checked by the driver. */
  datatype Record = Record(ct: byte, major: byte, minor: byte, frag: Bytes)

  predicate Fits(r: Record) {
    |r.frag| < U16
  }

  ghost predicate AllFit(rs: seq<Record>) {
    forall i :: 0 <= i < |rs| ==> Fits(rs[i])
  }

  /** `rec_write_plain`: the length field keeps only 16 bits. */
  function WriteRecord(ct: byte, body: Bytes): Bytes {
    [ct, 3, 3, (|body| / 256) % 256, |body| % 256] + body
  }

  function PrintRecord(r: Record): Bytes {
    [r.ct, r.major, r.minor] + Be16(|r.frag|) + r.frag
  }

  function PrintRecords(rs: seq<Record>): Bytes {
    if rs == [] then [] else PrintRecord(rs[0]) + PrintRecords(rs[1..])
  }

  lemma WriteIsPrint(ct: byte, body: Bytes)
    ensures WriteRecord(ct, body) == PrintRecord(Record(ct, 3, 3, body))
  {
  }

  /** The record length that the header announces. */
  function RecordLen(b: Bytes): (n: nat)
    requires |b| >= 5
    ensures n < U16
  {
    (b[3] as nat) * 256 + (b[4] as nat)
  }

  /** The buffer starts with one whole record. */
  predicate StartsWhole(b: Bytes) {
    |b| >= 5 && |b| >= 5 + RecordLen(b)
  }

  function FirstRecord(b: Bytes): (r: Record)
    requires StartsWhole(b)
    ensures Fits(r)
  {
    Record(b[0], b[1], b[2], b[5..5 + RecordLen(b)])
  }

  function AfterFirst(b: Bytes): (rest: Bytes)
    requires StartsWhole(b)
    ensures |rest| < |b|
  {
    b[5 + RecordLen(b)..]
  }

  /** The records a buffer consists of; None when the last one is cut. */
  function SplitRecords(b: Bytes): Option<seq<Record>>
    decreases |b|
  {
    if b == [] then Some([])
    else if !StartsWhole(b) then None
    else match SplitRecords(AfterFirst(b))
         case None => None
         case Some(rs) => Some([FirstRecord(b)] + rs)
  }

  lemma FirstOfPrinted(r: Record, rest: Bytes)
    ensures Fits(r) ==>
              StartsWhole(PrintRecord(r) + rest)
              && FirstRecord(PrintRecord(r) + rest) == r && AfterFirst(PrintRecord(r) + rest) == rest
  {
    if Fits(r) {
      var n := |r.frag|;
      var b := PrintRecord(r) + rest;
      var head := [r.ct, r.major, r.minor] + Be16(n);
      Associates(head, r.frag, rest);
      Cut(head, r.frag + rest);
      Cut(r.frag, rest);
      assert b[3] == head[3] && b[4] == head[4];
      assert RecordLen(b) == n;
      assert b[5..5 + n] == b[5..][..n] && b[5 + n..] == b[5..][n..];
    }
  }

  lemma PrintedFirst(b: Bytes)
    requires StartsWhole(b)
    ensures b == PrintRecord(FirstRecord(b)) + AfterFirst(b)
  {
    var n := RecordLen(b);
    assert Be16(n) == [b[3], b[4]];
    assert b == [b[0], b[1], b[2]] + [b[3], b[4]] + b[5..5 + n] + b[5 + n..];
  }

  lemma {:induction false} PrintedSplit(rs: seq<Record>)
    requires AllFit(rs)
    ensures SplitRecords(PrintRecords(rs)) == Some(rs)
  {
    if rs != [] {
      FirstOfPrinted(rs[0], PrintRecords(rs[1..]));
      PrintedSplit(rs[1..]);
      assert [rs[0]] + rs[1..] == rs;
    }
  }

  lemma {:induction false} SplitPrinted(b: Bytes)
    requires SplitRecords(b).Some?
    ensures AllFit(SplitRecords(b).value) && PrintRecords(SplitRecords(b).value) == b
    decreases |b|
  {
    if b != [] {
      var rs := SplitRecords(b).value;
      SplitPrinted(AfterFirst(b));
      PrintedFirst(b);
      assert rs[1..] == SplitRecords(AfterFirst(b)).value;
    }
  }

  /** Splitting inverts printing, and only printing: a buffer has exactly one reading. */
  lemma SplitIffPrinted(b: Bytes, rs: seq<Record>)
    ensures SplitRecords(b) == Some(rs) <==> AllFit(rs) && PrintRecords(rs) == b
  {
    if SplitRecords(b).Some? {
      SplitPrinted(b);
    }
    if AllFit(rs) {
      PrintedSplit(rs);
    }
  }

  lemma {:induction false} PrintSplits(a: seq<Record>, b: seq<Record>)
    ensures PrintRecords(a + b) == PrintRecords(a) + PrintRecords(b)
  {
    hide PrintRecord;
    if a == [] {
      assert a + b == b;
    } else {
      PrintSplits(a[1..], b);
      assert (a + b)[0] == a[0] && (a + b)[1..] == a[1..] + b;
      Associates(PrintRecord(a[0]), PrintRecords(a[1..]), PrintRecords(b));
    }
  }

  lemma PrintOne(r: Record)
    ensures PrintRecords([r]) == PrintRecord(r)
  {
    assert [r][1..] == [];
  }

  function Frags(rs: seq<Record>): Bytes {
    if rs == [] then [] else rs[0].frag + Frags(rs[1..])
  }

  // -------------------------------------------------------- handshake messages

  datatype HsMsg = HsMsg(id: byte, body: Bytes)

  predicate MsgFits(m: HsMsg) {
    |m.body| < U24
  }

  function PrintMsg(m: HsMsg): Bytes {
    [m.id] + Be24(|m.body|) + m.body
  }

  function PrintMsgs(ms: seq<HsMsg>): Bytes {
    if ms == [] then [] else PrintMsg(ms[0]) + PrintMsgs(ms[1..])
  }

  function MsgLen(b: Bytes): (n: nat)
    requires |b| >= 4
    ensures n < U24
  {
    (b[1] as nat) * 65536 + (b[2] as nat) * 256 + (b[3] as nat)
  }

  predicate StartsMsg(b: Bytes) {
    |b| >= 4 && |b| >= 4 + MsgLen(b)
  }

  function FirstMsg(b: Bytes): (m: HsMsg)
    requires StartsMsg(b)
    ensures MsgFits(m)
  {
    HsMsg(b[0], b[4..4 + MsgLen(b)])
  }

  function AfterMsg(b: Bytes): (rest: Bytes)
    requires StartsMsg(b)
    ensures |rest| < |b|
  {
    b[4 + MsgLen(b)..]
  }

  function SplitMsgs(b: Bytes): Option<seq<HsMsg>>
    decreases |b|
  {
    if b == [] then Some([])
    else if !StartsMsg(b) then None
    else match SplitMsgs(AfterMsg(b))
         case None => None
         case Some(ms) => Some([FirstMsg(b)] + ms)
  }

  lemma Be24Value(n: nat)
    requires n < U24
    ensures |Be24(n)| == 3
    ensures (Be24(n)[0] as nat) * 65536 + (Be24(n)[1] as nat) * 256 + (Be24(n)[2] as nat) == n
  {
    assert n / 65536 == n / 256 / 256;
  }

  lemma FirstOfPrintedMsg(m: HsMsg, rest: Bytes)
    ensures MsgFits(m) ==>
              StartsMsg(PrintMsg(m) + rest)
              && FirstMsg(PrintMsg(m) + rest) == m && AfterMsg(PrintMsg(m) + rest) == rest
  {
    if MsgFits(m) {
      hide Be24;
      var n := |m.body|;
      Be24Value(n);
      var b := PrintMsg(m) + rest;
      var head := [m.id] + Be24(n);
      Associates(head, m.body, rest);
      Cut(head, m.body + rest);
      Cut(m.body, rest);
      assert b[1] == head[1] && b[2] == head[2] && b[3] == head[3];
      assert MsgLen(b) == n;
      assert b[4..4 + n] == b[4..][..n] && b[4 + n..] == b[4..][n..];
    }
  }

  lemma Be24OfLen(b: Bytes)
    requires |b| >= 4
    ensures Be24(MsgLen(b)) == [b[1], b[2], b[3]]
  {
    var x, y, z := b[1] as nat, b[2] as nat, b[3] as nat;
    var n := x * 65536 + y * 256 + z;
    assert n / 256 == x * 256 + y;
    assert n / 65536 == x;
  }

  lemma PrintedFirstMsg(b: Bytes)
    requires StartsMsg(b)
    ensures b == PrintMsg(FirstMsg(b)) + AfterMsg(b)
  {
    var n := MsgLen(b);
    Be24OfLen(b);
    assert b == [b[0]] + [b[1], b[2], b[3]] + b[4..4 + n] + b[4 + n..];
  }

  predicate MsgsFit(ms: seq<HsMsg>) {
    forall i :: 0 <= i < |ms| ==> MsgFits(ms[i])
  }

  lemma {:induction false} PrintedMsgsSplit(ms: seq<HsMsg>)
    requires MsgsFit(ms)
    ensures SplitMsgs(PrintMsgs(ms)) == Some(ms)
  {
    if ms != [] {
      FirstOfPrintedMsg(ms[0], PrintMsgs(ms[1..]));
      PrintedMsgsSplit(ms[1..]);
      assert [ms[0]] + ms[1..] == ms;
    }
  }

  lemma {:induction false} SplitMsgsPrinted(b: Bytes)
    requires SplitMsgs(b).Some?
    ensures MsgsFit(SplitMsgs(b).value) && PrintMsgs(SplitMsgs(b).value) == b
    decreases |b|
  {
    if b != [] {
      var ms := SplitMsgs(b).value;
      SplitMsgsPrinted(AfterMsg(b));
      PrintedFirstMsg(b);
      assert ms[1..] == SplitMsgs(AfterMsg(b)).value;
    }
  }

  lemma SplitMsgsIffPrinted(b: Bytes, ms: seq<HsMsg>)
    ensures SplitMsgs(b) == Some(ms) <==> MsgsFit(ms) && PrintMsgs(ms) == b
  {
    if SplitMsgs(b).Some? {
      SplitMsgsPrinted(b);
    }
    if MsgsFit(ms) {
      PrintedMsgsSplit(ms);
    }
  }

  // -------------------------------------------------------------------- layout

  /** Type, two version bytes, and the length with its high byte first. */
  lemma RecordLayout(r: Record)
    requires Fits(r)
    ensures PrintRecord(r) == [r.ct, r.major, r.minor, |r.frag| / 256, |r.frag| % 256] + r.frag
    ensures r.major == 3 && r.minor == 3 ==> WriteRecord(r.ct, r.frag) == PrintRecord(r)
  {
  }

  /** Type, and the length in three bytes with its high byte first. */
  lemma MessageLayout(m: HsMsg)
    requires MsgFits(m)
    ensures PrintMsg(m) == [m.id, |m.body| / 65536, |m.body| / 256 % 256, |m.body| % 256] + m.body
  {
    assert |m.body| / 65536 < 256;
  }
}
