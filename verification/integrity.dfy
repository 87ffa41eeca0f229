/**
 * The record layer against any input: which buffers `unwrap` accepts, what it
 * returns and what it loses, call by call and over whole runs of a channel.
 */
module Integrity {
  import opened ByteStrings
  import opened TlsCrypto
  import opened TlsWire
  import opened Records
  import opened Channel
  import opened Handshake
  import opened Sessions
  import opened Delivery
  import opened PairingCodec
  import opened HonestServer

  // ------------------------------------------------------- what unwrap accepts

  /** Record `i` is application data that opens with the `i`-th sequence number from `seqNo` on. */
  predicate AppRecordOk(c: Crypto, keys: Keys, seqNo: word64, rs: seq<Record>, i: nat)
    requires i < |rs|
  {
    && rs[i].ct == APPDATA
    && GcmUnwrap(c, keys.decrKey, keys.decrIv, Advance(seqNo, i), APPDATA, rs[i].frag).Some?
  }

  predicate AppFlight(c: Crypto, keys: Keys, seqNo: word64, rs: seq<Record>) {
    forall i :: 0 <= i < |rs| ==> AppRecordOk(c, keys, seqNo, rs, i)
  }

  /** What the records open to, one after the other. */
  function Opened(c: Crypto, keys: Keys, seqNo: word64, rs: seq<Record>): Bytes
    decreases |rs|
  {
    if rs == [] then []
    else
      var plain := GcmUnwrap(c, keys.decrKey, keys.decrIv, seqNo, APPDATA, rs[0].frag);
      (if plain.Some? then plain.value else []) + Opened(c, keys, Next64(seqNo), rs[1..])
  }

  lemma AppFlightCons(c: Crypto, keys: Keys, seqNo: word64, rs: seq<Record>)
    requires rs != []
    ensures AppFlight(c, keys, seqNo, rs)
       <==> AppRecordOk(c, keys, seqNo, rs, 0) && AppFlight(c, keys, Next64(seqNo), rs[1..])
  {
    forall i | 0 < i < |rs|
      ensures AppRecordOk(c, keys, seqNo, rs, i) <==> AppRecordOk(c, keys, Next64(seqNo), rs[1..], i - 1)
    {
      AdvanceNext(seqNo, i - 1);
    }
    if AppFlight(c, keys, seqNo, rs) {
      forall i | 0 <= i < |rs| - 1 ensures AppRecordOk(c, keys, Next64(seqNo), rs[1..], i) {
        assert AppRecordOk(c, keys, seqNo, rs, i + 1);
      }
    }
  }

  /**
   * `unwrap` accepts a buffer exactly when it consists of whole records of
   * application data that all open, each with the next sequence number.
   */
  lemma {:induction false} UnwrapAcceptedIff(c: Crypto, keys: Keys, seqNo: word64, out: Bytes, b: Bytes)
    ensures var u := UnwrapWalk(c, keys, seqNo, out, b);
            && (u.ok <==> SplitRecords(b).Some? && AppFlight(c, keys, seqNo, SplitRecords(b).value))
            && (u.ok ==> var rs := SplitRecords(b).value;
                         u.decrSeq == Advance(seqNo, |rs|) && u.out == out + Opened(c, keys, seqNo, rs))
    decreases |b|
  {
    hide AppFlight, GcmUnwrap;
    if b == [] {
      NoAppFlight(c, keys, seqNo);
      assert out + [] == out;
    } else if StartsWhole(b) {
      var r, rest := FirstRecord(b), AfterFirst(b);
      var plain := GcmUnwrap(c, keys.decrKey, keys.decrIv, seqNo, r.ct, r.frag);
      if plain.Some? && r.ct == APPDATA {
        UnwrapAcceptedIff(c, keys, Next64(seqNo), out + plain.value, rest);
      }
      if SplitRecords(rest).Some? {
        var rs := [r] + SplitRecords(rest).value;
        assert SplitRecords(b) == Some(rs) && rs[1..] == SplitRecords(rest).value;
        AppFlightCons(c, keys, seqNo, rs);
        assert Advance(seqNo, 0) == seqNo;
        AdvanceNext(seqNo, |rs| - 1);
        if plain.Some? {
          Associates(out, plain.value, Opened(c, keys, Next64(seqNo), rs[1..]));
        }
      }
    }
  }

  lemma NoAppFlight(c: Crypto, keys: Keys, seqNo: word64)
    ensures AppFlight(c, keys, seqNo, []) && Opened(c, keys, seqNo, []) == [] && Advance(seqNo, 0) == seqNo
  {
  }

  // ------------------------------------------------------- safety against any input

  /** What the peer has sealed with the key this end opens with, fewer than 2^64 records. */
  type Log = l: seq<Sealed> | |l| < U64 witness []

  /** The ciphertext of log entry `i`, sealed with sequence number `i`. */
  function LoggedFrag(c: Crypto, keys: Keys, log: Log, i: nat): Bytes
    requires i < |log|
  {
    GcmWrap(c, keys.decrKey, keys.decrIv, i, log[i].ct, log[i].nonce, log[i].plain)
  }

  /** An AEAD that opens what the peer sealed, as that, and nothing else. */
  ghost predicate OpensOnly(c: Crypto, keys: Keys, log: Log)
  {
    forall iv, aad, x, p ::
      c.open(keys.decrKey, iv, aad, x) == Some(p) <==>
      exists i :: 0 <= i < |log| && p == log[i].plain && OpensEntry(c, keys, log, i, iv, aad, x)
  }

  ghost predicate OpensEntry(c: Crypto, keys: Keys, log: Log, i: nat, iv: Bytes, aad: Bytes, x: Bytes)
    requires i < |log|
  {
    && iv == keys.decrIv + log[i].nonce
    && aad == Aad(i, log[i].ct, |log[i].plain|)
    && x == c.seal(keys.decrKey, iv, aad, log[i].plain)
  }

  /** A fragment opens at sequence number `s` exactly when it is the peer's record number `s`. */
  lemma OpensExactlyNext(c: Crypto, keys: Keys, log: Log, s: word64, ct: byte, frag: Bytes)
    requires OpensOnly(c, keys, log) && |keys.decrIv| == 4
    requires forall k, iv, aad, p :: |c.seal(k, iv, aad, p)| == |p| + 16
    ensures GcmUnwrap(c, keys.decrKey, keys.decrIv, s, ct, frag)
         == if s < |log| && ct == log[s].ct && frag == LoggedFrag(c, keys, log, s) then Some(log[s].plain) else None
  {
    if |frag| >= 24 {
      var iv, aad, x := keys.decrIv + frag[..8], Aad(s, ct, |frag| - 24), frag[8..];
      if c.open(keys.decrKey, iv, aad, x).Some? {
        var p := c.open(keys.decrKey, iv, aad, x).value;
        var i :| 0 <= i < |log| && p == log[i].plain && OpensEntry(c, keys, log, i, iv, aad, x);
        AadIdentifies(s, ct, |frag| - 24, i, log[i].ct, |log[i].plain|);
        assert iv[4..] == frag[..8] && iv[4..] == log[i].nonce;
        assert frag == frag[..8] + frag[8..];
      }
    }
    if s < |log| && ct == log[s].ct && frag == LoggedFrag(c, keys, log, s) {
      var sealed := c.seal(keys.decrKey, keys.decrIv + log[s].nonce, Aad(s, ct, |log[s].plain|), log[s].plain);
      assert frag[..8] == log[s].nonce && frag[8..] == sealed;
      assert OpensEntry(c, keys, log, s, keys.decrIv + frag[..8], Aad(s, ct, |frag| - 24), frag[8..]);
    }
  }

  /** The application data of the log between two sequence numbers. */
  function Slice(log: Log, lo: nat, hi: nat): Bytes
    requires lo <= hi <= |log|
    decreases hi - lo
  {
    if lo == hi then [] else (if log[lo].ct == APPDATA then log[lo].plain else []) + Slice(log, lo + 1, hi)
  }

  predicate OnlyAppData(log: Log, lo: nat, hi: nat)
    requires lo <= hi <= |log|
  {
    forall i :: lo <= i < hi ==> log[i].ct == APPDATA
  }

  lemma {:induction false} SliceSplits(log: Log, lo: nat, mid: nat, hi: nat)
    requires lo <= mid <= hi <= |log|
    ensures Slice(log, lo, hi) == Slice(log, lo, mid) + Slice(log, mid, hi)
    decreases mid - lo
  {
    if lo < mid {
      SliceSplits(log, lo + 1, mid, hi);
      var first := if log[lo].ct == APPDATA then log[lo].plain else [];
      Associates(first, Slice(log, lo + 1, mid), Slice(log, mid, hi));
    }
  }

  /** The inputs the safety theorems range over: any peer history below the counter's limit. */
  ghost predicate Guarded(c: Crypto, keys: Keys, log: Log) {
    && OpensOnly(c, keys, log) && |keys.decrIv| == 4
    && forall k, iv, aad, p :: |c.seal(k, iv, aad, p)| == |p| + 16
  }

  /** The toy primitives, with an `open` that knows the log. */
  function GuardedToy(keys: Keys, log: Log): Crypto {
    Toy().(open := (k, iv, aad, x) =>
      if exists i :: 0 <= i < |log| && iv == keys.decrIv + log[i].nonce && aad == Aad(i, log[i].ct, |log[i].plain|)
                     && x == ToySeal(keys.decrKey, iv, aad, log[i].plain)
      then ToyOpen(k, iv, aad, x) else None)
  }

  /** Such an AEAD exists for every history, so the theorems below are not empty. */
  lemma GuardedIsPossible(keys: Keys, log: Log)
    requires |keys.decrIv| == 4
    ensures Guarded(GuardedToy(keys, log), keys, log)
  {
    var c := GuardedToy(keys, log);
    forall iv, aad, x, p
      ensures c.open(keys.decrKey, iv, aad, x) == Some(p) <==>
              exists i :: 0 <= i < |log| && p == log[i].plain && OpensEntry(c, keys, log, i, iv, aad, x)
    {
      forall i | 0 <= i < |log| && OpensEntry(c, keys, log, i, iv, aad, x)
        ensures ToyOpen(keys.decrKey, iv, aad, x) == Some(log[i].plain)
      {
        assert x[..|x| - 16] == log[i].plain;
      }
    }
    assert OpensOnly(c, keys, log);
  }

  // ---------------------------------------------------- one call, exactly

  /** The buffer starts with a whole record that carries entry `s` of the peer's log. */
  predicate CarriesNext(c: Crypto, keys: Keys, log: Log, s: nat, b: Bytes)
  {
    && StartsWhole(b) && s < |log|
    && FirstRecord(b).ct == log[s].ct && FirstRecord(b).frag == LoggedFrag(c, keys, log, s)
  }

  predicate CarriesNextData(c: Crypto, keys: Keys, log: Log, s: nat, b: Bytes)
  {
    CarriesNext(c, keys, log, s, b) && log[s].ct == APPDATA
  }

  /** How many whole records at the front of the buffer carry the peer's next application data. */
  function Leading(c: Crypto, keys: Keys, log: Log, s: nat, b: Bytes): (n: nat)
    requires s <= |log|
    ensures s + n <= |log|
    decreases |b|
  {
    if CarriesNextData(c, keys, log, s, b) then 1 + Leading(c, keys, log, s + 1, AfterFirst(b)) else 0
  }

  /** The rest of the buffer, behind those records. */
  function Beyond(c: Crypto, keys: Keys, log: Log, s: nat, b: Bytes): Bytes
    requires s <= |log|
    decreases |b|
  {
    if CarriesNextData(c, keys, log, s, b) then Beyond(c, keys, log, s + 1, AfterFirst(b)) else b
  }

  /** The peer's record that comes next after a call: one further if the rest starts with an alert of the peer, say. */
  function EndOf(c: Crypto, keys: Keys, log: Log, s: nat, b: Bytes): (e: nat)
    requires s <= |log|
    ensures s <= e <= |log|
  {
    var mid := s + Leading(c, keys, log, s, b);
    if CarriesNext(c, keys, log, mid, Beyond(c, keys, log, s, b)) then mid + 1 else mid
  }

  /** The record is whole and carries entry `k` of the peer's log, which is application data. */
  predicate CarriesEntry(c: Crypto, keys: Keys, log: Log, k: nat, r: Record) {
    Fits(r) && k < |log| && r.ct == APPDATA && log[k].ct == APPDATA && r.frag == LoggedFrag(c, keys, log, k)
  }

  /** These records carry the peer's application data from entry `s` on. */
  predicate Carries(c: Crypto, keys: Keys, log: Log, s: nat, rs: seq<Record>): (y: bool)
    ensures y ==> s + |rs| <= |log|
    decreases |rs|
  {
    if rs == [] then s <= |log| else CarriesEntry(c, keys, log, s, rs[0]) && Carries(c, keys, log, s + 1, rs[1..])
  }

  lemma LeadNext(c: Crypto, keys: Keys, log: Log, s: nat, b: Bytes)
    requires s <= |log|
    ensures if CarriesNextData(c, keys, log, s, b) then
              && Leading(c, keys, log, s, b) == 1 + Leading(c, keys, log, s + 1, AfterFirst(b))
              && Beyond(c, keys, log, s, b) == Beyond(c, keys, log, s + 1, AfterFirst(b))
              && EndOf(c, keys, log, s, b) == EndOf(c, keys, log, s + 1, AfterFirst(b))
            else
              && Leading(c, keys, log, s, b) == 0 && Beyond(c, keys, log, s, b) == b
              && EndOf(c, keys, log, s, b) == if CarriesNext(c, keys, log, s, b) then s + 1 else s
  {
    hide LoggedFrag;
  }

  /** The leading records are such records, and the buffer is these and the rest. */
  lemma {:induction false} LeadingCarries(c: Crypto, keys: Keys, log: Log, s: nat, b: Bytes) returns (rs: seq<Record>)
    requires s <= |log|
    ensures Carries(c, keys, log, s, rs) && |rs| == Leading(c, keys, log, s, b)
    ensures b == PrintRecords(rs) + Beyond(c, keys, log, s, b)
    decreases |b|
  {
    hide LoggedFrag, Leading, Beyond, EndOf, PrintRecord;
    LeadNext(c, keys, log, s, b);
    if CarriesNextData(c, keys, log, s, b) {
      var tail := LeadingCarries(c, keys, log, s + 1, AfterFirst(b));
      var r := FirstRecord(b);
      rs := [r] + tail;
      assert rs[1..] == tail;
      PrintedFirst(b);
      Associates(PrintRecord(r), PrintRecords(tail), Beyond(c, keys, log, s, b));
    } else {
      rs := [];
      assert [] + b == b;
    }
  }

  /** No longer stretch of such records starts the buffer; and if one is all of it, there is no rest. */
  lemma {:induction false} LeadingIsLongest(c: Crypto, keys: Keys, log: Log, s: nat, b: Bytes, rs: seq<Record>)
    requires s <= |log| && Carries(c, keys, log, s, rs) && PrintRecords(rs) <= b
    ensures |rs| <= Leading(c, keys, log, s, b)
    ensures PrintRecords(rs) == b ==> Beyond(c, keys, log, s, b) == []
    decreases |rs|
  {
    hide LoggedFrag;
    if rs != [] {
      var rest := b[|PrintRecords(rs)|..];
      var tail := PrintRecords(rs[1..]);
      Associates(PrintRecord(rs[0]), tail, rest);
      assert b == PrintRecord(rs[0]) + (tail + rest);
      FirstOfPrinted(rs[0], tail + rest);
      assert CarriesNextData(c, keys, log, s, b);
      assert AfterFirst(b) == tail + rest;
      LeadingIsLongest(c, keys, log, s + 1, AfterFirst(b), rs[1..]);
    }
  }

  lemma SliceNext(log: Log, lo: nat, hi: nat)
    requires lo <= hi <= |log|
    ensures lo == hi ==> Slice(log, lo, hi) == [] && OnlyAppData(log, lo, hi)
    ensures lo < hi && log[lo].ct == APPDATA ==>
              Slice(log, lo, hi) == log[lo].plain + Slice(log, lo + 1, hi)
              && (OnlyAppData(log, lo, hi) <==> OnlyAppData(log, lo + 1, hi))
  {
  }

  lemma UnwrapWalkNext(c: Crypto, keys: Keys, s: word64, out: Bytes, b: Bytes)
    ensures UnwrapWalk(c, keys, s, out, b) ==
            if b == [] then Unwrapped(true, s, out)
            else if !StartsWhole(b) then Unwrapped(false, s, [])
            else
              var r := FirstRecord(b);
              var plain := GcmUnwrap(c, keys.decrKey, keys.decrIv, s, r.ct, r.frag);
              if plain.None? then Unwrapped(false, s, [])
              else if r.ct == APPDATA then UnwrapWalk(c, keys, Next64(s), out + plain.value, AfterFirst(b))
              else Unwrapped(false, Next64(s), [])
  {
    hide GcmUnwrap;
  }

  /**
   * What `unwrap` does with any buffer, from the buffer and the peer's log
   * alone: it takes the leading records, and it succeeds exactly if there is
   * nothing behind them.
   */
  lemma {:induction false} WalkEnds(c: Crypto, keys: Keys, log: Log, s: word64, out: Bytes, b: Bytes)
    requires Guarded(c, keys, log) && s <= |log|
    ensures var mid := s + Leading(c, keys, log, s, b);
            OnlyAppData(log, s, mid)
            && UnwrapWalk(c, keys, s, out, b) ==
               if Beyond(c, keys, log, s, b) == [] then Unwrapped(true, mid, out + Slice(log, s, mid))
               else Unwrapped(false, EndOf(c, keys, log, s, b), [])
    decreases |b|
  {
    hide GcmUnwrap, LoggedFrag, Guarded, UnwrapWalk, Leading, Beyond, EndOf, Slice, OnlyAppData;
    var mid := s + Leading(c, keys, log, s, b);
    UnwrapWalkNext(c, keys, s, out, b);
    LeadNext(c, keys, log, s, b);
    SliceNext(log, s, mid);
    assert out + [] == out;
    if StartsWhole(b) {
      var r := FirstRecord(b);
      OpensNext(c, keys, log, s, r.ct, r.frag);
      if CarriesNextData(c, keys, log, s, b) {
        WalkEnds(c, keys, log, s + 1, out + log[s].plain, AfterFirst(b));
        Associates(out, log[s].plain, Slice(log, s + 1, mid));
      }
    }
  }

  lemma OpensNext(c: Crypto, keys: Keys, log: Log, s: word64, ct: byte, frag: Bytes)
    requires Guarded(c, keys, log)
    ensures GcmUnwrap(c, keys.decrKey, keys.decrIv, s, ct, frag)
         == if s < |log| && ct == log[s].ct && frag == LoggedFrag(c, keys, log, s) then Some(log[s].plain) else None
  {
    OpensExactlyNext(c, keys, log, s, ct, frag);
  }

  /** The buffer is whole records that carry the peer's next application data. */
  ghost predicate IsNextData(c: Crypto, keys: Keys, log: Log, s: nat, b: Bytes) {
    exists rs :: Carries(c, keys, log, s, rs) && PrintRecords(rs) == b
  }

  /** The buffer starts with such records, and they carry at least one byte. */
  ghost predicate StartsWithData(c: Crypto, keys: Keys, log: Log, s: nat, b: Bytes) {
    exists rs :: DataStretch(c, keys, log, s, b, rs)
  }

  ghost predicate DataStretch(c: Crypto, keys: Keys, log: Log, s: nat, b: Bytes, rs: seq<Record>) {
    Carries(c, keys, log, s, rs) && PrintRecords(rs) <= b && Slice(log, s, s + |rs|) != []
  }

  lemma StretchLeads(c: Crypto, keys: Keys, log: Log, s: nat, b: Bytes, rs: seq<Record>)
    requires s <= |log| && DataStretch(c, keys, log, s, b, rs)
    ensures Slice(log, s, s + Leading(c, keys, log, s, b)) != []
  {
    hide Leading, Beyond, Slice, Carries;
    LeadingIsLongest(c, keys, log, s, b, rs);
    SliceSplits(log, s, s + |rs|, s + Leading(c, keys, log, s, b));
  }

  lemma IsNextDataIff(c: Crypto, keys: Keys, log: Log, s: nat, b: Bytes)
    requires s <= |log|
    ensures IsNextData(c, keys, log, s, b) <==> Beyond(c, keys, log, s, b) == []
  {
    hide Carries, Leading, Beyond;
    var lead := LeadingCarries(c, keys, log, s, b);
    if Beyond(c, keys, log, s, b) == [] {
      assert PrintRecords(lead) + [] == PrintRecords(lead);
    }
    if rs :| Carries(c, keys, log, s, rs) && PrintRecords(rs) == b {
      LeadingIsLongest(c, keys, log, s, b, rs);
    }
  }

  lemma StartsWithDataIff(c: Crypto, keys: Keys, log: Log, s: nat, b: Bytes)
    requires s <= |log|
    ensures StartsWithData(c, keys, log, s, b) <==> Slice(log, s, s + Leading(c, keys, log, s, b)) != []
  {
    hide Carries, Leading, Beyond, Slice;
    var mid := s + Leading(c, keys, log, s, b);
    if Slice(log, s, mid) != [] {
      var lead := LeadingCarries(c, keys, log, s, b);
      assert DataStretch(c, keys, log, s, b, lead);
    }
    if StartsWithData(c, keys, log, s, b) {
      var rs :| DataStretch(c, keys, log, s, b, rs);
      StretchLeads(c, keys, log, s, b, rs);
    }
  }

  /** A call succeeds exactly when the buffer is whole records that carry the peer's next application data. */
  lemma CallAcceptedIff(c: Crypto, keys: Keys, log: Log, s: word64, b: Bytes)
    requires Guarded(c, keys, log) && s <= |log|
    ensures UnwrapWalk(c, keys, s, [], b).ok <==> IsNextData(c, keys, log, s, b)
  {
    hide Guarded, IsNextData, Leading, Beyond, UnwrapWalk;
    WalkEnds(c, keys, log, s, [], b);
    IsNextDataIff(c, keys, log, s, b);
  }

  /** How much application data a call authenticates and then throws away. */
  function LostIn(log: Log, s: nat, u: Unwrapped): nat
    requires s <= u.decrSeq <= |log|
  {
    if u.ok then 0 else |Slice(log, s, u.decrSeq)|
  }

  /**
   * A call loses application data exactly when the buffer starts with records
   * that carry some of the peer's next data but does not consist of such
   * records. It then loses the data of all the leading ones.
   */
  lemma CallLosesIff(c: Crypto, keys: Keys, log: Log, s: word64, b: Bytes)
    requires Guarded(c, keys, log) && s <= |log|
    ensures var u := UnwrapWalk(c, keys, s, [], b); var mid := s + Leading(c, keys, log, s, b);
            && s <= u.decrSeq <= |log|
            && (LostIn(log, s, u) > 0 <==> StartsWithData(c, keys, log, s, b) && !IsNextData(c, keys, log, s, b))
            && LostIn(log, s, u) == (if IsNextData(c, keys, log, s, b) then 0 else |Slice(log, s, mid)|)
  {
    hide Guarded, IsNextData, StartsWithData, Leading, Beyond, EndOf, UnwrapWalk, Slice;
    WalkEnds(c, keys, log, s, [], b);
    IsNextDataIff(c, keys, log, s, b);
    StartsWithDataIff(c, keys, log, s, b);
    AlertLosesNothing(c, keys, log, s, b);
  }

  /** The record that ends a failing call, if it opened at all, carries no application data. */
  lemma AlertLosesNothing(c: Crypto, keys: Keys, log: Log, s: nat, b: Bytes)
    requires s <= |log|
    ensures var mid := s + Leading(c, keys, log, s, b);
            Slice(log, s, EndOf(c, keys, log, s, b)) == Slice(log, s, mid)
  {
    hide LoggedFrag;
    var mid := s + Leading(c, keys, log, s, b);
    if CarriesNext(c, keys, log, mid, Beyond(c, keys, log, s, b)) {
      NoMoreLeading(c, keys, log, s, b);
      SliceSplits(log, s, mid, mid + 1);
      assert Slice(log, mid, mid + 1) == [] + Slice(log, mid + 1, mid + 1);
    }
  }

  lemma {:induction false} NoMoreLeading(c: Crypto, keys: Keys, log: Log, s: nat, b: Bytes)
    requires s <= |log|
    ensures !CarriesNextData(c, keys, log, s + Leading(c, keys, log, s, b), Beyond(c, keys, log, s, b))
    decreases |b|
  {
    hide LoggedFrag;
    if CarriesNextData(c, keys, log, s, b) {
      NoMoreLeading(c, keys, log, s + 1, AfterFirst(b));
    }
  }

  // ------------------------------------------------- calls on an open channel

  /** One call of a run: the receive counter before and after, and the result. */
  datatype Call = Call(start: nat, end: nat, result: Option<Bytes>)

  function CallOn(c: Crypto, r: Chan, buf: Bytes): Call {
    var (result, r') := UnwrapStep(c, r, buf);
    Call(r.decrSeq, r'.decrSeq, result)
  }

  /** The calls that unwrap one buffer after the other. */
  function Calls(c: Crypto, r: Chan, bufs: seq<Bytes>): (calls: seq<Call>)
    ensures |calls| == |bufs|
    decreases |bufs|
  {
    if bufs == [] then [] else [CallOn(c, r, bufs[0])] + Calls(c, UnwrapStep(c, r, bufs[0]).1, bufs[1..])
  }

  /**
   * A safe run from record `start` of the peer's stream to record `end`: each
   * call begins where the one before ended, never goes back, and if it
   * succeeds returns precisely the data of the records in between.
   */
  ghost predicate SafeRun(log: Log, start: nat, calls: seq<Call>, end: nat)
    decreases |calls|
  {
    if calls == [] then start == end
    else
      && calls[0].start == start <= calls[0].end <= |log|
      && (calls[0].result.Some? ==> calls[0].result.value == Slice(log, start, calls[0].end)
                                    && OnlyAppData(log, start, calls[0].end))
      && SafeRun(log, calls[0].end, calls[1..], end)
  }

  lemma CallIsSafe(c: Crypto, r: Chan, log: Log, buf: Bytes)
    requires r.established && Guarded(c, r.keys, log) && r.decrSeq <= |log|
    ensures var (result, r') := UnwrapStep(c, r, buf);
            && r' == r.(decrSeq := EndOf(c, r.keys, log, r.decrSeq, buf))
            && r.decrSeq <= r'.decrSeq <= |log|
            && (result.Some? <==> Beyond(c, r.keys, log, r.decrSeq, buf) == [])
            && (result.Some? ==> result.value == Slice(log, r.decrSeq, r'.decrSeq)
                                 && OnlyAppData(log, r.decrSeq, r'.decrSeq))
  {
    hide Guarded, LoggedFrag, OnlyAppData, Leading, Beyond, UnwrapWalk, Slice;
    WalkEnds(c, r.keys, log, r.decrSeq, [], buf);
    var mid := r.decrSeq + Leading(c, r.keys, log, r.decrSeq, buf);
    assert [] + Slice(log, r.decrSeq, mid) == Slice(log, r.decrSeq, mid);
  }

  /** Any buffers in any order: every call that succeeds returns the peer's next data. */
  lemma {:induction false} RunIsSafe(c: Crypto, r: Chan, log: Log, bufs: seq<Bytes>)
    requires r.established && Guarded(c, r.keys, log) && r.decrSeq <= |log|
    ensures SafeRun(log, r.decrSeq, Calls(c, r, bufs), UnwrapEach(c, r, bufs).1.decrSeq)
    ensures UnwrapEach(c, r, bufs).1 == r.(decrSeq := UnwrapEach(c, r, bufs).1.decrSeq)
    decreases |bufs|
  {
    hide Guarded, UnwrapStep;
    if bufs != [] {
      var r1 := UnwrapStep(c, r, bufs[0]).1;
      CallIsSafe(c, r, log, bufs[0]);
      RunIsSafe(c, r1, log, bufs[1..]);
      assert Calls(c, r, bufs)[1..] == Calls(c, r1, bufs[1..]);
    }
  }

  /** What a run delivers: the data of the calls that succeeded. */
  function DeliveredBy(calls: seq<Call>): Bytes {
    if calls == [] then []
    else (if calls[0].result.Some? then calls[0].result.value else []) + DeliveredBy(calls[1..])
  }

  /** What a run loses: application data that was authenticated in calls that failed later on. */
  function LostBy(log: Log, calls: seq<Call>): nat
    decreases |calls|
  {
    if calls == [] then 0
    else (if calls[0].result.None? && calls[0].start <= calls[0].end <= |log|
          then |Slice(log, calls[0].start, calls[0].end)| else 0)
         + LostBy(log, calls[1..])
  }

  /** Every authenticated byte of application data is either delivered, in order, or lost to a failing call. */
  lemma {:induction false} DeliveryAccount(log: Log, start: nat, calls: seq<Call>, end: nat)
    requires SafeRun(log, start, calls, end) && start <= |log|
    ensures start <= end <= |log|
    ensures |DeliveredBy(calls)| + LostBy(log, calls) == |Slice(log, start, end)|
    ensures LostBy(log, calls) == 0 ==> DeliveredBy(calls) == Slice(log, start, end)
    decreases |calls|
  {
    if calls != [] {
      var mid := calls[0].end;
      DeliveryAccount(log, mid, calls[1..], end);
      SliceSplits(log, start, mid, end);
      if calls[0].result.None? && LostBy(log, calls) == 0 {
        assert Slice(log, start, mid) == [];
      }
    }
  }

  /** The buffer is whole records that carry the peer's next data, or the ones it starts with carry no data at all. */
  predicate Harmless(c: Crypto, keys: Keys, log: Log, s: nat, b: Bytes)
    requires s <= |log|
  {
    Beyond(c, keys, log, s, b) == [] || Slice(log, s, s + Leading(c, keys, log, s, b)) == []
  }

  predicate AllHarmless(c: Crypto, keys: Keys, log: Log, s: nat, bufs: seq<Bytes>)
    requires s <= |log|
    decreases |bufs|
  {
    bufs == []
    || (Harmless(c, keys, log, s, bufs[0])
        && AllHarmless(c, keys, log, EndOf(c, keys, log, s, bufs[0]), bufs[1..]))
  }

  lemma {:induction false} LossIsHarm(c: Crypto, r: Chan, log: Log, bufs: seq<Bytes>)
    requires r.established && Guarded(c, r.keys, log) && r.decrSeq <= |log|
    ensures LostBy(log, Calls(c, r, bufs)) == 0 <==> AllHarmless(c, r.keys, log, r.decrSeq, bufs)
    decreases |bufs|
  {
    hide Guarded, UnwrapStep, Leading, Beyond, EndOf, Slice, OnlyAppData;
    if bufs != [] {
      var r1 := UnwrapStep(c, r, bufs[0]).1;
      CallIsSafe(c, r, log, bufs[0]);
      AlertLosesNothing(c, r.keys, log, r.decrSeq, bufs[0]);
      LossIsHarm(c, r1, log, bufs[1..]);
      assert Calls(c, r, bufs)[1..] == Calls(c, r1, bufs[1..]);
    }
  }

  /**
   * A run delivers the peer's data without a gap exactly when every buffer was
   * harmless where its turn came: a condition on the buffers, the peer's log
   * and the place to start from alone.
   */
  lemma CompleteIffHarmless(c: Crypto, r: Chan, log: Log, bufs: seq<Bytes>)
    requires r.established && Guarded(c, r.keys, log) && r.decrSeq <= |log|
    ensures var end := UnwrapEach(c, r, bufs).1.decrSeq;
            && r.decrSeq <= end <= |log|
            && (DeliveredBy(Calls(c, r, bufs)) == Slice(log, r.decrSeq, end)
                <==> AllHarmless(c, r.keys, log, r.decrSeq, bufs))
  {
    hide Guarded;
    RunIsSafe(c, r, log, bufs);
    DeliveryAccount(log, r.decrSeq, Calls(c, r, bufs), UnwrapEach(c, r, bufs).1.decrSeq);
    LossIsHarm(c, r, log, bufs);
  }

  // -------------------------------------------- whole runs, from a new channel

  /** The buffers that were unwrapped while the channel was established. */
  function OpenBufs(c: Crypto, io: Io, ops: seq<Op>, n: nat): seq<Bytes>
    requires Lengths(c) && n <= |ops|
  {
    if n == 0 then []
    else OpenBufs(c, io, ops, n - 1) +
         if ops[n - 1].OpUnwrap? && After(c, io, ops, n - 1).established then [ops[n - 1].buf] else []
  }

  /** The calls that the run made of these. */
  function OpenCalls(c: Crypto, io: Io, ops: seq<Op>, n: nat): seq<Call>
    requires Lengths(c) && n <= |ops|
  {
    if n == 0 then []
    else
      var s := After(c, io, ops, n - 1);
      OpenCalls(c, io, ops, n - 1) +
      if ops[n - 1].OpUnwrap? && s.established then [CallOn(c, s, ops[n - 1].buf)] else []
  }

  lemma {:induction false} OneMoreCall(c: Crypto, r: Chan, bufs: seq<Bytes>, buf: Bytes)
    ensures var r' := UnwrapEach(c, r, bufs).1;
            && Calls(c, r, bufs + [buf]) == Calls(c, r, bufs) + [CallOn(c, r', buf)]
            && UnwrapEach(c, r, bufs + [buf]).1 == UnwrapStep(c, r', buf).1
    decreases |bufs|
  {
    hide UnwrapStep;
    if bufs == [] {
      assert [] + [buf] == [buf] && [buf][1..] == [];
    } else {
      OneMoreCall(c, UnwrapStep(c, r, bufs[0]).1, bufs[1..], buf);
      assert (bufs + [buf])[0] == bufs[0] && (bufs + [buf])[1..] == bufs[1..] + [buf];
    }
  }

  /** An unwrap depends on, and leaves alone, only so much. */
  lemma UnwrapReads(c: Crypto, s: Chan, r: Chan, buf: Bytes)
    requires s.established == r.established && s.keys == r.keys && s.decrSeq == r.decrSeq
    ensures CallOn(c, s, buf) == CallOn(c, r, buf)
    ensures UnwrapStep(c, s, buf).1.decrSeq == UnwrapStep(c, r, buf).1.decrSeq
  {
  }

  lemma {:induction false} UnwrapEachKeeps(c: Crypto, r: Chan, bufs: seq<Bytes>)
    ensures var r' := UnwrapEach(c, r, bufs).1; r'.keys == r.keys && r'.established == r.established
    decreases |bufs|
  {
    if bufs != [] {
      UnwrapEachKeeps(c, UnwrapStep(c, r, bufs[0]).1, bufs[1..]);
    }
  }

  lemma {:induction false} NothingOpenBefore(c: Crypto, io: Io, ops: seq<Op>, n: nat)
    requires Lengths(c) && n <= |ops| && NoHandshake(ops, 0, n)
    ensures OpenBufs(c, io, ops, n) == [] && OpenCalls(c, io, ops, n) == []
  {
    hide After;
    if n > 0 {
      NothingOpenBefore(c, io, ops, n - 1);
      UntouchedBefore(c, io, ops, n - 1);
    }
  }

  /** What an operation other than a handshake does to the receiving side. */
  lemma DoReceives(c: Crypto, io: Io, s: Chan, op: Op)
    requires Lengths(c) && !op.OpHandshake?
    ensures var s' := Do(c, io, s, op);
            && s'.keys == s.keys && (s'.established <==> s.established && !op.OpClose?)
            && s'.decrSeq == (if op.OpUnwrap? then UnwrapStep(c, s, op.buf).1.decrSeq else s.decrSeq)
            && (op.OpUnwrap? && !s.established ==> s' == s)
  {
    hide GcmWrap, WriteRecord, UnwrapWalk;
  }

  /**
   * After the handshake, the unwraps made while the channel is open are those of
   * a channel that does nothing else: wraps and the close do not disturb them.
   */
  lemma {:induction false} OpenCallsAreCalls(c: Crypto, io: Io, ops: seq<Op>, h: nat, n: nat)
    requires Lengths(c) && h < n <= |ops| && SucceedsAt(c, io, ops, h)
    requires NoHandshake(ops, 0, h) && NoHandshake(ops, h + 1, n)
    ensures var made, now, bufs := After(c, io, ops, h + 1), After(c, io, ops, n), OpenBufs(c, io, ops, n);
            && now.keys == made.keys && (now.established ==> made.established)
            && OpenCalls(c, io, ops, n) == Calls(c, made, bufs)
            && now.decrSeq == UnwrapEach(c, made, bufs).1.decrSeq
    decreases n
  {
    assert ops[h].OpHandshake?;
    hide After, Do, UnwrapStep, SucceedsAt, CallOn, OpenBufs, OpenCalls, UnwrapEach;
    OneMoreOpen(c, io, ops, n);
    if n == h + 1 {
      NothingOpenBefore(c, io, ops, h);
      NoCalls(c, After(c, io, ops, n));
    } else {
      OpenCallsAreCalls(c, io, ops, h, n - 1);
      var made, s, bufs := After(c, io, ops, h + 1), After(c, io, ops, n - 1), OpenBufs(c, io, ops, n - 1);
      OneAfter(c, io, ops, n);
      DoReceives(c, io, s, ops[n - 1]);
      UnwrapEachKeeps(c, made, bufs);
      if ops[n - 1].OpUnwrap? && s.established {
        UnwrapReads(c, s, UnwrapEach(c, made, bufs).1, ops[n - 1].buf);
        OneMoreCall(c, made, bufs, ops[n - 1].buf);
      }
    }
  }

  lemma NoCalls(c: Crypto, r: Chan)
    ensures Calls(c, r, []) == [] && UnwrapEach(c, r, []).1 == r
  {
  }

  lemma OneMoreOpen(c: Crypto, io: Io, ops: seq<Op>, n: nat)
    requires Lengths(c) && 0 < n <= |ops|
    ensures var s := After(c, io, ops, n - 1);
      if ops[n - 1].OpUnwrap? && s.established then
        && OpenBufs(c, io, ops, n) == OpenBufs(c, io, ops, n - 1) + [ops[n - 1].buf]
        && OpenCalls(c, io, ops, n) == OpenCalls(c, io, ops, n - 1) + [CallOn(c, s, ops[n - 1].buf)]
      else
        && OpenBufs(c, io, ops, n) == OpenBufs(c, io, ops, n - 1)
        && OpenCalls(c, io, ops, n) == OpenCalls(c, io, ops, n - 1)
  {
    hide After, CallOn;
  }

  lemma OneAfter(c: Crypto, io: Io, ops: seq<Op>, n: nat)
    requires Lengths(c) && 0 < n <= |ops|
    ensures After(c, io, ops, n) == Do(c, io, After(c, io, ops, n - 1), ops[n - 1])
  {
    hide Do;
  }

  /** The server's proof that it knows the master secret and saw this transcript. */
  predicate IsFinished(c: Crypto, s: Chan, plain: Bytes) {
    && |plain| == 16 && plain[0] == 0x14
    && plain[4..] == PHash(c.hmac, s.master, Ascii("server finished") + s.verifyDigest, 12)
  }

  /** The first `n` entries of the peer's log are its Finished messages. */
  ghost predicate StartsFinished(c: Crypto, s: Chan, log: Log, n: nat) {
    n <= |log| && forall i :: 0 <= i < n ==> log[i].ct == HANDSHAKE && IsFinished(c, s, log[i].plain)
  }

  /** Each encrypted record that the handshake accepted is the next entry of the peer's log. */
  lemma {:induction false} HandshakeReadsLog(c: Crypto, s: Chan, log: Log, rs: seq<Record>, n: nat)
    requires Guarded(c, s.keys, log) && ServerFlight(c, s, 0, false, rs) && n <= |rs|
    ensures StartsFinished(c, s, log, Encrypted(rs, n))
  {
    hide Guarded, GcmUnwrap, LoggedFrag, PHash, Unprotect;
    if n > 0 {
      HandshakeReadsLog(c, s, log, rs, n - 1);
      var k := Encrypted(rs, n - 1);
      assert ServerRecordOk(c, s, 0, false, rs, n - 1);
      if rs[n - 1].ct == HANDSHAKE {
        OpensNext(c, s.keys, log, k, HANDSHAKE, rs[n - 1].frag);
        UnprotectsAsTls(c, s.keys.decrKey, s.keys.decrIv, k, HANDSHAKE, rs[n - 1].frag);
        assert Advance(0, k) == k;
      }
    }
  }

  lemma {:induction false} SomeEncrypted(rs: seq<Record>, n: nat, i: nat)
    requires i < n <= |rs| && rs[i].ct == HANDSHAKE
    ensures Encrypted(rs, n) > 0
  {
    if i < n - 1 {
      SomeEncrypted(rs, n - 1, i);
    }
  }

  /**
   * Safety over every run of a new channel with one handshake, whatever else is
   * done with it. The peer's log starts with its Finished, and the handshake
   * read precisely those. Each unwrap made while the channel is open goes on
   * where the one before ended and, if it succeeds, returns precisely the
   * peer's next data. What is received is complete exactly if every buffer was
   * harmless. If the handshake failed there is no such unwrap.
   */
  lemma ChannelIsSafe(c: Crypto, io: Io, ops: seq<Op>, h: nat, n: nat, log: Log)
    requires Lengths(c) && h < n <= |ops| && ops[h].OpHandshake?
    requires NoHandshake(ops, 0, h) && NoHandshake(ops, h + 1, n)
    requires Guarded(c, After(c, io, ops, h + 1).keys, log)
    ensures var made, now, calls := After(c, io, ops, h + 1), After(c, io, ops, n), OpenCalls(c, io, ops, n);
      if !SucceedsAt(c, io, ops, h) then calls == []
      else
        && 0 < made.decrSeq <= now.decrSeq <= |log|
        && StartsFinished(c, made, log, made.decrSeq)
        && SafeRun(log, made.decrSeq, calls, now.decrSeq)
        && (DeliveredBy(calls) == Slice(log, made.decrSeq, now.decrSeq)
            <==> AllHarmless(c, made.keys, log, made.decrSeq, OpenBufs(c, io, ops, n)))
  {
    hide After, Guarded, UnwrapStep, SafeRun, AllHarmless, SucceedsAt;
    var made := After(c, io, ops, h + 1);
    if SucceedsAt(c, io, ops, h) {
      MadeReadsFinished(c, io, ops, h, log);
      OpenCallsAreCalls(c, io, ops, h, n);
      RunIsSafe(c, made, log, OpenBufs(c, io, ops, n));
      CompleteIffHarmless(c, made, log, OpenBufs(c, io, ops, n));
    } else {
      NeverOpen(c, io, ops, h, n);
    }
  }

  lemma MadeReadsFinished(c: Crypto, io: Io, ops: seq<Op>, h: nat, log: Log)
    requires Lengths(c) && h < |ops| && SucceedsAt(c, io, ops, h)
    requires Guarded(c, After(c, io, ops, h + 1).keys, log)
    ensures var made := After(c, io, ops, h + 1);
            made.established && 0 < made.decrSeq <= |log| && StartsFinished(c, made, log, made.decrSeq)
  {
    hide Guarded, StartsFinished, ServerFlight, HandshakeStep, Justified, Encrypted, After;
    var before, made := After(c, io, ops, h), After(c, io, ops, h + 1);
    AfterHandshake(c, io, ops, h);
    HandshakeSound(c, io, before, ops[h].d);
    JustifiedReads(c, io, before, ops[h].d, made);
    var rs := SplitRecords(io(made.sent).value).value;
    HandshakeReadsLog(c, made, log, rs, |rs|);
    FinishedFit(c, made, log, Encrypted(rs, |rs|));
    var i :| 0 <= i < |rs| && rs[i].ct == HANDSHAKE;
    SomeEncrypted(rs, |rs|, i);
  }

  /** What a justified handshake says about the second reply. */
  lemma JustifiedReads(c: Crypto, io: Io, s: Chan, d: Draws, s': Chan)
    requires Lengths(c) && Justified(c, io, s, d, s')
    ensures s'.established && io(s'.sent).Some? && SplitRecords(io(s'.sent).value).Some?
    ensures var rs := SplitRecords(io(s'.sent).value).value;
            Has(rs, HANDSHAKE) && ServerFlight(c, s', 0, false, rs) && s'.decrSeq == Advance(0, Encrypted(rs, |rs|))
  {
    hide Agreed, ServerFlight, Has;
    var f :| JustifiedBy(c, io, s, d, f, s');
    assert Agreed(c, io, s, d, f);
    PairedIfAgreed(c, io, s, d, f);
    var made := Keyed(c, s, d, s.pairing.value, f);
    var rs := SplitRecords(io(made.sent).value).value;
    ServerFlightReads(c, made, s', 0, rs);
  }

  lemma PairedIfAgreed(c: Crypto, io: Io, s: Chan, d: Draws, f: Facts)
    requires Agreed(c, io, s, d, f)
    ensures s.pairing.Some?
  {
  }

  lemma FinishedFit(c: Crypto, s: Chan, log: Log, n: nat)
    requires StartsFinished(c, s, log, n)
    ensures n <= |log|
  {
  }

  lemma {:induction false} NeverOpen(c: Crypto, io: Io, ops: seq<Op>, h: nat, n: nat)
    requires Lengths(c) && h < n <= |ops| && ops[h].OpHandshake? && !SucceedsAt(c, io, ops, h)
    requires NoHandshake(ops, 0, h) && NoHandshake(ops, h + 1, n)
    ensures OpenCalls(c, io, ops, n) == [] && !After(c, io, ops, n).established
    decreases n
  {
    hide After, HandshakeStep, Do;
    OneAfter(c, io, ops, n);
    DoVerdict(c, io, After(c, io, ops, n - 1), ops[n - 1]);
    if n == h + 1 {
      UntouchedBefore(c, io, ops, h);
      NothingOpenBefore(c, io, ops, h);
    } else {
      NeverOpen(c, io, ops, h, n - 1);
    }
  }

  /** While the channel is not open, before the handshake and after a close, unwrap returns its input. */
  lemma ClosedPassesThrough(c: Crypto, io: Io, ops: seq<Op>, n: nat, buf: Bytes)
    requires Lengths(c) && n <= |ops| && !OpenAt(c, io, ops, n)
    ensures UnwrapStep(c, After(c, io, ops, n), buf) == (Some(buf), After(c, io, ops, n))
  {
    hide After, OpenAt;
    EstablishedIff(c, io, ops, n);
  }

  /** What the primitives other than `open` decide about the second request. */
  lemma SameRequest(c: Crypto, t: Crypto, s: Chan, d: Draws)
    requires Lengths(c) && Lengths(t) && s.pairing.Some? && c == t.(open := c.open)
    ensures Rt2Request(c, s, d) == Rt2Request(t, s, d)
  {
    hide Certificate, KeyExchange, CertVerify, WriteRecord;
  }

  lemma GuardedToyLengths(keys: Keys, log: Log)
    ensures Lengths(GuardedToy(keys, log)) && GuardedToy(keys, log) == Toy().(open := GuardedToy(keys, log).open)
  {
    LawsHaveAModel();
    assert Sized(GuardedToy(keys, log).hmac, 48);
  }

  lemma SameFinished(c: Crypto, t: Crypto, s: Chan)
    requires c.hmac == t.hmac
    ensures FinishedMsg(c, s.master, "server finished", s.verifyDigest)
         == FinishedMsg(t, s.master, "server finished", s.verifyDigest)
  {
    hide PHash, PrintMsg;
  }

  /** The peer's first record opens as what the log says. */
  lemma FirstEntryOpens(c: Crypto, s: Chan, nonce: Bytes8, log: Log)
    requires Lengths(c) && Guarded(c, s.keys, log) && log != []
    requires log[0] == Sealed(HANDSHAKE, nonce, FinishedMsg(c, s.master, "server finished", s.verifyDigest))
    ensures |FinishedOnWire(c, s, nonce)| < U16
    ensures GcmUnwrap(c, s.keys.decrKey, s.keys.decrIv, 0, HANDSHAKE, FinishedOnWire(c, s, nonce)) == Some(log[0].plain)
  {
    FinishedShape(c, s.master, "server finished", s.verifyDigest);
    OpensNext(c, s.keys, log, 0, HANDSHAKE, FinishedOnWire(c, s, nonce));
  }

  lemma PairThenShake(c: Crypto, io: Io, ops: seq<Op>, p: Pairing, d: Draws)
    requires Lengths(c) && |ops| >= 2 && ops[0] == OpPair(p) && ops[1] == OpHandshake(d)
    ensures var s0 := Fresh().(pairing := Some(p));
            && (SucceedsAt(c, io, ops, 1) <==> HandshakeStep(c, io, s0, d).0)
            && After(c, io, ops, 2) == HandshakeStep(c, io, s0, d).1
  {
    hide HandshakeStep;
    assert After(c, io, ops, 0) == Fresh();
    assert After(c, io, ops, 1) == Do(c, io, Fresh(), ops[0]);
  }

  lemma ShakeSteps(c: Crypto, io: Io, s: Chan, d: Draws, flight: Bytes, reply: Bytes, s2: Chan, out: Bytes, s3: Chan)
    requires Lengths(c) && s.pairing.Some? && s2.pairing.Some?
    requires var s1 := SendStep(HelloStep(s, d), FirstRequest(d));
             io(s1.sent) == Some(flight) && Rt1Step(s1, flight) == (true, s2)
    requires Rt2Request(c, s2, d) == (Some(out), s3) && io(SendStep(s3, out).sent) == Some(reply)
    ensures HandshakeStep(c, io, s, d) == Rt2Step(c, SendStep(s3, out), reply)
  {
    hide Lengths, Rt1Step, Rt2Step, Rt2Request, FirstRequest, ClientHello, WriteRecord;
    HelloAsTls(d);
  }

  /** An honest sensor answers the first request, and the client is ready to send the second. */
  lemma FirstHalf(random: Bytes32, d: Draws) returns (s2: Chan, out: Bytes, s3: Chan)
    ensures var s1 := SendStep(HelloStep(NewWith(SomePairing()), d), FirstRequest(d));
            && Rt1Step(s1, PrintRecords(SomeServer(random).flight)) == (true, s2) && s2.pairing.Some?
            && |s1.sent| == 1
    ensures Lengths(Toy()) && Rt2Request(Toy(), s2, d) == (Some(out), s3)
    ensures |s3.sent| == 1 && s3.decrSeq == 0 && |s3.keys.decrIv| == 4
  {
    hide Honest, Rt1Step, Rt2Request, Lengths, Toy, CanAnswer, Signed, Heard, FirstRequest, ClientHello, WriteRecord;
    hide SecondRequest, MasterFrom, Transcript, ClientFinished, AuthBytes;
    var srv, p := SomeServer(random), SomePairing();
    HonestIsPossible(random, d);
    LawfulParts(Toy());
    var f := MeetsSensor(Toy(), srv, p, d);
    var s0 := NewWith(p);
    HelloAsTls(d);
    var s1 := SendStep(HelloStep(s0, d), FirstRequest(d));
    FlightAccepted(Toy(), srv, p, s1);
    s2 := Greeted(s0, d, f.stream, f.random);
    SecondHalfMakes(Toy(), s0, d, p, f);
    s3 := Rt2Request(Toy(), s2, d).1;
    out := Rt2Request(Toy(), s2, d).0.value;
    assert SendStep(s3, out) == Keyed(Toy(), s0, d, p, f);
    assert SendStep(s3, out).sent == s3.sent + [out] == [] + [FirstRequest(d), SecondRequest(Toy(), s0, d, p, f)];
    assert |s3.sent + [out]| == |s3.sent| + 1;
    KeysHaveSalts(Toy(), d, f);
  }

  lemma KeysHaveSalts(c: Crypto, d: Draws, f: Facts)
    requires Lengths(c)
    ensures |KeysFor(c, d, f).decrIv| == 4
  {
  }

  lemma LawfulParts(c: Crypto)
    requires Lawful(c)
    ensures Lengths(c) && EcdhAgrees(c)
  {
  }

  /**
   * The theorem on whole runs is not empty: for whatever the peer seals after
   * its Finished there are primitives under which a handshake succeeds and only
   * what the peer sealed opens. Any operations may follow.
   */
  lemma SafeRunsExist(random: Bytes32, d: Draws, nonce: Bytes8, later: seq<Sealed>, more: seq<Op>)
      returns (c: Crypto, io: Io, ops: seq<Op>, log: Log)
    requires |later| < U64 - 1
    ensures Lengths(c) && ops == [OpPair(SomePairing()), OpHandshake(d)] + more && log != [] && log[1..] == later
    ensures SucceedsAt(c, io, ops, 1) && Guarded(c, After(c, io, ops, 2).keys, log)
  {
    hide Guarded, GuardedToy, Rt1Step, Rt2Step, Rt2Request, Lengths, Toy, HandshakeStep, After, SucceedsAt;
    var p := SomePairing();
    var s2, out, s3 := FirstHalf(random, d);
    log := [Sealed(HANDSHAKE, nonce, FinishedMsg(Toy(), s3.master, "server finished", s3.verifyDigest))] + later;
    c := GuardedToy(s3.keys, log);
    GuardedToyLengths(s3.keys, log);
    GuardedIsPossible(s3.keys, log);
    SameRequest(c, Toy(), s2, d);
    SameFinished(c, Toy(), s3);
    FirstEntryOpens(c, s3, nonce, log);
    var flight := PrintRecords(SomeServer(random).flight);
    var reply := ServerReply(c, s3.keys, s3.master, s3.verifyDigest, nonce);
    io := h => if |h| == 1 then Some(flight) else Some(reply);
    ops := [OpPair(p), OpHandshake(d)] + more;
    ShakeSteps(c, io, Fresh().(pairing := Some(p)), d, flight, reply, s2, out, s3);
    ReplyAccepted(c, SendStep(s3, out), nonce);
    PairThenShake(c, io, ops, p, d);
  }

  // ------------------------------------------------------------- long messages

  /** The peer's log after one more application message. */
  function Logged(log: Log, m: Message): Log
    requires |log| + 1 < U64
  {
    log + [Sealed(APPDATA, m.nonce, m.plain)]
  }

  /** A message crosses exactly when it has at most 65511 bytes: beyond, the record length is cut to 16 bits. */
  lemma MessageCrossesIff(c: Crypto, s: Chan, r: Chan, log: Log, m: Message)
    requires Mirrored(s, r) && |log| == s.encrSeq && |log| + 1 < U64 && Guarded(c, r.keys, Logged(log, m))
    ensures UnwrapStep(c, r, WrapStep(c, s, m.nonce, m.plain).0).0 == Some(m.plain) <==> |m.plain| <= MAX_PLAIN
  {
    var log' := Logged(log, m);
    var frag := GcmWrap(c, s.keys.encrKey, s.keys.encrIv, s.encrSeq, APPDATA, m.nonce, m.plain);
    var b := WriteRecord(APPDATA, frag);
    assert frag == LoggedFrag(c, r.keys, log', |log|);
    assert |frag| == |m.plain| + 24;
    WriteIsPrint(APPDATA, frag);
    if |m.plain| <= MAX_PLAIN {
      FirstOfPrinted(Record(APPDATA, 3, 3, frag), []);
      assert b + [] == b;
      OpensExactlyNext(c, r.keys, log', r.decrSeq, APPDATA, frag);
      assert UnwrapWalk(c, r.keys, r.decrSeq, [], b) == UnwrapWalk(c, r.keys, Next64(r.decrSeq), [] + m.plain, []);
      assert [] + m.plain == m.plain;
    } else {
      assert StartsWhole(b) && FirstRecord(b).frag != frag;
      OpensExactlyNext(c, r.keys, log', r.decrSeq, FirstRecord(b).ct, FirstRecord(b).frag);
    }
  }
}
