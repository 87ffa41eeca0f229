/** The record layer between honest ends: whatever the grouping, the stream arrives. */
module Delivery {
  import opened ByteStrings
  import opened TlsCrypto
  import opened Records
  import opened Channel

  // -------------------------------------------------- delivery between two ends

  datatype Message = Message(nonce: Bytes8, plain: Bytes)

  /** The largest plaintext whose record length still fits 16 bits. */
  const MAX_PLAIN: nat := 65511

  /** One end sends what the other expects. */
  ghost predicate Mirrored(s: Chan, r: Chan) {
    && s.established && r.established
    && r.keys.decrKey == s.keys.encrKey && r.keys.decrIv == s.keys.encrIv
    && r.decrSeq == s.encrSeq
  }

  /** The records for a list of messages, one after the other. */
  function WrapAll(c: Crypto, s: Chan, ms: seq<Message>): (Bytes, Chan)
    decreases |ms|
  {
    if ms == [] then ([], s)
    else
      var (first, s1) := WrapStep(c, s, ms[0].nonce, ms[0].plain);
      var (rest, s2) := WrapAll(c, s1, ms[1..]);
      (first + rest, s2)
  }

  function Plains(ms: seq<Message>): Bytes {
    if ms == [] then [] else ms[0].plain + Plains(ms[1..])
  }

  ghost predicate AllSmall(ms: seq<Message>) {
    forall i :: 0 <= i < |ms| ==> |ms[i].plain| <= MAX_PLAIN
  }

  /** A wrapped message at the front of a buffer is unwrapped first. */
  lemma UnwrapsFirst(c: Crypto, s: Chan, r: Chan, m: Message, out: Bytes, rest: Bytes)
    requires Lengths(c) && OpenUndoesSeal(c) && Mirrored(s, r) && |m.plain| <= MAX_PLAIN
    ensures UnwrapWalk(c, r.keys, r.decrSeq, out, WrapStep(c, s, m.nonce, m.plain).0 + rest)
         == UnwrapWalk(c, r.keys, Next64(r.decrSeq), out + m.plain, rest)
  {
    var frag := GcmWrap(c, s.keys.encrKey, s.keys.encrIv, s.encrSeq, APPDATA, m.nonce, m.plain);
    UnwrapUndoesWrap(c, s.keys.encrKey, s.keys.encrIv, s.encrSeq, APPDATA, m.nonce, m.plain);
    WriteIsPrint(APPDATA, frag);
    FirstOfPrinted(Record(APPDATA, 3, 3, frag), rest);
  }

  lemma {:induction false} UnwrapsAll(c: Crypto, s: Chan, r: Chan, ms: seq<Message>, out: Bytes)
    requires Lengths(c) && OpenUndoesSeal(c) && Mirrored(s, r) && AllSmall(ms)
    ensures UnwrapWalk(c, r.keys, r.decrSeq, out, WrapAll(c, s, ms).0)
         == Unwrapped(true, WrapAll(c, s, ms).1.encrSeq, out + Plains(ms))
    ensures Mirrored(WrapAll(c, s, ms).1, r.(decrSeq := WrapAll(c, s, ms).1.encrSeq))
    decreases |ms|
  {
    if ms == [] {
      assert out + [] == out;
    } else {
      var m := ms[0];
      var s1 := WrapStep(c, s, m.nonce, m.plain).1;
      UnwrapsFirst(c, s, r, m, out, WrapAll(c, s1, ms[1..]).0);
      UnwrapsAll(c, s1, r.(decrSeq := Next64(r.decrSeq)), ms[1..], out + m.plain);
      assert out + m.plain + Plains(ms[1..]) == out + Plains(ms);
    }
  }

  /** Sending in groups, one buffer for each group, and unwrapping buffer by buffer. */
  function SendGroups(c: Crypto, s: Chan, groups: seq<seq<Message>>): seq<Bytes>
    decreases |groups|
  {
    if groups == [] then []
    else
      var (buf, s') := WrapAll(c, s, groups[0]);
      [buf] + SendGroups(c, s', groups[1..])
  }

  /** The results of unwrapping one buffer after the other, and the channel afterwards. */
  function UnwrapEach(c: Crypto, r: Chan, bufs: seq<Bytes>): (seq<Option<Bytes>>, Chan)
    decreases |bufs|
  {
    if bufs == [] then ([], r)
    else
      var (first, r1) := UnwrapStep(c, r, bufs[0]);
      var (rest, r2) := UnwrapEach(c, r1, bufs[1..]);
      ([first] + rest, r2)
  }

  /** What is delivered: the data of the calls that succeeded. */
  function Delivered(results: seq<Option<Bytes>>): Bytes {
    if results == [] then []
    else (if results[0].Some? then results[0].value else []) + Delivered(results[1..])
  }

  function Flatten(groups: seq<seq<Message>>): seq<Message> {
    if groups == [] then [] else groups[0] + Flatten(groups[1..])
  }

  lemma {:induction false} PlainsSplit(a: seq<Message>, b: seq<Message>)
    ensures Plains(a + b) == Plains(a) + Plains(b)
  {
    if a == [] {
      assert a + b == b;
    } else {
      PlainsSplit(a[1..], b);
      assert (a + b)[0] == a[0] && (a + b)[1..] == a[1..] + b;
      Associates(a[0].plain, Plains(a[1..]), Plains(b));
    }
  }

  /** Whole records in any grouping: every call succeeds and the stream arrives unchanged. */
  lemma {:induction false} StreamArrives(c: Crypto, s: Chan, r: Chan, groups: seq<seq<Message>>)
    requires Lengths(c) && OpenUndoesSeal(c) && Mirrored(s, r)
    requires forall i :: 0 <= i < |groups| ==> AllSmall(groups[i])
    ensures var (results, r') := UnwrapEach(c, r, SendGroups(c, s, groups));
            && |results| == |groups|
            && (forall i :: 0 <= i < |groups| ==> results[i] == Some(Plains(groups[i])))
            && Delivered(results) == Plains(Flatten(groups))
            && r' == r.(decrSeq := WrapAll(c, s, Flatten(groups)).1.encrSeq)
    decreases |groups|
  {
    if groups != [] {
      var (buf, s1) := WrapAll(c, s, groups[0]);
      UnwrapsAll(c, s, r, groups[0], []);
      var r1 := r.(decrSeq := s1.encrSeq);
      assert [] + Plains(groups[0]) == Plains(groups[0]);
      assert UnwrapStep(c, r, buf) == (Some(Plains(groups[0])), r1);
      StreamArrives(c, s1, r1, groups[1..]);
      PlainsSplit(groups[0], Flatten(groups[1..]));
      WrapAllSplits(c, s, groups[0], Flatten(groups[1..]));
      var bufs := SendGroups(c, s, groups);
      assert bufs[0] == buf && bufs[1..] == SendGroups(c, s1, groups[1..]);
      var tail := UnwrapEach(c, r1, bufs[1..]).0;
      var results := UnwrapEach(c, r, bufs).0;
      assert results == [Some(Plains(groups[0]))] + tail && results[1..] == tail;
      forall i | 0 <= i < |groups| ensures results[i] == Some(Plains(groups[i])) {
        assert i > 0 ==> results[i] == tail[i - 1];
      }
    }
  }

  lemma {:induction false} WrapAllSplits(c: Crypto, s: Chan, a: seq<Message>, b: seq<Message>)
    ensures WrapAll(c, s, a + b).1 == WrapAll(c, WrapAll(c, s, a).1, b).1
    decreases |a|
  {
    if a == [] {
      assert a + b == b;
    } else {
      WrapAllSplits(c, WrapStep(c, s, a[0].nonce, a[0].plain).1, a[1..], b);
      assert (a + b)[1..] == a[1..] + b;
    }
  }

  /**
   * A failing call can lose data: one good record followed by a stray byte. The call
   * fails, the counter has moved on, and the record's data is gone.
   */
  lemma StrayByteLosesRecord(c: Crypto, s: Chan, r: Chan, m: Message, stray: byte)
    requires Lengths(c) && OpenUndoesSeal(c) && Mirrored(s, r) && |m.plain| <= MAX_PLAIN
    ensures UnwrapStep(c, r, WrapStep(c, s, m.nonce, m.plain).0 + [stray]) == (None, r.(decrSeq := Next64(r.decrSeq)))
  {
    UnwrapsFirst(c, s, r, m, [], [stray]);
  }
}
