/** A command end to end: wrap, write plan, read loop, unwrap; and the object list built on it. */
module MocSend {
  import opened ByteStrings
  import opened Framing
  import T = Transport
  import opened TlsCrypto
  import opened Records
  import opened Channel
  import opened Delivery

  const MIN_READ_BUDGET: nat := 512

  /** What the callback gets: the status word and the plaintext, or an error. */
  datatype MocReply = MocOk(status: word16, plain: Bytes) | MocFailed

  function ReadBudget(hint: nat): nat {
    Max(hint + 64, MIN_READ_BUDGET)
  }

  function SendStep<D>(c: Crypto, s: Chan, dev: T.Device<D>, d: D, cmd: Bytes, hint: nat, nonce: Bytes8)
    : (MocReply, Chan, D)
  {
    var (record, s1) := WrapStep(c, s, nonce, cmd);
    var run := T.CmdRun(dev, d, SentTransfers(record), ReadBudget(hint));
    if run.result.Failed? then (MocFailed, s1, run.dev)
    else
      var (plain, s2) := UnwrapStep(c, s1, run.result.bytes);
      (if plain.Some? then MocOk(StatusOf(plain.value), plain.value) else MocFailed, s2, run.dev)
  }

  method Send<D>(tls: VerimarkTls, dev: T.Device<D>, d0: D, cmd: Bytes, hint: nat, nonce: Bytes8)
      returns (r: MocReply, d: D)
    modifies tls
    ensures (r, tls.State(), d) == SendStep(tls.c, old(tls.State()), dev, d0, cmd, hint, nonce)
  {
    var record := tls.Wrap(nonce, cmd);
    var budget := Max(hint + 64, MIN_READ_BUDGET);
    var answer;
    var trace;
    answer, d, trace := T.Cmd(dev, d0, record, budget);
    if answer.Failed? {
      return MocFailed, d;
    }
    var plain := tls.Unwrap(answer.bytes);
    if plain.None? {
      return MocFailed, d;
    }
    var status: word16 := 0;
    if |plain.value| >= 2 {
      status := Le16At(plain.value, 0);
    }
    r := MocOk(status, plain.value);
  }

  // -------------------------------------------------------------- a live sensor

  /**
   * A sensor with its own end of the channel: it reassembles transfers into
   * records, opens them, computes a reply and serves it, being not ready
   * `stalls[i]` times before chunk i.
   */
  datatype Sensor = Sensor(chan: Chan, rx: Receiver, out: T.Replier, seen: seq<Bytes>, nonce: Bytes8, stalls: seq<nat>)

  /** The command complete in `record` is opened, answered, and the answer made ready. */
  function Handle(c: Crypto, app: Bytes -> Bytes, q: Sensor, record: Bytes): Sensor {
    var (cmd, chan1) := UnwrapStep(c, q.chan, record);
    match cmd
    case None => q.(chan := chan1)
    case Some(plain) =>
      var (reply, chan2) := WrapStep(c, chan1, q.nonce, app(plain));
      q.(chan := chan2, out := T.Replier(reply, q.stalls), seen := q.seen + [plain])
  }

  function Feed(c: Crypto, app: Bytes -> Bytes, q: Sensor, t: Transfer): Sensor {
    var rx := Receive(q.rx, t);
    if |rx.done| == |q.rx.done| then q.(rx := rx)
    else Handle(c, app, q.(rx := rx), rx.done[|rx.done| - 1])
  }

  function SensorDevice(c: Crypto, app: Bytes -> Bytes): T.Device<Sensor> {
    (q: Sensor, ctrl: T.Ctrl) =>
      match ctrl
      case Out(t) => (Feed(c, app, q, t), T.Data([]))
      case In(_, _) => var (out, a) := T.Serve(q.out, ctrl); (q.(out := out), a)
  }

  function FeedAll(c: Crypto, app: Bytes -> Bytes, q: Sensor, ts: seq<Transfer>): Sensor
    decreases |ts|
  {
    if ts == [] then q else FeedAll(c, app, Feed(c, app, q, ts[0]), ts[1..])
  }

  lemma {:induction false} WritesFeed(c: Crypto, app: Bytes -> Bytes, q: Sensor, ts: seq<Transfer>)
    ensures var run := T.WriteRun(SensorDevice(c, app), q, ts);
            run.result == T.Ok([]) && run.dev == FeedAll(c, app, q, ts)
    decreases |ts|
  {
    if ts != [] {
      WritesFeed(c, app, Feed(c, app, q, ts[0]), ts[1..]);
    }
  }

  lemma {:induction false} FeedAllSplits(c: Crypto, app: Bytes -> Bytes, q: Sensor, a: seq<Transfer>, b: seq<Transfer>)
    ensures FeedAll(c, app, q, a + b) == FeedAll(c, app, FeedAll(c, app, q, a), b)
    decreases |a|
  {
    hide Feed;
    if a == [] {
      assert a + b == b;
    } else {
      FeedAllSplits(c, app, Feed(c, app, q, a[0]), a[1..], b);
      assert (a + b)[1..] == a[1..] + b;
    }
  }

  /** Until the last chunk the sensor only collects. */
  lemma {:induction false} CollectsPrefix(c: Crypto, app: Bytes -> Bytes, q: Sensor, record: Bytes, k: nat)
    requires k < ChunkCount(|record|)
    ensures FeedAll(c, app, q, Transfers(record)[..k]) == q.(rx := ReceiveAll(q.rx, Transfers(record)[..k]))
    ensures ReceiveAll(q.rx, Transfers(record)[..k]).done == q.rx.done
    decreases k
  {
    if k > 0 {
      var ts := Transfers(record);
      CollectsPrefix(c, app, q, record, k - 1);
      ReceivesPrefix(q.rx, record, k - 1);
      ReceivesPrefix(q.rx, record, k);
      assert ts[..k] == ts[..k - 1] + [ts[k - 1]];
      FeedAllSplits(c, app, q, ts[..k - 1], [ts[k - 1]]);
      ReceiveAllSplits(q.rx, ts[..k - 1], [ts[k - 1]]);
      OneMore(c, app, FeedAll(c, app, q, ts[..k - 1]), ts[k - 1]);
    }
  }

  lemma OneMore(c: Crypto, app: Bytes -> Bytes, q: Sensor, t: Transfer)
    ensures FeedAll(c, app, q, [t]) == Feed(c, app, q, t)
    ensures ReceiveAll(q.rx, [t]) == Receive(q.rx, t)
  {
    assert [t][1..] == [];
  }

  /** All chunks of a record that fits the plan: the sensor handles exactly that record. */
  lemma SensorGets(c: Crypto, app: Bytes -> Bytes, q: Sensor, record: Bytes)
    requires |record| <= CHUNKS_MAX * MAX_CHUNK
    ensures FeedAll(c, app, q, SentTransfers(record))
         == Handle(c, app, q.(rx := Receiver([], q.rx.done + [record])), record)
  {
    hide Handle;
    SentIsCompleteIff(record);
    var ts := Transfers(record);
    var k := ChunkCount(|record|) - 1;
    CollectsPrefix(c, app, q, record, k);
    ReceivesCommand(q.rx, record);
    assert ts == ts[..k] + [ts[k]];
    FeedAllSplits(c, app, q, ts[..k], [ts[k]]);
    ReceiveAllSplits(q.rx, ts[..k], [ts[k]]);
    OneMore(c, app, FeedAll(c, app, q, ts[..k]), ts[k]);
  }

  /** Reading from the sensor is reading from its replier. */
  lemma {:induction false} SensorServes(c: Crypto, app: Bytes -> Bytes, q: Sensor, budget: nat, rmax: nat,
        acc: Bytes, first: bool, retries: nat)
    requires retries <= budget
    ensures var run := T.ReadFrom(SensorDevice(c, app), budget, q, rmax, acc, first, retries);
            var plain := T.ReadFrom(T.Serve, budget, q.out, rmax, acc, first, retries);
            run.result == plain.result && run.dev == q.(out := plain.dev)
    decreases rmax - |acc|, budget - retries
  {
    if |acc| < rmax {
      var (want, wvalue) := NextRead(rmax - |acc|, first);
      var (out, a) := T.Serve(q.out, T.In(wvalue, want));
      if a.TimedOut? {
        if retries < budget {
          SensorServes(c, app, q.(out := out), budget, rmax, acc, first, retries + 1);
        }
      } else {
        var got := T.Clip(a.bytes, want);
        if |got| == want {
          SensorServes(c, app, q.(out := out), budget, rmax, acc + got, false, 0);
        }
      }
    }
  }

  // ----------------------------------------------------------------- end to end

  /** Both ends are established and each expects what the other sends next. */
  ghost predicate Paired(s: Chan, q: Chan) {
    Mirrored(s, q) && Mirrored(q, s)
  }

  lemma RecordLength(c: Crypto, s: Chan, nonce: Bytes8, plain: Bytes)
    requires Lengths(c) && s.established
    ensures |WrapStep(c, s, nonce, plain).0| == |plain| + 29
  {
    assert |GcmWrap(c, s.keys.encrKey, s.keys.encrIv, s.encrSeq, APPDATA, nonce, plain)| == |plain| + 24;
  }

  /** A whole record unwraps to its message. */
  lemma WholeRecord(c: Crypto, s: Chan, r: Chan, m: Message)
    requires Lengths(c) && OpenUndoesSeal(c) && Mirrored(s, r) && |m.plain| <= MAX_PLAIN
    ensures UnwrapStep(c, r, WrapStep(c, s, m.nonce, m.plain).0) == (Some(m.plain), r.(decrSeq := Next64(r.decrSeq)))
  {
    var b := WrapStep(c, s, m.nonce, m.plain).0;
    UnwrapsFirst(c, s, r, m, [], []);
    assert b + [] == b && [] + m.plain == m.plain;
  }

  /** A record cut before its end is not unwrapped at all. */
  lemma CutRecord(c: Crypto, s: Chan, r: Chan, m: Message, n: nat)
    requires Lengths(c) && s.established && r.established && |m.plain| <= MAX_PLAIN
    requires 0 < n < |WrapStep(c, s, m.nonce, m.plain).0|
    ensures UnwrapStep(c, r, WrapStep(c, s, m.nonce, m.plain).0[..n]) == (None, r)
  {
    var b := WrapStep(c, s, m.nonce, m.plain).0;
    RecordLength(c, s, m.nonce, m.plain);
    if n >= 5 {
      assert b[..n][3] == b[3] && b[..n][4] == b[4];
      assert RecordLen(b[..n]) == |m.plain| + 24;
    }
  }

  /** The largest reply that one read can take in. */
  function MaxReply(hint: nat): nat {
    Max(hint + 35, 483)
  }

  /** The sensor has handled the command and its reply waits to be read. */
  lemma CommandArrives(c: Crypto, app: Bytes -> Bytes, s: Chan, q: Sensor, cmd: Bytes, nonce: Bytes8)
    requires Lengths(c) && OpenUndoesSeal(c) && Mirrored(s, q.chan)
    requires |cmd| + 29 <= CHUNKS_MAX * MAX_CHUNK
    ensures var (record, s1) := WrapStep(c, s, nonce, cmd);
            var q1 := T.WriteRun(SensorDevice(c, app), q, SentTransfers(record)).dev;
            && T.WriteRun(SensorDevice(c, app), q, SentTransfers(record)).result == T.Ok([])
            && q1.seen == q.seen + [cmd] && q1.nonce == q.nonce && q1.stalls == q.stalls
            && q1.out == T.Replier(WrapStep(c, q.chan, q.nonce, app(cmd)).0, q.stalls)
            && q1.chan == q.chan.(decrSeq := s1.encrSeq, encrSeq := Next64(q.chan.encrSeq),
                                  sealed := q.chan.sealed + [Sealed(APPDATA, q.nonce, app(cmd))])
            && Mirrored(s1, q1.chan)
  {
    var (record, s1) := WrapStep(c, s, nonce, cmd);
    RecordLength(c, s, nonce, cmd);
    WritesFeed(c, app, q, SentTransfers(record));
    SensorGets(c, app, q, record);
    WholeRecord(c, s, q.chan, Message(nonce, cmd));
  }

  /** How much of a reply to this command one read takes in. */
  function Taken(reply: Bytes, hint: nat): nat {
    Min(|reply|, Max(ReadBudget(hint), 1))
  }

  /** Whatever the sensor's send counter is: it sees the command, and the host unwraps what it reads of the reply. */
  lemma SendRuns(c: Crypto, app: Bytes -> Bytes, s: Chan, q: Sensor, ask: Ask)
    requires Lengths(c) && OpenUndoesSeal(c) && Mirrored(s, q.chan) && Answerable(app, ask) && Prompt(q)
    ensures var s1 := WrapStep(c, s, ask.nonce, ask.cmd).1;
            var (reply, chan) := WrapStep(c, q.chan, q.nonce, app(ask.cmd));
            var (plain, s2) := UnwrapStep(c, s1, reply[..Taken(reply, ask.hint)]);
            var (r, s', q') := SendStep(c, s, SensorDevice(c, app), q, ask.cmd, ask.hint, ask.nonce);
            && r == (if plain.Some? then MocOk(StatusOf(plain.value), plain.value) else MocFailed)
            && s' == s2 && q'.seen == q.seen + [ask.cmd] && q'.nonce == q.nonce && q'.stalls == q.stalls
            && q'.chan == chan.(decrSeq := s1.encrSeq)
  {
    hide Transfers, T.ReadFrom, T.WriteRun, UnwrapStep, SensorDevice;
    var (record, s1) := WrapStep(c, s, ask.nonce, ask.cmd);
    CommandArrives(c, app, s, q, ask.cmd, ask.nonce);
    var q1 := T.WriteRun(SensorDevice(c, app), q, SentTransfers(record)).dev;
    var reply := WrapStep(c, q.chan, q.nonce, app(ask.cmd)).0;
    T.ReadReturnsReply(reply, q.stalls, ReadBudget(ask.hint));
    SensorServes(c, app, q1, T.READ_MAX_RETRIES, Max(ReadBudget(ask.hint), 1), [], true, 0);
  }

  /** A command with the caller's guess at the length of its reply. */
  datatype Ask = Ask(cmd: Bytes, hint: nat, nonce: Bytes8)

  /** Command and reply are of a size that the transport and the channel can carry at all. */
  ghost predicate Answerable(app: Bytes -> Bytes, ask: Ask) {
    |ask.cmd| + 29 <= CHUNKS_MAX * MAX_CHUNK && |app(ask.cmd)| <= MAX_PLAIN
  }

  /** The sensor is not late more often than the driver tolerates. */
  ghost predicate Prompt(q: Sensor) {
    forall i :: 0 <= i < |q.stalls| ==> q.stalls[i] <= T.READ_MAX_RETRIES
  }

  predicate ReplyFits(app: Bytes -> Bytes, ask: Ask) {
    |app(ask.cmd)| <= MaxReply(ask.hint)
  }

  /** The sensor has sent `lag` records that the host has not taken in; in the other direction all is well. */
  ghost predicate OutOfStep(s: Chan, q: Chan, lag: nat) {
    && Mirrored(s, q)
    && s.keys.decrKey == q.keys.encrKey && s.keys.decrIv == q.keys.encrIv
    && 0 < lag < U64 && q.encrSeq == (s.decrSeq + lag) % U64
  }

  /**
   * End to end: the sensor sees exactly the command, and the callback gets
   * exactly the reply and its status word if the reply fits the read budget.
   * If it does not fit, the command fails and the ends are out of step by one.
   */
  lemma SendDelivers(c: Crypto, app: Bytes -> Bytes, s: Chan, q: Sensor, ask: Ask)
    requires Lengths(c) && OpenUndoesSeal(c) && Paired(s, q.chan) && Answerable(app, ask) && Prompt(q)
    ensures var (r, s', q') := SendStep(c, s, SensorDevice(c, app), q, ask.cmd, ask.hint, ask.nonce);
            && q'.seen == q.seen + [ask.cmd] && q'.nonce == q.nonce && q'.stalls == q.stalls
            && r == (if ReplyFits(app, ask) then MocOk(StatusOf(app(ask.cmd)), app(ask.cmd)) else MocFailed)
            && (if ReplyFits(app, ask) then Paired(s', q'.chan) else OutOfStep(s', q'.chan, 1))
  {
    hide SendStep, UnwrapStep, SensorDevice;
    var s1 := WrapStep(c, s, ask.nonce, ask.cmd).1;
    var reply := WrapStep(c, q.chan, q.nonce, app(ask.cmd)).0;
    var n := Taken(reply, ask.hint);
    SendRuns(c, app, s, q, ask);
    RecordLength(c, q.chan, q.nonce, app(ask.cmd));
    if ReplyFits(app, ask) {
      assert reply[..n] == reply;
      WholeRecord(c, q.chan, s1, Message(q.nonce, app(ask.cmd)));
    } else {
      CutRecord(c, q.chan, s1, Message(q.nonce, app(ask.cmd)), n);
    }
  }

  // ---------------------------------------------------------------- a session

  /** A whole record with another sequence number than the one expected is not unwrapped at all. */
  lemma StaleRecord(c: Crypto, s: Chan, r: Chan, m: Message)
    requires Lengths(c) && SealBinds(c) && s.established && r.established && |m.plain| <= MAX_PLAIN
    requires r.keys.decrKey == s.keys.encrKey && r.keys.decrIv == s.keys.encrIv && r.decrSeq != s.encrSeq
    ensures UnwrapStep(c, r, WrapStep(c, s, m.nonce, m.plain).0) == (None, r)
  {
    var frag := GcmWrap(c, s.keys.encrKey, s.keys.encrIv, s.encrSeq, APPDATA, m.nonce, m.plain);
    var sealed := c.seal(s.keys.encrKey, s.keys.encrIv + m.nonce, Aad(s.encrSeq, APPDATA, |m.plain|), m.plain);
    assert |frag| == |m.plain| + 24;
    assert frag[..8] == m.nonce && frag[8..] == sealed;
    AadIdentifies(s.encrSeq, APPDATA, |m.plain|, r.decrSeq, APPDATA, |m.plain|);
    assert GcmUnwrap(c, r.keys.decrKey, r.keys.decrIv, r.decrSeq, APPDATA, frag) == None;
    WriteIsPrint(APPDATA, frag);
    FirstOfPrinted(Record(APPDATA, 3, 3, frag), []);
    var b := WrapStep(c, s, m.nonce, m.plain).0;
    assert b + [] == b;
  }

  lemma LagGrows(seqNo: word64, lag: nat)
    requires 0 < lag < U64
    ensures (seqNo + lag) % U64 != seqNo && Next64((seqNo + lag) % U64) == (seqNo + lag + 1) % U64
  {
  }

  /** Out of step, every command still reaches the sensor and fails. */
  lemma SendFails(c: Crypto, app: Bytes -> Bytes, s: Chan, q: Sensor, ask: Ask, lag: nat)
    requires Lengths(c) && OpenUndoesSeal(c) && SealBinds(c) && Answerable(app, ask) && Prompt(q)
    requires OutOfStep(s, q.chan, lag) && lag + 1 < U64
    ensures var (r, s', q') := SendStep(c, s, SensorDevice(c, app), q, ask.cmd, ask.hint, ask.nonce);
            && q'.seen == q.seen + [ask.cmd] && q'.nonce == q.nonce && q'.stalls == q.stalls
            && r == MocFailed && OutOfStep(s', q'.chan, lag + 1)
  {
    hide SendStep, UnwrapStep, SensorDevice, SealBinds, OpenUndoesSeal, Lengths, GcmWrap;
    var s1 := WrapStep(c, s, ask.nonce, ask.cmd).1;
    var reply := WrapStep(c, q.chan, q.nonce, app(ask.cmd)).0;
    var n := Taken(reply, ask.hint);
    SendRuns(c, app, s, q, ask);
    RecordLength(c, q.chan, q.nonce, app(ask.cmd));
    LagGrows(s.decrSeq, lag);
    if n == |reply| {
      assert reply[..n] == reply;
      StaleRecord(c, q.chan, s1, Message(q.nonce, app(ask.cmd)));
    } else {
      CutRecord(c, q.chan, s1, Message(q.nonce, app(ask.cmd)), n);
    }
  }

  /** One command after the other: the callbacks' results, and both ends afterwards. */
  function SendAll<D>(c: Crypto, s: Chan, dev: T.Device<D>, d: D, asks: seq<Ask>): (seq<MocReply>, Chan, D)
    decreases |asks|
  {
    if asks == [] then ([], s, d)
    else
      var (r, s1, d1) := SendStep(c, s, dev, d, asks[0].cmd, asks[0].hint, asks[0].nonce);
      var (rs, s2, d2) := SendAll(c, s1, dev, d1, asks[1..]);
      ([r] + rs, s2, d2)
  }

  function CmdsOf(asks: seq<Ask>): seq<Bytes> {
    if asks == [] then [] else [asks[0].cmd] + CmdsOf(asks[1..])
  }

  function ReplyTo(app: Bytes -> Bytes, ask: Ask): MocReply {
    MocOk(StatusOf(app(ask.cmd)), app(ask.cmd))
  }

  /** What the callbacks get: every reply up to the first that does not fit, and then only errors. */
  function RepliesTo(app: Bytes -> Bytes, asks: seq<Ask>): (rs: seq<MocReply>)
    ensures |rs| == |asks|
    decreases |asks|
  {
    if asks == [] then []
    else if ReplyFits(app, asks[0]) then [ReplyTo(app, asks[0])] + RepliesTo(app, asks[1..])
    else Failures(|asks|)
  }

  predicate AllFitTo(app: Bytes -> Bytes, asks: seq<Ask>, i: nat)
    requires i < |asks|
  {
    forall j :: 0 <= j <= i ==> ReplyFits(app, asks[j])
  }

  /** Command by command: its reply arrives exactly if it and all replies before it fit. */
  lemma {:induction false} RepliesAt(app: Bytes -> Bytes, asks: seq<Ask>, i: nat)
    requires i < |asks|
    ensures RepliesTo(app, asks)[i] == if AllFitTo(app, asks, i) then ReplyTo(app, asks[i]) else MocFailed
    decreases i
  {
    hide ReplyFits;
    if i > 0 && ReplyFits(app, asks[0]) {
      RepliesAt(app, asks[1..], i - 1);
      if AllFitTo(app, asks[1..], i - 1) {
        forall j | 0 <= j <= i ensures ReplyFits(app, asks[j]) {
          assert j > 0 ==> asks[j] == asks[1..][j - 1];
        }
      }
    }
  }

  function Failures(n: nat): (rs: seq<MocReply>)
    ensures |rs| == n
  {
    seq(n, i => MocFailed)
  }

  lemma {:induction false} SessionFails(c: Crypto, app: Bytes -> Bytes, s: Chan, q: Sensor, asks: seq<Ask>, lag: nat)
    requires Lengths(c) && OpenUndoesSeal(c) && SealBinds(c) && Prompt(q)
    requires forall i :: 0 <= i < |asks| ==> Answerable(app, asks[i])
    requires OutOfStep(s, q.chan, lag) && lag + |asks| < U64
    ensures var (rs, s', q') := SendAll(c, s, SensorDevice(c, app), q, asks);
            rs == Failures(|asks|) && q'.seen == q.seen + CmdsOf(asks)
    decreases |asks|
  {
    hide SendStep, SensorDevice, Answerable, OutOfStep;
    if asks == [] {
      assert q.seen + [] == q.seen;
    } else {
      SendFails(c, app, s, q, asks[0], lag);
      var (r, s1, q1) := SendStep(c, s, SensorDevice(c, app), q, asks[0].cmd, asks[0].hint, asks[0].nonce);
      SessionFails(c, app, s1, q1, asks[1..], lag + 1);
      Associates(q.seen, [asks[0].cmd], CmdsOf(asks[1..]));
      assert Failures(|asks|) == [MocFailed] + Failures(|asks| - 1);
    }
  }

  /**
   * A session: the sensor sees exactly the list of commands. Each callback gets
   * exactly its reply, up to the first reply that does not fit its read budget;
   * that command and all later ones fail.
   */
  lemma {:induction false} SessionDelivers(c: Crypto, app: Bytes -> Bytes, s: Chan, q: Sensor, asks: seq<Ask>)
    requires Lengths(c) && OpenUndoesSeal(c) && SealBinds(c) && Prompt(q)
    requires forall i :: 0 <= i < |asks| ==> Answerable(app, asks[i])
    requires Paired(s, q.chan) && |asks| < U64
    ensures var (rs, s', q') := SendAll(c, s, SensorDevice(c, app), q, asks);
            rs == RepliesTo(app, asks) && q'.seen == q.seen + CmdsOf(asks)
    decreases |asks|
  {
    hide SendStep, SensorDevice, Answerable, OutOfStep, Paired, ReplyFits;
    if asks == [] {
      assert q.seen + [] == q.seen;
    } else {
      SendDelivers(c, app, s, q, asks[0]);
      var (r, s1, q1) := SendStep(c, s, SensorDevice(c, app), q, asks[0].cmd, asks[0].hint, asks[0].nonce);
      Associates(q.seen, [asks[0].cmd], CmdsOf(asks[1..]));
      if ReplyFits(app, asks[0]) {
        SessionDelivers(c, app, s1, q1, asks[1..]);
      } else {
        SessionFails(c, app, s1, q1, asks[1..], 1);
        assert Failures(|asks|) == [MocFailed] + Failures(|asks| - 1);
      }
    }
  }

  // ------------------------------------------------------------- the object list

  datatype ObjList = ObjList(status: word16, ids: seq<Bytes16>)

  function IdSlice(resp: Bytes, i: nat): Bytes16 {
    if 20 + i * 16 <= |resp| then resp[4 + i * 16..20 + i * 16] else Zeros(16)
  }

  function ParseObjList(resp: Bytes): Option<ObjList> {
    if |resp| < 4 then None
    else
      var count := Le16At(resp, 2);
      if |resp| < 4 + count * 16 then None
      else Some(ObjList(Le16At(resp, 0),
                        seq(count, i requires 0 <= i < count => IdSlice(resp, i))))
  }

  method ParseObjects(resp: Bytes) returns (r: Option<ObjList>)
    ensures r == ParseObjList(resp)
  {
    if |resp| < 4 {
      return None;
    }
    var status := Le16At(resp, 0);
    var count := Le16At(resp, 2);
    if |resp| < 4 + count * 16 {
      return None;
    }
    var ids: seq<Bytes16> := [];
    var i := 0;
    while i < count
      invariant 0 <= i <= count && |ids| == i
      invariant forall j :: 0 <= j < i ==> ids[j] == IdSlice(resp, j)
    {
      ids := ids + [resp[4 + i * 16..20 + i * 16]];
      i := i + 1;
    }
    assert ids == ParseObjList(resp).value.ids;
    r := Some(ObjList(status, ids));
  }

  const LIST_CMD: Bytes := [0x9f, 0x01]
  const LIST_HINT: nat := 0x400

  function ListOf(r: MocReply): Option<seq<Bytes16>> {
    if r.MocFailed? then None
    else match ParseObjList(r.plain)
         case None => None
         case Some(l) => if l.status != 0 then None else Some(l.ids)
  }

  method List<D>(tls: VerimarkTls, dev: T.Device<D>, d0: D, nonce: Bytes8) returns (ids: Option<seq<Bytes16>>, d: D)
    modifies tls
    ensures var (r, s, d1) := SendStep(tls.c, old(tls.State()), dev, d0, LIST_CMD, LIST_HINT, nonce);
            tls.State() == s && d == d1 && ids == ListOf(r)
  {
    var r;
    r, d := Send(tls, dev, d0, LIST_CMD, LIST_HINT, nonce);
    if r.MocFailed? {
      return None, d;
    }
    var l := ParseObjects(r.plain);
    if l.None? || l.value.status != 0 {
      return None, d;
    }
    ids := Some(l.value.ids);
  }

  function Ids(ids: seq<Bytes16>): (b: Bytes)
    ensures |b| == 16 * |ids|
  {
    if ids == [] then [] else Ids(ids[..|ids| - 1]) + ids[|ids| - 1]
  }

  /** The device's answer to the list command: status, count, the ids. */
  function ListReply(ids: seq<Bytes16>): (b: Bytes)
    requires |ids| < U16
    ensures |b| == 4 + 16 * |ids|
  {
    [0, 0, |ids| % 256, |ids| / 256] + Ids(ids)
  }

  lemma {:induction false} IdAt(ids: seq<Bytes16>, i: nat)
    requires i < |ids|
    ensures Ids(ids)[i * 16..i * 16 + 16] == ids[i]
    decreases |ids|
  {
    var n := |ids| - 1;
    if i < n {
      IdAt(ids[..n], i);
      assert Ids(ids)[i * 16..i * 16 + 16] == Ids(ids[..n])[i * 16..i * 16 + 16];
    }
  }

  /** Status 0, the number of ids, and the ids; anything may follow. */
  predicate Lists(plain: Bytes, ids: seq<Bytes16>, rest: Bytes) {
    |ids| < 65536 && plain == [0, 0, |ids| % 256, |ids| / 256] + Ids(ids) + rest
  }

  lemma ListedParses(plain: Bytes, ids: seq<Bytes16>, rest: Bytes)
    requires Lists(plain, ids, rest)
    ensures ParseObjList(plain) == Some(ObjList(0, ids))
  {
    assert Le16At(plain, 2) == |ids|;
    var parsed := ParseObjList(plain).value.ids;
    forall i | 0 <= i < |ids| ensures parsed[i] == ids[i] {
      IdAt(ids, i);
      assert plain[4..4 + |Ids(ids)|] == Ids(ids);
      assert plain[4 + i * 16..20 + i * 16] == plain[4..4 + |Ids(ids)|][i * 16..i * 16 + 16];
    }
    assert parsed == ids;
  }

  lemma {:induction false} SlicesAreIds(plain: Bytes, ids: seq<Bytes16>)
    requires |plain| >= 4 + 16 * |ids| && forall i :: 0 <= i < |ids| ==> ids[i] == IdSlice(plain, i)
    ensures Ids(ids) == plain[4..4 + 16 * |ids|]
    decreases |ids|
  {
    if ids != [] {
      var n := |ids| - 1;
      SlicesAreIds(plain, ids[..n]);
      assert ids[n] == plain[4 + n * 16..20 + n * 16];
      assert plain[4..4 + 16 * |ids|] == plain[4..4 + 16 * n] + plain[4 + 16 * n..20 + 16 * n];
    }
  }

  lemma ParsedIsListed(plain: Bytes, ids: seq<Bytes16>) returns (rest: Bytes)
    requires ParseObjList(plain) == Some(ObjList(0, ids))
    ensures Lists(plain, ids, rest)
  {
    var n := |ids|;
    assert Le16At(plain, 2) == n && n < U16;
    SlicesAreIds(plain, ids);
    var head, body := plain[..4], plain[4..4 + 16 * n];
    rest := plain[4 + 16 * n..];
    assert head == [0, 0, n % 256, n / 256];
    assert plain == head + body + rest;
  }

  /** Which replies the object list is taken from, and that it is what they list. */
  lemma ListOfIff(status: word16, plain: Bytes, ids: seq<Bytes16>)
    ensures ListOf(MocOk(status, plain)) == Some(ids) <==> exists rest: Bytes :: Lists(plain, ids, rest)
  {
    hide ParseObjList, Lists;
    if ListOf(MocOk(status, plain)) == Some(ids) {
      var rest := ParsedIsListed(plain, ids);
    }
    if exists rest: Bytes :: Lists(plain, ids, rest) {
      var rest: Bytes :| Lists(plain, ids, rest);
      ListedParses(plain, ids, rest);
    }
  }

  /** `list` returns the device's ids, in order, exactly while the device holds at most 65 objects. */
  lemma ListIsComplete(c: Crypto, app: Bytes -> Bytes, s: Chan, q: Sensor, ids: seq<Bytes16>, nonce: Bytes8)
    requires Lengths(c) && OpenUndoesSeal(c) && Paired(s, q.chan)
    requires |ids| <= 4094 && app([0x9f, 0x01]) == ListReply(ids)
    requires forall i :: 0 <= i < |q.stalls| ==> q.stalls[i] <= T.READ_MAX_RETRIES
    ensures var r := SendStep(c, s, SensorDevice(c, app), q, LIST_CMD, LIST_HINT, nonce).0;
            ListOf(r) == if |ids| <= 65 then Some(ids) else None
  {
    SendDelivers(c, app, s, q, Ask(LIST_CMD, LIST_HINT, nonce));
    assert ListReply(ids) == ListReply(ids) + [];
    ListedParses(ListReply(ids), ids, []);
  }
}
