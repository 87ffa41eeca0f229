/**
 * Bulk-over-control transport: the synchronous loops used while opening the
 * device, the asynchronous command state machine used afterwards, and the
 * Python reference, all against an arbitrary device.
 */
module Transport {
  import opened ByteStrings
  import opened Framing

  const READ_MAX_RETRIES: nat := 25
  /** The reference makes 25 attempts, so it survives one timeout less. */
  const REFERENCE_RETRIES: nat := 24

  datatype Ctrl = Out(t: Transfer) | In(wvalue: nat, want: nat)

  datatype Answer = Data(bytes: Bytes) | TimedOut | Fault(code: int)

  datatype Result = Ok(bytes: Bytes) | Failed(why: Answer)

  /** A device answers each control transfer and may change its state: D is arbitrary. */
  type Device<!D> = (D, Ctrl) -> (D, Answer)

  /** A finished exchange: what was sent, the device afterwards, and the outcome. */
  datatype Run<D> = Run(trace: seq<Ctrl>, dev: D, result: Result)

  function Before<D>(c: Ctrl, r: Run<D>): Run<D> {
    Run([c] + r.trace, r.dev, r.result)
  }

  function After<D>(trace: seq<Ctrl>, r: Run<D>): Run<D> {
    Run(trace + r.trace, r.dev, r.result)
  }

  lemma AfterBefore<D>(trace: seq<Ctrl>, c: Ctrl, r: Run<D>)
    ensures After(trace, Before(c, r)) == After(trace + [c], r)
  {
    assert trace + ([c] + r.trace) == trace + [c] + r.trace;
  }

  /** A control-IN never returns more than was asked for. */
  function Clip(b: Bytes, want: nat): (c: Bytes)
    ensures |c| <= want && c <= b
  {
    b[..Min(|b|, want)]
  }

  // ------------------------------------------------------------- specification

  /** The read exchange from a point where `acc` has arrived. */
  function ReadFrom<D>(dev: Device<D>, budget: nat, d: D, rmax: nat, acc: Bytes, first: bool, retries: nat): Run<D>
    requires retries <= budget
    decreases rmax - |acc|, budget - retries
  {
    if |acc| >= rmax then Run([], d, Ok(acc))
    else
      var (want, wvalue) := NextRead(rmax - |acc|, first);
      var c := In(wvalue, want);
      var (d', a) := dev(d, c);
      var rest :=
        match a
        case TimedOut =>
          if retries < budget then ReadFrom(dev, budget, d', rmax, acc, first, retries + 1) else Run([], d', Failed(a))
        case Fault(_) => Run([], d', Failed(a))
        case Data(b) =>
          var got := Clip(b, want);
          if |got| < want then Run([], d', Ok(acc + got))
          else ReadFrom(dev, budget, d', rmax, acc + got, false, 0);
      Before(c, rest)
  }

  function ReadRun<D>(dev: Device<D>, budget: nat, d: D, respMax: nat): Run<D> {
    ReadFrom(dev, budget, d, Max(respMax, 1), [], true, 0)
  }

  /** The write exchange: every transfer in order, stopping at the first that is not accepted. */
  function WriteRun<D>(dev: Device<D>, d: D, ts: seq<Transfer>): Run<D>
    decreases |ts|
  {
    if ts == [] then Run([], d, Ok([]))
    else
      var (d', a) := dev(d, Out(ts[0]));
      Before(Out(ts[0]), if a.Data? then WriteRun(dev, d', ts[1..]) else Run([], d', Failed(a)))
  }

  /** One command: write, then read. */
  function CmdRun<D>(dev: Device<D>, d: D, ts: seq<Transfer>, respMax: nat): Run<D> {
    var w := WriteRun(dev, d, ts);
    if w.result.Failed? then w
    else After(w.trace, ReadRun(dev, READ_MAX_RETRIES, w.dev, respMax))
  }

  // --------------------------------------------------------- synchronous loops

  lemma ReadDone<D>(dev: Device<D>, budget: nat, d: D, rmax: nat, acc: Bytes, first: bool, retries: nat)
    requires retries <= budget && |acc| >= rmax
    ensures ReadFrom(dev, budget, d, rmax, acc, first, retries) == Run([], d, Ok(acc))
  {
  }

  lemma ReadRetries<D>(dev: Device<D>, budget: nat, d: D, rmax: nat, acc: Bytes, first: bool, retries: nat)
    requires retries <= budget && |acc| < rmax
    ensures var (want, wvalue) := NextRead(rmax - |acc|, first);
      var (d', a) := dev(d, In(wvalue, want));
      !a.Data? ==>
        ReadFrom(dev, budget, d, rmax, acc, first, retries) ==
        Before(In(wvalue, want),
               if a.TimedOut? && retries < budget then ReadFrom(dev, budget, d', rmax, acc, first, retries + 1)
               else Run([], d', Failed(a)))
  {
  }

  lemma ReadTakes<D>(dev: Device<D>, budget: nat, d: D, rmax: nat, acc: Bytes, first: bool, retries: nat)
    requires retries <= budget && |acc| < rmax
    ensures var (want, wvalue) := NextRead(rmax - |acc|, first);
      var (d', a) := dev(d, In(wvalue, want));
      a.Data? ==>
        var got := Clip(a.bytes, want);
        ReadFrom(dev, budget, d, rmax, acc, first, retries) ==
        Before(In(wvalue, want), if |got| < want then Run([], d', Ok(acc + got))
                                 else ReadFrom(dev, budget, d', rmax, acc + got, false, 0))
  {
  }

  lemma NothingBefore<D>(r: Run<D>)
    ensures After([], r) == r
  {
  }

  lemma AfterNothing<D>(trace: seq<Ctrl>, d: D, r: Result)
    ensures After(trace, Run([], d, r)) == Run(trace, d, r)
  {
    assert trace + [] == trace;
  }

  method CtrlWriteSync<D>(dev: Device<D>, d0: D, cmd: Bytes)
      returns (ok: bool, why: Answer, d: D, trace: seq<Ctrl>)
    ensures WriteRun(dev, d0, SentTransfers(cmd)) == Run(trace, d, if ok then Ok([]) else Failed(why))
  {
    var paddedLen := PaddedLen(|cmd|);
    var wbuf := cmd + Zeros(paddedLen - |cmd|);
    var chunks := new WriteChunk[CHUNKS_MAX](i => WriteChunk(0, 0, 0));
    var n := WriteChunks(|cmd|, chunks);
    ghost var ts := SentTransfers(cmd);
    var i := 0;
    d, trace, why := d0, [], TimedOut;
    while i < n
      invariant 0 <= i <= n == |ts|
      invariant chunks[..n] == Plan(|cmd|)[..n]
      invariant After(trace, WriteRun(dev, d, ts[i..])) == WriteRun(dev, d0, ts)
    {
      var chunk := chunks[i];
      assert chunk == chunks[..n][i] == PlanAt(|cmd|, i);
      var t := Transfer(chunk.wvalue, wbuf[chunk.offset..chunk.offset + chunk.len]);
      assert t == ts[i];
      assert ts[i..][1..] == ts[i + 1..];
      var (d', a) := dev(d, Out(t));
      AfterBefore(trace, Out(t), if a.Data? then WriteRun(dev, d', ts[i + 1..]) else Run([], d', Failed(a)));
      d, trace := d', trace + [Out(t)];
      if !a.Data? {
        ok, why := false, a;
        assert trace + [] == trace;
        return;
      }
      i := i + 1;
    }
    assert ts[n..] == [] && trace + [] == trace;
    ok := true;
  }

  method CtrlReadSync<D>(dev: Device<D>, d0: D, respMax: nat)
      returns (r: Result, d: D, trace: seq<Ctrl>)
    ensures Run(trace, d, r) == ReadRun(dev, READ_MAX_RETRIES, d0, respMax)
  {
    hide NextRead, ReadFrom, Before, After, Clip;
    ghost var goal := ReadRun(dev, READ_MAX_RETRIES, d0, respMax);
    var rmax := Max(respMax, 1);
    var acc: Bytes := [];
    var first, retries := true, 0;
    d, trace := d0, [];
    NothingBefore(goal);
    while |acc| < rmax
      invariant retries <= READ_MAX_RETRIES
      invariant After(trace, ReadFrom(dev, READ_MAX_RETRIES, d, rmax, acc, first, retries)) == goal
      decreases rmax - |acc|, READ_MAX_RETRIES - retries
    {
      var (want, wvalue) := NextRead(rmax - |acc|, first);
      var c := In(wvalue, want);
      var (d', a) := dev(d, c);
      ReadRetries(dev, READ_MAX_RETRIES, d, rmax, acc, first, retries);
      ReadTakes(dev, READ_MAX_RETRIES, d, rmax, acc, first, retries);
      ghost var was := trace;
      d, trace := d', trace + [c];
      if !a.Data? {
        if a.TimedOut? && retries < READ_MAX_RETRIES {
          retries := retries + 1;
          AfterBefore(was, c, ReadFrom(dev, READ_MAX_RETRIES, d, rmax, acc, first, retries));
          continue;
        }
        r := Failed(a);
        AfterBefore(was, c, Run([], d, r));
        AfterNothing(trace, d, r);
        return;
      }
      retries := 0;
      var got := Clip(a.bytes, want);
      acc := acc + got;
      first := false;
      if |got| < want {
        AfterBefore(was, c, Run([], d, Ok(acc)));
        AfterNothing(trace, d, Ok(acc));
        break;
      }
      AfterBefore(was, c, ReadFrom(dev, READ_MAX_RETRIES, d, rmax, acc, first, 0));
    }
    if |acc| >= rmax {
      ReadDone(dev, READ_MAX_RETRIES, d, rmax, acc, first, retries);
      AfterNothing(trace, d, Ok(acc));
    }
    r := Ok(acc);
  }

  method CtrlCmdSync<D>(dev: Device<D>, d0: D, cmd: Bytes, respMax: nat)
      returns (r: Result, d: D, trace: seq<Ctrl>)
    ensures Run(trace, d, r) == CmdRun(dev, d0, SentTransfers(cmd), respMax)
  {
    var ok, why, d1, wtrace := CtrlWriteSync(dev, d0, cmd);
    if !ok {
      r, d, trace := Failed(why), d1, wtrace;
      return;
    }
    var rtrace;
    r, d, rtrace := CtrlReadSync(dev, d1, respMax);
    trace := wtrace + rtrace;
  }

  /** The reference read: a fixed number of attempts for each chunk. */
  method ReferenceRead<D>(dev: Device<D>, d0: D, maxlen: nat)
      returns (r: Result, d: D, trace: seq<Ctrl>)
    ensures Run(trace, d, r) == ReadRun(dev, REFERENCE_RETRIES, d0, maxlen)
  {
    ghost var rmax := Max(maxlen, 1);
    ghost var goal := ReadRun(dev, REFERENCE_RETRIES, d0, maxlen);
    var out: Bytes := [];
    var remaining := Max(maxlen, 1);
    var first := true;
    d, trace := d0, [];
    while remaining > 0
      invariant 0 <= remaining == Max(0, rmax - |out|)
      invariant After(trace, ReadFrom(dev, REFERENCE_RETRIES, d, rmax, out, first, 0)) == goal
      decreases remaining
    {
      var want := Min(remaining, MAX_CHUNK);
      var wvalue := if first then 0 else 0x4000;
      if want == MAX_CHUNK {
        wvalue := wvalue + 0x8000;
      }
      assert (want, wvalue) == NextRead(remaining, first);
      var c := In(wvalue, want);
      var attempt := 0;
      var data: Option<Bytes> := None;
      while attempt < REFERENCE_RETRIES + 1 && data.None?
        invariant 0 <= attempt <= REFERENCE_RETRIES + 1
        invariant data.None? && attempt <= REFERENCE_RETRIES ==>
                    After(trace, ReadFrom(dev, REFERENCE_RETRIES, d, rmax, out, first, attempt)) == goal
        invariant data.None? && attempt > REFERENCE_RETRIES ==> goal == Run(trace, d, Failed(TimedOut))
        invariant data.Some? ==>
                    |data.value| <= want
                    && goal == if |data.value| < want then Run(trace, d, Ok(out + data.value))
                               else After(trace, ReadFrom(dev, REFERENCE_RETRIES, d, rmax, out + data.value, false, 0))
        decreases REFERENCE_RETRIES + 1 - attempt, data.None?
      {
        var (d', a) := dev(d, c);
        ghost var was := trace;
        d, trace := d', trace + [c];
        assert trace + [] == trace;
        if a.Data? {
          data := Some(Clip(a.bytes, want));
          AfterBefore(was, c, if |data.value| < want then Run([], d, Ok(out + data.value))
                              else ReadFrom(dev, REFERENCE_RETRIES, d, rmax, out + data.value, false, 0));
        } else if a.TimedOut? {
          attempt := attempt + 1;
          AfterBefore(was, c, if attempt <= REFERENCE_RETRIES
                              then ReadFrom(dev, REFERENCE_RETRIES, d, rmax, out, first, attempt)
                              else Run([], d, Failed(TimedOut)));
        } else {
          r := Failed(a);
          AfterBefore(was, c, Run([], d, r));
          return;
        }
      }
      if data.None? {
        r := Failed(TimedOut);
        return;
      }
      out := out + data.value;
      first := false;
      if |data.value| < want {
        break;
      }
      remaining := remaining - |data.value|;
    }
    r := Ok(out);
  }

  // ------------------------------------------------ asynchronous state machine

  function TransfersOf(buf: Bytes, chunks: seq<WriteChunk>): (ts: seq<Transfer>)
    ensures |ts| == |chunks|
  {
    seq(|chunks|, k requires 0 <= k < |chunks| => TransferOf(buf, chunks[k]))
  }

  datatype SsmState = WriteChunk_ | ReadChunk | Completed | MarkedFailed(why: Answer)

  /** The command state machine: each callback changes these fields and moves the machine. */
  class CmdSsm<!D> {
    const dev: Device<D>
    var d: D
    var state: SsmState
    var wbuf: Bytes
    var wchunks: seq<WriteChunk>
    var wchunkIdx: nat
    var rbuf: Bytes
    var rmax: nat
    var rfirst: bool
    var rretries: nat
    var trace: seq<Ctrl>

    ghost predicate Valid()
      reads this
    {
      && rmax >= 1
      && rretries <= READ_MAX_RETRIES
      && (state.WriteChunk_? ==> wchunkIdx < |wchunks| && rbuf == [] && rfirst && rretries == 0)
      && (state.ReadChunk? ==> |rbuf| < rmax)
      && forall i :: 0 <= i < |wchunks| ==> wchunks[i].offset + wchunks[i].len <= |wbuf|
    }

    ghost function Pending(): seq<Transfer>
      requires Valid() && state.WriteChunk_?
      reads this
    {
      TransfersOf(wbuf, wchunks[wchunkIdx..])
    }

    /** The exchange the machine is in the middle of, seen as a whole. */
    ghost function Whole(): Run<D>
      requires Valid()
      reads this
    {
      After(trace,
            match state
            case WriteChunk_ => CmdRun(dev, d, Pending(), rmax)
            case ReadChunk => ReadFrom(dev, READ_MAX_RETRIES, d, rmax, rbuf, rfirst, rretries)
            case Completed => Run([], d, Ok(rbuf))
            case MarkedFailed(why) => Run([], d, Failed(why)))
    }

    constructor (dev: Device<D>, d0: D, cmd: Bytes, respMax: nat)
      ensures Valid() && state.WriteChunk_?
      ensures Whole() == CmdRun(dev, d0, SentTransfers(cmd), respMax)
    {
      this.dev, this.d := dev, d0;
      var chunks := new WriteChunk[CHUNKS_MAX](i => WriteChunk(0, 0, 0));
      var n := WriteChunks(|cmd|, chunks);
      wbuf := cmd + Zeros(PaddedLen(|cmd|) - |cmd|);
      wchunks, wchunkIdx := chunks[..n], 0;
      rmax, rbuf, rfirst, rretries := Max(respMax, 1), [], true, 0;
      state, trace := WriteChunk_, [];
      new;
      assert forall i :: 0 <= i < |wchunks| ==> wchunks[i] == PlanAt(|cmd|, i);
      assert Pending() == SentTransfers(cmd);
    }

    method OnWriteChunkDone(a: Answer)
      requires Valid() && state.WriteChunk_?
      modifies this`state, this`wchunkIdx
      ensures Valid()
      ensures !a.Data? ==> state == MarkedFailed(a)
      ensures a.Data? && old(wchunkIdx) + 1 == |wchunks| ==> state == ReadChunk
      ensures a.Data? && old(wchunkIdx) + 1 < |wchunks| ==> state == WriteChunk_ && wchunkIdx == old(wchunkIdx) + 1
    {
      if !a.Data? {
        state := MarkedFailed(a);
        return;
      }
      wchunkIdx := wchunkIdx + 1;
      if wchunkIdx < |wchunks| {
        state := WriteChunk_;
      } else {
        state := ReadChunk;
      }
    }

    method OnReadChunkDone(want: nat, a: Answer)
      requires Valid() && state.ReadChunk?
      modifies this`state, this`rbuf, this`rfirst, this`rretries
      ensures a.TimedOut? && old(rretries) < READ_MAX_RETRIES ==>
                rretries == old(rretries) + 1 && state.ReadChunk? && rbuf == old(rbuf) && rfirst == old(rfirst)
      ensures a.Fault? || (a.TimedOut? && old(rretries) == READ_MAX_RETRIES) ==>
                state == MarkedFailed(a) && rretries == old(rretries)
      ensures a.Data? ==>
                var got := Clip(a.bytes, want);
                rbuf == old(rbuf) + got && rretries == 0
                && state == (if |got| < want || |rbuf| >= rmax then Completed else ReadChunk)
                && (state.ReadChunk? ==> !rfirst)
      ensures Valid()
    {
      if !a.Data? {
        if a.TimedOut? && rretries < READ_MAX_RETRIES {
          rretries := rretries + 1;
          state := ReadChunk;
          return;
        }
        state := MarkedFailed(a);
        return;
      }
      rretries := 0;
      var got := Clip(a.bytes, want);
      rbuf := rbuf + got;
      if |got| < want {
        state := Completed;
        return;
      }
      if |rbuf| >= rmax {
        state := Completed;
        return;
      }
      rfirst := false;
      state := ReadChunk;
    }

    /** Submit the next chunk and run its callback. */
    method WriteStep()
      requires Valid() && state.WriteChunk_?
      modifies this
      ensures Valid() && rmax == old(rmax) && wchunks == old(wchunks)
      ensures Whole() == old(Whole())
      ensures state.WriteChunk_? ==> wchunkIdx > old(wchunkIdx)
    {
      ghost var was := trace;
      var chunk := wchunks[wchunkIdx];
      var t := Transfer(chunk.wvalue, wbuf[chunk.offset..chunk.offset + chunk.len]);
      ghost var todo := Pending();
      assert t == todo[0];
      var (d', a) := dev(d, Out(t));
      OnWriteChunkDone(a);
      d, trace := d', trace + [Out(t)];
      if state.WriteChunk_? {
        assert Pending() == todo[1..];
      } else if state.ReadChunk? {
        assert todo[1..] == [];
      }
      WriteFirst(dev, old(d), todo, rmax);
      AfterBefore(was, Out(t), if a.Data? then CmdRun(dev, d', todo[1..], rmax) else Run([], d', Failed(a)));
    }

    /** Submit one control-IN and run its callback. */
    method ReadStep()
      requires Valid() && state.ReadChunk?
      modifies this
      ensures Valid() && rmax == old(rmax) && wchunks == old(wchunks)
      ensures Whole() == old(Whole()) && !state.WriteChunk_?
      ensures state.ReadChunk? ==>
                |rbuf| > old(|rbuf|) || (rbuf == old(rbuf) && rretries > old(rretries))
    {
      ghost var was := trace;
      var (want, wvalue) := NextRead(rmax - |rbuf|, rfirst);
      var c := In(wvalue, want);
      var (d', a) := dev(d, c);
      OnReadChunkDone(want, a);
      d, trace := d', trace + [c];
      ghost var rest := match state
        case ReadChunk => ReadFrom(dev, READ_MAX_RETRIES, d, rmax, rbuf, rfirst, rretries)
        case MarkedFailed(why) => Run([], d, Failed(why))
        case _ => Run([], d, Ok(rbuf));
      assert ReadFrom(dev, READ_MAX_RETRIES, old(d), rmax, old(rbuf), old(rfirst), old(rretries)) == Before(c, rest);
      AfterBefore(was, c, rest);
    }

    /** The machine runs to an end, and the end is that of the synchronous exchange. */
    method Start() returns (r: Result)
      requires Valid()
      modifies this
      ensures Valid() && Run(trace, d, r) == old(Whole())
    {
      while state.WriteChunk_? || state.ReadChunk?
        invariant Valid() && Whole() == old(Whole())
        decreases if state.WriteChunk_? then 2 else if state.ReadChunk? then 1 else 0,
                  if state.WriteChunk_? then |wchunks| - wchunkIdx else 0,
                  rmax - |rbuf|, READ_MAX_RETRIES - rretries
      {
        if state.WriteChunk_? {
          WriteStep();
        } else {
          ReadStep();
        }
      }
      r := if state.MarkedFailed? then Failed(state.why) else Ok(rbuf);
      assert trace + [] == trace;
    }
  }

  lemma WriteFirst<D>(dev: Device<D>, d: D, ts: seq<Transfer>, respMax: nat)
    requires ts != []
    ensures var (d', a) := dev(d, Out(ts[0]));
            CmdRun(dev, d, ts, respMax) ==
            if a.Data? then Before(Out(ts[0]), CmdRun(dev, d', ts[1..], respMax))
            else Run([Out(ts[0])], d', Failed(a))
  {
    hide ReadRun;
    var (d', a) := dev(d, Out(ts[0]));
    if a.Data? {
      var w := WriteRun(dev, d', ts[1..]);
      Associates([Out(ts[0])], w.trace, ReadRun(dev, READ_MAX_RETRIES, w.dev, respMax).trace);
    }
  }

  /** `verimark_cmd`: what the asynchronous machine does is what the synchronous exchange does. */
  method Cmd<D>(dev: Device<D>, d0: D, cmd: Bytes, respMax: nat)
      returns (r: Result, d: D, trace: seq<Ctrl>)
    ensures Run(trace, d, r) == CmdRun(dev, d0, SentTransfers(cmd), respMax)
  {
    var ssm := new CmdSsm(dev, d0, cmd, respMax);
    r := ssm.Start();
    d, trace := ssm.d, ssm.trace;
  }

  // -------------------------------------------------------- what is on the wire

  /** One control transfer with the device's answer. */
  datatype Leg = Leg(ctrl: Ctrl, answer: Answer)

  /** The device's answers to these transfers, from state `d` on. */
  function Legs<D>(dev: Device<D>, d: D, trace: seq<Ctrl>): (legs: seq<Leg>)
    ensures |legs| == |trace|
    ensures forall i :: 0 <= i < |trace| ==> legs[i].ctrl == trace[i]
    decreases |trace|
  {
    if trace == [] then []
    else
      var (d', a) := dev(d, trace[0]);
      [Leg(trace[0], a)] + Legs(dev, d', trace[1..])
  }

  /** What the legs of a read have brought. */
  function Brought(legs: seq<Leg>): Bytes {
    if legs == [] then []
    else
      var x := legs[|legs| - 1];
      Brought(legs[..|legs| - 1]) + if x.answer.Data? && x.ctrl.In? then Clip(x.answer.bytes, x.ctrl.want) else []
  }

  predicate AnyData(legs: seq<Leg>) {
    exists i :: 0 <= i < |legs| && legs[i].answer.Data?
  }

  /** How many timeouts in a row end with the last leg. */
  function Late(legs: seq<Leg>): nat {
    if legs == [] || !legs[|legs| - 1].answer.TimedOut? then 0 else 1 + Late(legs[..|legs| - 1])
  }

  /**
   * The request of the last leg, from those before it: a control-IN for what is
   * left, at most 4096 bytes. Bit 0x4000 says that a chunk has already arrived,
   * bit 0x8000 that a whole 4096 bytes are asked for.
   */
  predicate RightRequest(rmax: nat, legs: seq<Leg>)
    requires legs != []
  {
    var before, ctrl := legs[..|legs| - 1], legs[|legs| - 1].ctrl;
    var left := rmax - |Brought(before)|;
    && left > 0 && ctrl.In?
    && ctrl.want == (if left < 4096 then left else 4096)
    && ctrl.wvalue == (if AnyData(before) then 0x4000 else 0) + (if left >= 4096 then 0x8000 else 0)
  }

  /** The last leg does not end a read: a timeout that is tolerated, or a full chunk with more to come. */
  predicate GoesOn(patience: nat, rmax: nat, legs: seq<Leg>)
    requires legs != []
  {
    var x := legs[|legs| - 1];
    || (x.answer.TimedOut? && Late(legs) < patience)
    || (x.answer.Data? && x.ctrl.In? && |x.answer.bytes| >= x.ctrl.want && |Brought(legs)| < rmax)
  }

  /** The last leg ends the read, with this result. */
  predicate EndsWith(patience: nat, rmax: nat, legs: seq<Leg>, result: Result)
    requires legs != []
  {
    var x := legs[|legs| - 1];
    match x.answer
    case Fault(_) => result == Failed(x.answer)
    case TimedOut => Late(legs) >= patience && result == Failed(TimedOut)
    case Data(b) => x.ctrl.In? && (|b| < x.ctrl.want || |Brought(legs)| >= rmax) && result == Ok(Brought(legs))
  }

  /** A whole read, leg by leg. */
  ghost predicate RightRead(patience: nat, rmax: nat, legs: seq<Leg>, result: Result) {
    && legs != []
    && (forall i :: 0 < i <= |legs| ==> RightRequest(rmax, legs[..i]))
    && (forall i :: 0 < i < |legs| ==> GoesOn(patience, rmax, legs[..i]))
    && EndsWith(patience, rmax, legs, result)
  }

  lemma OneLeg(legs: seq<Leg>, x: Leg)
    ensures var more := legs + [x];
      && Brought(more)
         == Brought(legs) + (if x.answer.Data? && x.ctrl.In? then Clip(x.answer.bytes, x.ctrl.want) else [])
      && (AnyData(more) <==> AnyData(legs) || x.answer.Data?)
      && Late(more) == if x.answer.TimedOut? then 1 + Late(legs) else 0
  {
    var more := legs + [x];
    assert more[..|legs|] == legs && more[|legs|] == x;
    assert forall i :: 0 <= i < |legs| ==> more[i] == legs[i];
  }

  /** The first part of a read: every leg is right, and none ends it. */
  ghost predicate Underway(patience: nat, rmax: nat, legs: seq<Leg>) {
    forall i :: 0 < i <= |legs| ==> RightRequest(rmax, legs[..i]) && GoesOn(patience, rmax, legs[..i])
  }

  lemma UnderwayMore(patience: nat, rmax: nat, legs: seq<Leg>, x: Leg)
    requires Underway(patience, rmax, legs) && RightRequest(rmax, legs + [x])
    ensures GoesOn(patience, rmax, legs + [x]) ==> Underway(patience, rmax, legs + [x])
    ensures forall result ::
      EndsWith(patience, rmax, legs + [x], result) ==> RightRead(patience, rmax, legs + [x], result)
  {
    var more := legs + [x];
    assert more[..|more|] == more;
    assert forall i :: 0 <= i <= |legs| ==> more[..i] == legs[..i];
  }

  lemma {:induction false} ReadFromIsRight<D>(dev: Device<D>, budget: nat, d: D, rmax: nat, acc: Bytes, first: bool,
        retries: nat, before: seq<Leg>)
    requires retries <= budget && |acc| < rmax && Underway(budget + 1, rmax, before)
    requires Brought(before) == acc && (first <==> !AnyData(before)) && Late(before) == retries
    ensures var run := ReadFrom(dev, budget, d, rmax, acc, first, retries);
            RightRead(budget + 1, rmax, before + Legs(dev, d, run.trace), run.result)
    decreases rmax - |acc|, budget - retries
  {
    hide RightRead, Underway, Brought, AnyData, Late;
    var run := ReadFrom(dev, budget, d, rmax, acc, first, retries);
    var (want, wvalue) := NextRead(rmax - |acc|, first);
    var c := In(wvalue, want);
    var (d', a) := dev(d, c);
    var x := Leg(c, a);
    var more := before + [x];
    OneLeg(before, x);
    assert more[..|more| - 1] == before;
    UnderwayMore(budget + 1, rmax, before, x);
    assert run.trace[0] == c;
    var rest := run.trace[1..];
    Associates(before, [x], Legs(dev, d', rest));
    assert Legs(dev, d, run.trace) == [x] + Legs(dev, d', rest);
    if a.TimedOut? && retries < budget {
      ReadFromIsRight(dev, budget, d', rmax, acc, first, retries + 1, more);
    } else if a.Data? && |Clip(a.bytes, want)| == want && |acc| + want < rmax {
      ReadFromIsRight(dev, budget, d', rmax, acc + Clip(a.bytes, want), false, 0, more);
    } else {
      ReadRetries(dev, budget, d, rmax, acc, first, retries);
      ReadTakes(dev, budget, d, rmax, acc, first, retries);
      if a.Data? && |Clip(a.bytes, want)| == want {
        ReadDone(dev, budget, d', rmax, acc + Clip(a.bytes, want), false, 0);
      }
      assert rest == [];
      assert more + [] == more;
      assert EndsWith(budget + 1, rmax, more, run.result);
    }
  }

  /** Every read of the driver, against any device: its requests, how long it goes on, and its result. */
  lemma DriverReadIsRight<D>(dev: Device<D>, d: D, respMax: nat)
    ensures var run := ReadRun(dev, READ_MAX_RETRIES, d, respMax);
            RightRead(26, if respMax == 0 then 1 else respMax, Legs(dev, d, run.trace), run.result)
  {
    NothingUnderway(26, Max(respMax, 1));
    ReadFromIsRight(dev, READ_MAX_RETRIES, d, Max(respMax, 1), [], true, 0, []);
    var legs := Legs(dev, d, ReadRun(dev, READ_MAX_RETRIES, d, respMax).trace);
    assert [] + legs == legs;
  }

  /** And every read of the reference. */
  lemma ReferenceReadIsRight<D>(dev: Device<D>, d: D, respMax: nat)
    ensures var run := ReadRun(dev, REFERENCE_RETRIES, d, respMax);
            RightRead(25, if respMax == 0 then 1 else respMax, Legs(dev, d, run.trace), run.result)
  {
    NothingUnderway(25, Max(respMax, 1));
    ReadFromIsRight(dev, REFERENCE_RETRIES, d, Max(respMax, 1), [], true, 0, []);
    var legs := Legs(dev, d, ReadRun(dev, REFERENCE_RETRIES, d, respMax).trace);
    assert [] + legs == legs;
  }

  lemma NothingUnderway(patience: nat, rmax: nat)
    ensures Underway(patience, rmax, []) && Brought([]) == [] && !AnyData([]) && Late([]) == 0
  {
  }

  /** A whole write, leg by leg: the transfers in order, up to the first that is not accepted. */
  ghost predicate RightWrite(ts: seq<Transfer>, legs: seq<Leg>, result: Result) {
    && |legs| <= |ts|
    && (forall i :: 0 <= i < |legs| ==> legs[i].ctrl == Out(ts[i]))
    && (forall i :: 0 <= i < |legs| - 1 ==> legs[i].answer.Data?)
    && if legs != [] && !legs[|legs| - 1].answer.Data? then result == Failed(legs[|legs| - 1].answer)
       else |legs| == |ts| && result == Ok([])
  }

  lemma RightWriteMore(ts: seq<Transfer>, x: Leg, rest: seq<Leg>, result: Result)
    requires ts != [] && x.ctrl == Out(ts[0])
    requires if x.answer.Data? then RightWrite(ts[1..], rest, result) else rest == [] && result == Failed(x.answer)
    ensures RightWrite(ts, [x] + rest, result)
  {
    var legs := [x] + rest;
    forall i | 0 <= i < |legs| ensures legs[i].ctrl == Out(ts[i]) {
      assert i > 0 ==> legs[i] == rest[i - 1] && ts[i] == ts[1..][i - 1];
    }
    forall i | 0 <= i < |legs| - 1 ensures legs[i].answer.Data? {
      assert i > 0 ==> legs[i] == rest[i - 1];
    }
    assert rest != [] ==> legs[|legs| - 1] == rest[|rest| - 1];
  }

  lemma {:induction false} WriteIsRight<D>(dev: Device<D>, d: D, ts: seq<Transfer>)
    ensures var run := WriteRun(dev, d, ts); RightWrite(ts, Legs(dev, d, run.trace), run.result)
    decreases |ts|
  {
    if ts != [] {
      hide RightWrite;
      var (d', a) := dev(d, Out(ts[0]));
      var run := WriteRun(dev, d, ts);
      var rest := if a.Data? then WriteRun(dev, d', ts[1..]).trace else [];
      assert run.trace == [Out(ts[0])] + rest;
      assert run.trace[0] == Out(ts[0]) && run.trace[1..] == rest;
      assert Legs(dev, d, run.trace) == [Leg(Out(ts[0]), a)] + Legs(dev, d', rest);
      if a.Data? {
        WriteIsRight(dev, d', ts[1..]);
      }
      RightWriteMore(ts, Leg(Out(ts[0]), a), Legs(dev, d', rest), run.result);
    }
  }

  lemma {:induction false} LegsSplit<D>(dev: Device<D>, d: D, a: seq<Ctrl>, b: seq<Ctrl>) returns (mid: D)
    ensures Legs(dev, d, a + b) == Legs(dev, d, a) + Legs(dev, mid, b)
    ensures mid == DeviceAfter(dev, d, a)
    decreases |a|
  {
    if a == [] {
      assert a + b == b;
      mid := d;
    } else {
      assert (a + b)[0] == a[0] && (a + b)[1..] == a[1..] + b;
      mid := LegsSplit(dev, dev(d, a[0]).0, a[1..], b);
    }
  }

  function DeviceAfter<D>(dev: Device<D>, d: D, trace: seq<Ctrl>): D
    decreases |trace|
  {
    if trace == [] then d else DeviceAfter(dev, dev(d, trace[0]).0, trace[1..])
  }

  lemma {:induction false} WriteLeaves<D>(dev: Device<D>, d: D, ts: seq<Transfer>)
    ensures var run := WriteRun(dev, d, ts); run.dev == DeviceAfter(dev, d, run.trace)
    decreases |ts|
  {
    if ts != [] {
      var run := WriteRun(dev, d, ts);
      var (d', a) := dev(d, Out(ts[0]));
      WriteLeaves(dev, d', ts[1..]);
      assert run.trace[0] == Out(ts[0]);
      if a.Data? {
        assert run.trace[1..] == WriteRun(dev, d', ts[1..]).trace;
      } else {
        assert run.trace[1..] == [];
      }
    }
  }

  /**
   * A command on the wire, against any device: first the write, and only if all
   * of it was accepted the read.
   */
  lemma CommandIsRight<D>(dev: Device<D>, d: D, ts: seq<Transfer>, respMax: nat) returns (k: nat)
    ensures var run := CmdRun(dev, d, ts, respMax); var legs := Legs(dev, d, run.trace);
      && k <= |legs|
      && if k == |legs| then run.result.Failed? && RightWrite(ts, legs, run.result)
         else RightWrite(ts, legs[..k], Ok([]))
              && RightRead(26, if respMax == 0 then 1 else respMax, legs[k..], run.result)
  {
    hide RightWrite, RightRead, ReadRun, WriteRun;
    var w := WriteRun(dev, d, ts);
    WriteIsRight(dev, d, ts);
    WriteLeaves(dev, d, ts);
    k := |w.trace|;
    if w.result.Ok? {
      var r := ReadRun(dev, READ_MAX_RETRIES, w.dev, respMax);
      var mid := LegsSplit(dev, d, w.trace, r.trace);
      DriverReadIsRight(dev, w.dev, respMax);
      ReadIsSome(26, if respMax == 0 then 1 else respMax, Legs(dev, w.dev, r.trace), r.result);
      WriteOk(ts, Legs(dev, d, w.trace), w.result);
    }
  }

  lemma ReadIsSome(patience: nat, rmax: nat, legs: seq<Leg>, result: Result)
    requires RightRead(patience, rmax, legs, result)
    ensures legs != []
  {
  }

  lemma WriteOk(ts: seq<Transfer>, legs: seq<Leg>, result: Result)
    requires RightWrite(ts, legs, result) && result.Ok?
    ensures result == Ok([])
  {
  }

  // ------------------------------------------------------ what a read achieves

  /** How many chunks a read of up to `n` bytes can take. */
  function ChunksFor(n: int): nat {
    if n <= 0 then 0 else (n + MAX_CHUNK - 1) / MAX_CHUNK
  }

  /** A full chunk less to read is one chunk less, with all its attempts. */
  lemma OneChunkLess(budget: nat, n: nat, first: bool)
    requires n > 0
    ensures var want := NextRead(n, first).0;
            (budget + 1) * ChunksFor(n) == (budget + 1) * ChunksFor(n - want) + (budget + 1)
            && (budget + 1) * ChunksFor(n - want) >= 0
  {
    var rest := ChunksFor(n - NextRead(n, first).0);
    assert ChunksFor(n) == rest + 1;
    assert (budget + 1) * (rest + 1) == (budget + 1) * rest + (budget + 1);
  }

  /** Whatever the device does, a read returns at most `rmax` bytes and is bounded. */
  lemma {:induction false} ReadBound<D>(dev: Device<D>, budget: nat, d: D, rmax: nat, acc: Bytes, first: bool,
        retries: nat)
    requires retries <= budget && |acc| <= rmax
    ensures var run := ReadFrom(dev, budget, d, rmax, acc, first, retries);
            && (run.result.Ok? ==> |run.result.bytes| <= rmax && acc <= run.result.bytes)
            && |run.trace| <= Max(0, (budget + 1) * ChunksFor(rmax - |acc|) - retries)
    decreases rmax - |acc|, budget - retries
  {
    hide ChunksFor, NextRead;
    if |acc| < rmax {
      var (want, wvalue) := NextRead(rmax - |acc|, first);
      var (d', a) := dev(d, In(wvalue, want));
      OneChunkLess(budget, rmax - |acc|, first);
      match a
      case TimedOut =>
        if retries < budget {
          ReadBound(dev, budget, d', rmax, acc, first, retries + 1);
        }
      case Fault(_) =>
      case Data(b) =>
        var got := Clip(b, want);
        if |got| == want {
          ReadBound(dev, budget, d', rmax, acc + got, false, 0);
        }
    }
  }

  /** Every read of the driver is over after 26 control-INs for each chunk. */
  lemma DriverReadBound<D>(dev: Device<D>, d: D, respMax: nat)
    ensures var run := ReadRun(dev, READ_MAX_RETRIES, d, respMax);
            && |run.trace| <= 26 * ChunksFor(Max(respMax, 1))
            && (run.result.Ok? ==> |run.result.bytes| <= Max(respMax, 1))
  {
    ReadBound(dev, READ_MAX_RETRIES, d, Max(respMax, 1), [], true, 0);
  }

  /** A device with a reply to serve, not ready `stalls[0]` times before the next chunk, and so on. */
  datatype Replier = Replier(left: Bytes, stalls: seq<nat>)

  function Serve(r: Replier, c: Ctrl): (Replier, Answer) {
    match c
    case Out(_) => (r, Data([]))
    case In(_, want) =>
      if r.stalls != [] && r.stalls[0] > 0 then (r.(stalls := r.stalls[0 := r.stalls[0] - 1]), TimedOut)
      else
        var n := Min(want, |r.left|);
        (Replier(r.left[n..], if r.stalls == [] then [] else r.stalls[1..]), Data(r.left[..n]))
  }

  ghost predicate Patient(stalls: seq<nat>, budget: nat, retries: nat) {
    forall i :: 0 <= i < |stalls| ==> stalls[i] + (if i == 0 then retries else 0) <= budget
  }

  lemma {:induction false} ServesFrom(budget: nat, r: Replier, rmax: nat, acc: Bytes, first: bool, retries: nat)
    requires retries <= budget && Patient(r.stalls, budget, retries) && |acc| <= rmax
    ensures ReadFrom(Serve, budget, r, rmax, acc, first, retries).result
         == Ok(acc + r.left[..Min(|r.left|, rmax - |acc|)])
    decreases rmax - |acc|, budget - retries
  {
    hide NextRead;
    if |acc| < rmax {
      var (want, wvalue) := NextRead(rmax - |acc|, first);
      var (r', a) := Serve(r, In(wvalue, want));
      if a.TimedOut? {
        ServesFrom(budget, r', rmax, acc, first, retries + 1);
      } else {
        var got := a.bytes;
        assert Clip(got, want) == got;
        assert Patient(r'.stalls, budget, 0) by {
          forall i | 0 <= i < |r'.stalls| ensures r'.stalls[i] <= budget {
            assert r'.stalls[i] == r.stalls[i + 1];
          }
        }
        if |got| == want {
          ServesFrom(budget, r', rmax, acc + got, false, 0);
          assert acc + got + r'.left[..Min(|r'.left|, rmax - |acc + got|)]
              == acc + r.left[..Min(|r.left|, rmax - |acc|)];
        }
      }
    } else {
      assert acc + r.left[..0] == acc;
    }
  }

  /** A reply served with at most 25 not-ready answers before each chunk arrives, cut to the budget. */
  lemma ReadReturnsReply(reply: Bytes, stalls: seq<nat>, respMax: nat)
    requires forall i :: 0 <= i < |stalls| ==> stalls[i] <= READ_MAX_RETRIES
    ensures ReadRun(Serve, READ_MAX_RETRIES, Replier(reply, stalls), respMax).result
         == Ok(reply[..Min(|reply|, Max(respMax, 1))])
  {
    var n := Min(|reply|, Max(respMax, 1));
    ServesFrom(READ_MAX_RETRIES, Replier(reply, stalls), Max(respMax, 1), [], true, 0);
    assert [] + reply[..n] == reply[..n];
  }

  // ----------------------------------------------- the driver and the reference

  /** The driver's read meets a chunk that is not ready more often than the reference tolerates. */
  predicate Stalls<D>(dev: Device<D>, d: D, rmax: nat, acc: Bytes, first: bool, retries: nat)
    requires retries <= READ_MAX_RETRIES
    decreases rmax - |acc|, READ_MAX_RETRIES - retries
  {
    |acc| < rmax &&
    if retries == READ_MAX_RETRIES then true
    else
      var (want, wvalue) := NextRead(rmax - |acc|, first);
      var (d', a) := dev(d, In(wvalue, want));
      (a.TimedOut? && Stalls(dev, d', rmax, acc, first, retries + 1))
      || (a.Data? && |Clip(a.bytes, want)| == want && Stalls(dev, d', rmax, acc + Clip(a.bytes, want), false, 0))
  }

  lemma {:induction false} ReferenceFrom<D>(dev: Device<D>, d: D, rmax: nat, acc: Bytes, first: bool, retries: nat)
    requires retries <= REFERENCE_RETRIES
    ensures var driver := ReadFrom(dev, READ_MAX_RETRIES, d, rmax, acc, first, retries);
            var reference := ReadFrom(dev, REFERENCE_RETRIES, d, rmax, acc, first, retries);
            if Stalls(dev, d, rmax, acc, first, retries)
            then reference.result == Failed(TimedOut) && |driver.trace| > |reference.trace|
            else driver == reference
    decreases rmax - |acc|, READ_MAX_RETRIES - retries
  {
    if |acc| < rmax {
      var (want, wvalue) := NextRead(rmax - |acc|, first);
      var (d', a) := dev(d, In(wvalue, want));
      match a
      case TimedOut =>
        if retries < REFERENCE_RETRIES {
          ReferenceFrom(dev, d', rmax, acc, first, retries + 1);
        } else {
          assert Stalls(dev, d', rmax, acc, first, READ_MAX_RETRIES);
          assert ReadFrom(dev, READ_MAX_RETRIES, d', rmax, acc, first, READ_MAX_RETRIES).trace != [];
        }
      case Fault(_) =>
      case Data(b) =>
        var got := Clip(b, want);
        if |got| == want {
          ReferenceFrom(dev, d', rmax, acc + got, false, 0);
        }
    }
  }

  /**
   * Driver and reference do the same exactly when no chunk is not ready 25
   * times in a row: the driver then tries a 26th time, the reference gives up.
   */
  lemma DriverIsReferenceIff<D>(dev: Device<D>, d: D, respMax: nat)
    ensures ReadRun(dev, READ_MAX_RETRIES, d, respMax) == ReadRun(dev, REFERENCE_RETRIES, d, respMax)
       <==> !Stalls(dev, d, Max(respMax, 1), [], true, 0)
  {
    ReferenceFrom(dev, d, Max(respMax, 1), [], true, 0);
  }

  /**
   * Against a device that serves a reply, chunk `i` of a read is asked for
   * exactly if the budget and the reply both reach its start.
   */
  predicate Asked(replyLen: nat, budget: int, i: nat) {
    i * MAX_CHUNK < budget && i * MAX_CHUNK <= replyLen
  }

  /** Some chunk that is asked for is not ready 25 times, counting the times it has already been asked for. */
  ghost predicate FullStall(r: Replier, budget: int, retries: nat) {
    exists i :: 0 <= i < |r.stalls| && Asked(|r.left|, budget, i) && StallsFully(r, retries, i)
  }

  predicate StallsFully(r: Replier, retries: nat, i: nat)
    requires i < |r.stalls|
  {
    r.stalls[i] + (if i == 0 then retries else 0) == READ_MAX_RETRIES
  }

  /** The next chunk arrives whole: what stalls later is what stalls in the rest. */
  lemma NextStall(r: Replier, budget: int, want: nat)
    requires r.stalls != [] && r.stalls[0] == 0 && 0 < want <= |r.left|
    requires want == Min(budget, MAX_CHUNK)
    ensures FullStall(r, budget, 0) <==> FullStall(Replier(r.left[want..], r.stalls[1..]), budget - want, 0)
  {
    var next := Replier(r.left[want..], r.stalls[1..]);
    if FullStall(r, budget, 0) {
      var i :| 0 <= i < |r.stalls| && Asked(|r.left|, budget, i) && StallsFully(r, 0, i);
      assert i > 0 && Asked(|next.left|, budget - want, i - 1) && StallsFully(next, 0, i - 1);
    }
    if FullStall(next, budget - want, 0) {
      var i :| 0 <= i < |next.stalls| && Asked(|next.left|, budget - want, i) && StallsFully(next, 0, i);
      assert Asked(|r.left|, budget, i + 1) && StallsFully(r, 0, i + 1);
    }
  }

  lemma SameStall(r: Replier, r': Replier, budget: int, retries: nat)
    requires r.stalls != [] && r.stalls[0] > 0 && r' == r.(stalls := r.stalls[0 := r.stalls[0] - 1])
    ensures FullStall(r, budget, retries) <==> FullStall(r', budget, retries + 1)
  {
    forall i | 0 <= i < |r.stalls| ensures StallsFully(r, retries, i) <==> StallsFully(r', retries + 1, i) {
    }
  }

  /** The chunk arrives: nothing stalls if it is short, and otherwise what stalls in the rest. */
  lemma ChunkStall(r: Replier, budget: int, retries: nat, want: nat)
    requires budget > 0 && want == Min(budget, MAX_CHUNK) && retries < READ_MAX_RETRIES
    requires r.stalls == [] || r.stalls[0] == 0
    ensures |r.left| < want ==> !FullStall(r, budget, retries)
    ensures |r.left| >= want ==>
              (FullStall(r, budget, retries) <==>
               FullStall(Replier(r.left[want..], if r.stalls == [] then [] else r.stalls[1..]), budget - want, 0))
  {
    if r.stalls != [] {
      assert FullStall(r, budget, retries) <==> FullStall(r, budget, 0) by {
        forall i | 0 <= i < |r.stalls| ensures StallsFully(r, retries, i) <==> StallsFully(r, 0, i) {
        }
      }
      if |r.left| >= want {
        NextStall(r, budget, want);
      }
    }
  }

  lemma {:induction false} ServeStallsIff(r: Replier, rmax: nat, acc: Bytes, first: bool, retries: nat)
    requires retries <= READ_MAX_RETRIES && Patient(r.stalls, READ_MAX_RETRIES, retries)
    requires retries > 0 ==> r.stalls != []
    ensures Stalls(Serve, r, rmax, acc, first, retries) <==> FullStall(r, rmax - |acc|, retries)
    decreases rmax - |acc|, READ_MAX_RETRIES - retries
  {
    var budget := rmax - |acc|;
    if budget > 0 {
      assert Asked(|r.left|, budget, 0);
      if retries == READ_MAX_RETRIES {
        assert StallsFully(r, retries, 0);
      } else {
        var (want, wvalue) := NextRead(budget, first);
        var (r', a) := Serve(r, In(wvalue, want));
        if a.TimedOut? {
          ServeStallsIff(r', rmax, acc, first, retries + 1);
          SameStall(r, r', budget, retries);
        } else {
          ChunkStall(r, budget, retries, want);
          assert Clip(a.bytes, want) == a.bytes;
          if |r.left| >= want {
            PatientNext(r.stalls, READ_MAX_RETRIES, retries);
            ServeStallsIff(r', rmax, acc + a.bytes, false, 0);
          }
        }
      }
    }
  }

  lemma PatientNext(stalls: seq<nat>, budget: nat, retries: nat)
    requires Patient(stalls, budget, retries)
    ensures Patient(if stalls == [] then [] else stalls[1..], budget, 0)
  {
    forall i | 0 <= i < |stalls| - 1 ensures stalls[1..][i] <= budget {
      assert stalls[1..][i] == stalls[i + 1];
    }
  }

  /**
   * Against a device that is never late more than 25 times, driver and reference
   * do the same exactly when no chunk that is asked for is late exactly 25 times.
   */
  lemma SameReadIff(reply: Bytes, stalls: seq<nat>, respMax: nat)
    requires forall i :: 0 <= i < |stalls| ==> stalls[i] <= READ_MAX_RETRIES
    ensures ReadRun(Serve, READ_MAX_RETRIES, Replier(reply, stalls), respMax)
         == ReadRun(Serve, REFERENCE_RETRIES, Replier(reply, stalls), respMax)
       <==> forall i :: 0 <= i < |stalls| && Asked(|reply|, Max(respMax, 1), i) ==> stalls[i] < READ_MAX_RETRIES
  {
    var d := Replier(reply, stalls);
    DriverIsReferenceIff(Serve, d, respMax);
    ServeStallsIff(d, Max(respMax, 1), [], true, 0);
    if FullStall(d, Max(respMax, 1), 0) {
      var i :| 0 <= i < |stalls| && Asked(|reply|, Max(respMax, 1), i) && StallsFully(d, 0, i);
      assert stalls[i] == READ_MAX_RETRIES;
    } else {
      forall i | 0 <= i < |stalls| && Asked(|reply|, Max(respMax, 1), i) ensures stalls[i] < READ_MAX_RETRIES {
        assert !StallsFully(d, 0, i);
      }
    }
  }

  /** And they do differ: a first chunk that is late 25 times reaches the driver, and the reference gives up. */
  lemma WhereTheyDiffer(reply: Bytes, respMax: nat)
    ensures var d := Replier(reply, [READ_MAX_RETRIES]);
            && ReadRun(Serve, READ_MAX_RETRIES, d, respMax).result == Ok(reply[..Min(|reply|, Max(respMax, 1))])
            && ReadRun(Serve, REFERENCE_RETRIES, d, respMax).result == Failed(TimedOut)
  {
    var d := Replier(reply, [READ_MAX_RETRIES]);
    ReadReturnsReply(reply, [READ_MAX_RETRIES], respMax);
    ServeStallsIff(d, Max(respMax, 1), [], true, 0);
    assert Asked(|reply|, Max(respMax, 1), 0) && StallsFully(d, 0, 0);
    ReferenceFrom(Serve, d, Max(respMax, 1), [], true, 0);
  }
}
