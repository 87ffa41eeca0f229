/** Waiting for one kind of interrupt packet: short reads, one after another, until it comes or time is up. */
module Interrupt {
  import opened ByteStrings

  const ATTEMPT_MS: nat := 500

  datatype Arrival = Packet(bytes: Bytes) | NoneYet | Broken(code: int)

  /** A read that ended at `at`; if the machine reads again, its handler looks at the clock at `again`. */
  datatype Read = Read(arrival: Arrival, at: int, again: int)

  /** The callback: a packet with its sequence byte, no packet, or an error. */
  datatype Call = Got(seqNo: byte) | NotGot | Error(code: int)

  /** A read submitted at `at` that may take `ms` milliseconds. */
  datatype Submit = Submit(at: int, ms: int)

  datatype Wait = Wait(over: bool, submits: seq<Submit>, calls: seq<Call>, heard: seq<Read>)

  /** What is waited for; no deadline means for ever. */
  datatype Want = Want(kind: byte, deadline: Option<int>)

  // ------------------------------------------------------------- specification

  predicate Late(w: Want, now: int) {
    w.deadline.Some? && now >= w.deadline.value
  }

  predicate Wanted(w: Want, a: Arrival) {
    a.Packet? && |a.bytes| >= 1 && a.bytes[0] == w.kind
  }

  function SeqNo(b: Bytes): byte {
    if |b| > 6 then b[6] else 0
  }

  function Finish(s: Wait, call: Call): Wait {
    s.(over := true, calls := s.calls + [call])
  }

  /** How long a read submitted now may take: half a second, or what is left, rounded up. */
  function AttemptMs(w: Want, now: int): int {
    if w.deadline.None? then ATTEMPT_MS else Min(ATTEMPT_MS, (w.deadline.value - now + 999) / 1000)
  }

  function Submitted(w: Want, s: Wait, now: int): Wait {
    if Late(w, now) then Finish(s, NotGot) else s.(submits := s.submits + [Submit(now, AttemptMs(w, now))])
  }

  function Begin(w: Want, now: int): Wait {
    Submitted(w, Wait(false, [], [], []), now)
  }

  function Step(w: Want, s: Wait, r: Read): Wait {
    if s.over then s
    else
      var s' := s.(heard := s.heard + [r]);
      if r.arrival.Broken? then Finish(s', Error(r.arrival.code))
      else if Wanted(w, r.arrival) then Finish(s', Got(SeqNo(r.arrival.bytes)))
      else if Late(w, r.at) then Finish(s', NotGot)
      else Submitted(w, s', r.again)
  }

  // --------------------------------------------------------------- the machine

  class IntrSsm {
    const kind: byte
    const deadline: Option<int>
    var over: bool
    var got: bool
    var seqNo: byte
    var submits: seq<Submit>
    var calls: seq<Call>
    ghost var heard: seq<Read>

    function Given(): Want {
      Want(kind, deadline)
    }

    ghost function State(): Wait
      reads this
    {
      Wait(over, submits, calls, heard)
    }

    /** A timeout of 0 stands for no timeout. */
    constructor (kind: byte, timeoutMs: nat, now: int, again: int)
      ensures Given() == Want(kind, if timeoutMs == 0 then None else Some(now + timeoutMs * 1000))
      ensures State() == Begin(Given(), again)
    {
      this.kind := kind;
      deadline := if timeoutMs == 0 then None else Some(now + timeoutMs * 1000);
      over, got, seqNo, submits, calls, heard := false, false, 0, [], [], [];
      new;
      Handler(again);
    }

    /** The machine is done; the callback gets what was found, or the error. */
    method Completed(error: Option<int>)
      modifies this`over, this`calls
      ensures var call := if error.Some? then Error(error.value) else if got then Got(seqNo) else NotGot;
              State() == Finish(old(State()), call)
    {
      over := true;
      calls := calls + [if error.Some? then Error(error.value) else if got then Got(seqNo) else NotGot];
    }

    method Handler(now: int)
      modifies this`over, this`calls, this`submits, this`got
      ensures State() == Submitted(Given(), old(State()), now)
    {
      var attempt: int := ATTEMPT_MS;
      if deadline.Some? {
        var remaining := deadline.value - now;
        if remaining <= 0 {
          got := false;
          Completed(None);
          return;
        }
        attempt := Min(ATTEMPT_MS, (remaining + 999) / 1000);
      }
      submits := submits + [Submit(now, attempt)];
    }

    method OnReadDone(r: Read)
      modifies this
      ensures State() == Step(Given(), old(State()), r)
    {
      if over {
        return;
      }
      heard := heard + [r];
      if r.arrival.Broken? {
        Completed(Some(r.arrival.code));
        return;
      }
      if r.arrival.Packet? && |r.arrival.bytes| >= 1 && r.arrival.bytes[0] == kind {
        got := true;
        seqNo := if |r.arrival.bytes| > 6 then r.arrival.bytes[6] else 0;
        Completed(None);
        return;
      }
      if deadline.Some? && r.at >= deadline.value {
        got := false;
        Completed(None);
        return;
      }
      Handler(r.again);
    }
  }

  // ----------------------------------------------------------------- whole runs

  function After(w: Want, now: int, rs: seq<Read>): Wait
    decreases |rs|
  {
    if rs == [] then Begin(w, now) else Step(w, After(w, now, rs[..|rs| - 1]), rs[|rs| - 1])
  }

  /** What ends the wait after these reads, if anything does: the last read, or the deadline. */
  function Ends(w: Want, now: int, heard: seq<Read>): Option<Call> {
    if heard == [] then
      if w.deadline.Some? && now >= w.deadline.value then Some(NotGot) else None
    else
      var last := heard[|heard| - 1];
      var late := w.deadline.Some? && (last.at >= w.deadline.value || last.again >= w.deadline.value);
      match last.arrival
      case Broken(code) => Some(Error(code))
      case NoneYet => if late then Some(NotGot) else None
      case Packet(b) =>
        if b != [] && b[0] == w.kind then Some(Got(if |b| > 6 then b[6] else 0))
        else if late then Some(NotGot)
        else None
  }

  /**
   * A read submitted at `at`: for half a second, or for the fewest milliseconds
   * that reach the deadline if that is sooner.
   */
  predicate RightSubmit(w: Want, at: int, x: Submit) {
    && x.at == at
    && if w.deadline.None? then x.ms == 500
       else
         var left := w.deadline.value - at;
         1 <= x.ms <= 500 && 1000 * (x.ms - 1) < left && (x.ms == 500 || left <= 1000 * x.ms)
  }

  /** Reads follow one another until something ends the wait; then the callback comes once, with just that. */
  predicate Sound(w: Want, now: int, s: Wait) {
    && (forall i :: 0 <= i < |s.heard| ==> Ends(w, now, s.heard[..i]) == None)
    && s.over == Ends(w, now, s.heard).Some?
    && s.calls == (match Ends(w, now, s.heard) case None => [] case Some(call) => [call])
    && |s.submits| == |s.heard| + (if s.over then 0 else 1)
    && forall i :: 0 <= i < |s.submits| ==>
         RightSubmit(w, if i == 0 then now else s.heard[i - 1].again, s.submits[i])
  }

  lemma SubmitIsRight(w: Want, at: int)
    requires !Late(w, at)
    ensures RightSubmit(w, at, Submit(at, AttemptMs(w, at)))
  {
  }

  lemma StepIsSound(w: Want, now: int, s: Wait, r: Read)
    requires Sound(w, now, s)
    ensures Sound(w, now, Step(w, s, r))
  {
    hide RightSubmit, AttemptMs;
    if !s.over {
      var s' := Step(w, s, r);
      assert s'.heard == s.heard + [r];
      forall i | 0 <= i < |s'.heard| ensures Ends(w, now, s'.heard[..i]) == None {
        assert i < |s.heard| ==> s'.heard[..i] == s.heard[..i];
        assert i == |s.heard| ==> s'.heard[..i] == s.heard;
      }
      if !Late(w, r.again) {
        SubmitIsRight(w, r.again);
      }
      forall i | 0 <= i < |s'.submits|
        ensures RightSubmit(w, if i == 0 then now else s'.heard[i - 1].again, s'.submits[i])
      {
        assert i < |s.submits| ==> s'.submits[i] == s.submits[i];
        assert 0 < i < |s.submits| ==> s'.heard[i - 1] == s.heard[i - 1];
      }
    }
  }

  /**
   * In every run the callback comes at most once, and exactly with what ends
   * the wait. It names the first packet of the wanted kind, even one that comes
   * late. Nothing that is read is left out before that.
   */
  lemma {:induction false} FirstWantedPacket(w: Want, now: int, rs: seq<Read>)
    ensures var s := After(w, now, rs); Sound(w, now, s) && s.heard <= rs && (s.over || s.heard == rs)
    decreases |rs|
  {
    hide Sound, Begin;
    if rs == [] {
      BeginIsSound(w, now);
    } else {
      FirstWantedPacket(w, now, rs[..|rs| - 1]);
      StepIsSound(w, now, After(w, now, rs[..|rs| - 1]), rs[|rs| - 1]);
      assert rs == rs[..|rs| - 1] + [rs[|rs| - 1]];
    }
  }

  lemma BeginIsSound(w: Want, now: int)
    ensures Sound(w, now, Begin(w, now)) && Begin(w, now).heard == []
  {
    hide RightSubmit, AttemptMs;
    if !Late(w, now) {
      SubmitIsRight(w, now);
    }
  }

  predicate StopsWait(kind: byte, a: Arrival) {
    a.Broken? || (a.Packet? && a.bytes != [] && a.bytes[0] == kind)
  }

  /** A wait without a deadline ends only with a wanted packet or an error. */
  lemma WaitsForEver(kind: byte, now: int, rs: seq<Read>)
    ensures var s := After(Want(kind, None), now, rs);
            s.over <==> (s.heard != [] && StopsWait(kind, s.heard[|s.heard| - 1].arrival))
  {
    hide After, RightSubmit;
    FirstWantedPacket(Want(kind, None), now, rs);
  }
}
