/**
 * What a capture does next, read off from what has happened so far: a table
 * over the exchanges alone, without the machine's state, and the proof that
 * every run obeys it.
 */
module CaptureLaw {
  import opened ByteStrings
  import opened Capture

  // ---------------------------------------------------------------- the replies

  function StatusWord(resp: Bytes): nat {
    if |resp| < 2 then 0 else (resp[0] as nat) + 256 * (resp[1] as nat)
  }

  /** A reply to EVENT_READ that carries events: success, and room for the header. */
  predicate CarriesEvents(resp: Bytes) {
    StatusWord(resp) == 0 && |resp| >= 6
  }

  function EventCount(resp: Bytes): nat {
    if CarriesEvents(resp) then (resp[2] as nat) + 256 * (resp[3] as nat) else 0
  }

  /** Event record `i` is there in full and is a frame-ready event. */
  predicate FrameReadyAt(resp: Bytes, i: nat) {
    6 + 12 * i + 12 <= |resp| && resp[6 + 12 * i] == 0x18
  }

  predicate FrameReady(resp: Bytes) {
    CarriesEvents(resp) && exists i :: 0 <= i < EventCount(resp) && FrameReadyAt(resp, i)
  }

  // ---------------------------------------------------------------- the history

  predicate IsPoll(x: Exchange) {
    x.cmd.EventRead? && x.event.outcome.Replied?
  }

  /** The event counter after these exchanges. */
  function Counter(start: word16, log: seq<Exchange>): word16 {
    if log == [] then start
    else
      var before, x := Counter(start, log[..|log| - 1]), log[|log| - 1];
      if x.cmd.EventConfig? && x.event.outcome.Replied? && |x.event.outcome.resp| >= 66 then
        (x.event.outcome.resp[64] as nat) + 256 * (x.event.outcome.resp[65] as nat)
      else if IsPoll(x) then (before + EventCount(x.event.outcome.resp)) % 65536
      else before
  }

  predicate FrameSeen(log: seq<Exchange>) {
    exists i :: 0 <= i < |log| && FrameSeenAt(log[i])
  }

  predicate FrameSeenAt(x: Exchange) {
    IsPoll(x) && FrameReady(x.event.outcome.resp)
  }

  /** What follows an exchange: the next command, or the end. */
  datatype Next = Sends(cmd: Cmd) | Ends(phase: Phase)

  /**
   * What follows the last of these exchanges. The fourth one is the frame
   * trigger, and the polling ends four seconds after it.
   */
  function Law(kind: byte, start: word16, log: seq<Exchange>): Next
    requires log != []
  {
    var x := log[|log| - 1];
    match x.event.outcome
    case Error(why) => Ends(Failed(why))
    case Press(got) => if got then Sends(EventConfig(0x0100_0000)) else Ends(Failed(Retry))
    case Replied(resp) =>
      match x.cmd
      case EventConfig(mask) =>
        if mask == 0x06 then Sends(AwaitPress) else if mask == 0 then Sends(FrameFinish) else Sends(FrameAcq(kind))
      case AwaitPress => Sends(AwaitPress)
      case FrameAcq(_) => Sends(EventRead(Counter(start, log)))
      case EventRead(_) =>
        if StatusWord(resp) != 0 && !(0x0405 <= StatusWord(resp) <= 0x0407) then Ends(Failed(Fault(StatusWord(resp))))
        else if FrameReady(resp) || |log| < 4 || x.event.now >= log[3].event.now + 4_000_000 then Sends(EventConfig(0))
        else Sends(EventRead(Counter(start, log)))
      case FrameFinish => Ends(if FrameSeen(log) then Completed else Failed(Retry))
  }

  /** A press wait ends with a press or without one, every other wait with a reply, and any of them with an error. */
  predicate Plausible(x: Exchange) {
    x.event.outcome.Error? || (x.cmd.AwaitPress? <==> x.event.outcome.Press?)
  }

  /** The command that is waited for after these exchanges, or the end. */
  function Pending(kind: byte, start: word16, log: seq<Exchange>): Next {
    if log == [] then Sends(EventConfig(0x06)) else Law(kind, start, log)
  }

  /** The exchanges that these events make up. What does not answer the pending command is not delivered. */
  function History(kind: byte, start: word16, es: seq<Event>): seq<Exchange>
    decreases |es|
  {
    if es == [] then []
    else
      var log, e := History(kind, start, es[..|es| - 1]), es[|es| - 1];
      match Pending(kind, start, log)
      case Ends(_) => log
      case Sends(cmd) => if Plausible(Exchange(cmd, e)) then log + [Exchange(cmd, e)] else log
  }

  // ------------------------------------------------------------------ the proof

  lemma SameReading(resp: Bytes)
    ensures StatusWord(resp) == StatusOf(resp) && EventCount(resp) == Reported(resp)
    ensures FrameReady(resp) <==> HasFrame(resp)
    ensures Unexpected(resp) <==> StatusWord(resp) != 0 && !(0x0405 <= StatusWord(resp) <= 0x0407)
  {
    assert StatusWord(resp) == StatusOf(resp) && EventCount(resp) == Reported(resp);
    forall i | 0 <= i < Reported(resp) ensures FrameReadyAt(resp, i) <==> FrameRecordAt(resp, i) {
    }
  }

  /** The exchange after the first `i` commands leads to command `i`, or to the end. */
  predicate ObeysAt(s: Cap, start: word16, i: nat)
    requires 0 < i <= |s.log| <= |s.sent|
  {
    Law(s.kind, start, s.log[..i]) == if i < |s.sent| then Sends(s.sent[i]) else Ends(s.phase)
  }

  /** The run so far is what the table says. */
  ghost predicate Obeys(s: Cap, start: word16) {
    && |s.sent| == |s.log| + (if Finished(s) then 0 else 1)
    && |s.sent| > 0 && s.sent[0] == EventConfig(0x06)
    && (forall i :: 0 <= i < |s.log| ==> s.log[i].cmd == s.sent[i])
    && (forall i :: 0 < i <= |s.log| ==> ObeysAt(s, start, i))
  }

  /** What the machine remembers of the history. */
  ghost predicate Remembers(s: Cap, start: word16) {
    && (!Finished(s) ==> |s.sent| > 0 && s.sent[|s.sent| - 1] == CmdOf(s))
    && s.eventSeq == Counter(start, s.log)
    && (s.phase == AcquireFrame ==> |s.log| == 3)
    && (s.phase == WaitFrame ==> |s.log| >= 4 && s.deadline == s.log[3].event.now + 4_000_000)
    && (s.phase == EventClear || s.phase == FinishFrame ==> (s.frameGot <==> FrameSeen(s.log)))
    && (s.phase in {ArmPress, WaitPress, ArmFrame, AcquireFrame, WaitFrame} ==> !FrameSeen(s.log))
    && (s.phase == ArmPress ==> s.log == [])
    && (s.phase == WaitPress ==> |s.log| == 1)
    && (s.phase == ArmFrame ==> |s.log| == 2)
  }

  lemma FrameSeenMore(log: seq<Exchange>, x: Exchange)
    ensures FrameSeen(log + [x]) <==> FrameSeen(log) || FrameSeenAt(x)
  {
    var more := log + [x];
    assert more[|log|] == x;
    assert forall i :: 0 <= i < |log| ==> more[i] == log[i];
  }

  lemma CounterMore(start: word16, log: seq<Exchange>, x: Exchange)
    ensures Counter(start, log + [x]) ==
      if x.cmd.EventConfig? && x.event.outcome.Replied? && |x.event.outcome.resp| >= 66 then
        (x.event.outcome.resp[64] as nat) + 256 * (x.event.outcome.resp[65] as nat)
      else if IsPoll(x) then (Counter(start, log) + EventCount(x.event.outcome.resp)) % 65536
      else Counter(start, log)
  {
    assert (log + [x])[..|log|] == log;
  }

  /** One step leads where the table says. */
  predicate Lawful(s: Cap, start: word16, s': Cap, log: seq<Exchange>)
    requires log != []
  {
    && s'.log == log && s'.kind == s.kind
    && s'.sent == s.sent + (if Finished(s') then [] else [CmdOf(s')])
    && Law(s.kind, start, log) == (if Finished(s') then Ends(s'.phase) else Sends(CmdOf(s')))
    && s'.eventSeq == Counter(start, log)
  }

  lemma PollIsLaw(s: Cap, start: word16, now: int, resp: Bytes)
    requires s.phase == WaitFrame && Remembers(s, start)
    ensures var e := Event(now, Replied(resp)); var log := s.log + [Exchange(CmdOf(s), e)];
      Lawful(s, start, Step(s, e), log) && Remembers(Step(s, e), start)
  {
    hide HasFrame, Reported, Unexpected, FrameReady, EventCount, FrameSeen, Counter, FrameSeenAt;
    var e := Event(now, Replied(resp));
    var x := Exchange(CmdOf(s), e);
    FrameSeenMore(s.log, x);
    CounterMore(start, s.log, x);
    var log := s.log + [x];
    assert log[|s.log|] == x && log[3] == s.log[3];
    SameReading(resp);
    NotAPoll(x);
    PollCases(s.(log := log), now, resp);
    UnexpectedReportsNothing(resp);
    assert Step(s, e) == PollStep(s.(log := log), now, resp);
  }

  lemma UnexpectedReportsNothing(resp: Bytes)
    ensures Unexpected(resp) ==> Reported(resp) == 0
  {
  }

  lemma ReactIsLaw(s: Cap, start: word16, e: Event)
    requires Fits(s, e) && Remembers(s, start)
    ensures Lawful(s, start, Step(s, e), s.log + [Exchange(CmdOf(s), e)]) && Remembers(Step(s, e), start)
  {
    if s.phase == WaitFrame && e.outcome.Replied? {
      PollIsLaw(s, start, e.now, e.outcome.resp);
    } else {
      OtherIsLaw(s, start, e);
    }
  }

  lemma OtherIsLaw(s: Cap, start: word16, e: Event)
    requires Fits(s, e) && Remembers(s, start) && !(s.phase == WaitFrame && e.outcome.Replied?)
    ensures Lawful(s, start, Step(s, e), s.log + [Exchange(CmdOf(s), e)]) && Remembers(Step(s, e), start)
  {
    hide HasFrame, Reported, Unexpected, FrameReady, EventCount, FrameSeen, Counter, FrameSeenAt, PollStep;
    var x := Exchange(CmdOf(s), e);
    FrameSeenMore(s.log, x);
    CounterMore(start, s.log, x);
    var log := s.log + [x];
    assert log[|s.log|] == x;
    NotAPoll(x);
  }

  lemma NotAPoll(x: Exchange)
    ensures FrameSeenAt(x) <==> x.cmd.EventRead? && x.event.outcome.Replied? && FrameReady(x.event.outcome.resp)
  {
  }

  lemma StepObeys(s: Cap, start: word16, e: Event)
    requires Obeys(s, start) && Remembers(s, start)
    ensures Obeys(Step(s, e), start) && Remembers(Step(s, e), start)
  {
    hide Law, Remembers, React;
    if Fits(s, e) {
      ReactIsLaw(s, start, e);
      LastSent(s, start);
      var s' := Step(s, e);
      forall i | 0 < i <= |s'.log| ensures ObeysAt(s', start, i) {
        if i <= |s.log| {
          assert s'.log[..i] == s.log[..i];
          assert ObeysAt(s, start, i);
        } else {
          assert s'.log[..i] == s'.log;
        }
      }
    }
  }

  lemma LastSent(s: Cap, start: word16)
    requires Remembers(s, start) && !Finished(s)
    ensures |s.sent| > 0 && s.sent[|s.sent| - 1] == CmdOf(s)
  {
  }

  /** The machine waits for the command that the table names, or for none. */
  lemma WaitsForPending(s: Cap, start: word16)
    requires Obeys(s, start) && Remembers(s, start)
    ensures Pending(s.kind, start, s.log) == if Finished(s) then Ends(s.phase) else Sends(CmdOf(s))
  {
    hide Law;
    var n := |s.log|;
    if n > 0 {
      assert s.log[..n] == s.log;
      assert ObeysAt(s, start, n);
    }
  }

  lemma FitsIffPlausible(s: Cap, e: Event)
    requires !Finished(s)
    ensures Fits(s, e) <==> Plausible(Exchange(CmdOf(s), e))
  {
  }

  /**
   * In every run the exchanges, each command, and the end with its error are
   * what the table says.
   */
  lemma {:induction false} CaptureObeysLaw(kind: byte, start: word16, es: seq<Event>)
    ensures var s := After(kind, start, es);
      s.kind == kind && s.log == History(kind, start, es) && Obeys(s, start) && Remembers(s, start)
    decreases |es|
  {
    hide Law, Remembers, Obeys, Step, CmdOf, Fits, Plausible, Pending;
    if es == [] {
      StartObeys(kind, start);
    } else {
      CaptureObeysLaw(kind, start, es[..|es| - 1]);
      var s, e := After(kind, start, es[..|es| - 1]), es[|es| - 1];
      StepObeys(s, start, e);
      WaitsForPending(s, start);
      StepIsLogged(s, e);
      if !Finished(s) {
        FitsIffPlausible(s, e);
      }
    }
  }

  lemma StartObeys(kind: byte, start: word16)
    ensures var s := Start(kind, start); s.log == [] && s.kind == kind && Obeys(s, start) && Remembers(s, start)
  {
    assert !FrameSeen([]);
  }

  lemma StepIsLogged(s: Cap, e: Event)
    ensures Finished(s) ==> !Fits(s, e)
    ensures Step(s, e).log == if Fits(s, e) then s.log + [Exchange(CmdOf(s), e)] else s.log
    ensures Step(s, e).kind == s.kind
  {
    hide HasFrame, Reported, Unexpected;
  }

  // ----------------------------------------------------------------- how it ends

  /** The last exchange, and whether a frame was seen, say how a capture ends. */
  function Ending(log: seq<Exchange>): Option<Phase>
    requires log != []
  {
    var x := log[|log| - 1];
    match x.event.outcome
    case Error(why) => Some(Failed(why))
    case Press(got) => if got then None else Some(Failed(Retry))
    case Replied(resp) =>
      var status := StatusWord(resp);
      if x.cmd.FrameFinish? then Some(if FrameSeen(log) then Completed else Failed(Retry))
      else if x.cmd.EventRead? && status != 0 && status != 0x0405 && status != 0x0406 && status != 0x0407
      then Some(Failed(Fault(status)))
      else None
  }

  /** A capture is over exactly when its last exchange ends it, and then completed or failed with that error. */
  lemma EndsAsLastExchange(kind: byte, start: word16, es: seq<Event>)
    ensures var s := After(kind, start, es);
      if s.log == [] then !Finished(s)
      else Ending(s.log) == if Finished(s) then Some(s.phase) else None
  {
    hide After, History, Remembers, StatusWord, FrameReady, FrameSeen, Counter;
    CaptureObeysLaw(kind, start, es);
    var s := After(kind, start, es);
    WaitsForPending(s, start);
  }
}
