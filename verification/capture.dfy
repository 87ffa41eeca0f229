/**
 * The capture state machine against an arbitrary sensor and clock: arm,
 * wait for a press, trigger a frame, poll for the frame event, clear the
 * mask, finish the frame.
 */
module Capture {
  import opened ByteStrings

  const FRAME_TIMEOUT_US: int := 4_000_000
  const POLL_DELAY_US: int := 15_000
  const CONFIG_RESP_LEN: nat := 0x42
  const FRAME_READY: byte := 0x18

  const MASK_FINGER: nat := 0x06
  const MASK_FRAME: nat := 0x0100_0000
  const MASK_NONE: nat := 0

  /** An error is either one the user may retry or any other. */
  datatype Why = Retry | Fault(code: int)

  /** What a state sends when it is entered. */
  datatype Cmd = EventConfig(mask: nat) | AwaitPress | FrameAcq(kind: byte) | EventRead(eventSeq: word16) | FrameFinish

  datatype Phase =
    | ArmPress | WaitPress | ArmFrame | AcquireFrame | WaitFrame | EventClear | FinishFrame
    | Completed
    | Failed(why: Why)

  /** What came back: a decrypted reply, the end of the press wait, or an error. */
  datatype Outcome = Replied(resp: Bytes) | Press(got: bool) | Error(why: Why)

  datatype Event = Event(now: int, outcome: Outcome)

  /** A command and the event that ended the wait for its outcome. */
  datatype Exchange = Exchange(cmd: Cmd, event: Event)

  /**
   * `eventSeq` belongs to the device object and outlives the capture. `sent`
   * and `log` record what went out and what came back.
   */
  datatype Cap = Cap(phase: Phase, kind: byte, deadline: int, frameGot: bool, eventSeq: word16,
                     sent: seq<Cmd>, log: seq<Exchange>)

  // ------------------------------------------------------------- specification

  predicate Finished(s: Cap) {
    s.phase.Completed? || s.phase.Failed?
  }

  /** The command that the handler of the present phase sends. */
  function CmdOf(s: Cap): Cmd
    requires !Finished(s)
  {
    match s.phase
    case ArmPress => EventConfig(MASK_FINGER)
    case WaitPress => AwaitPress
    case ArmFrame => EventConfig(MASK_FRAME)
    case AcquireFrame => FrameAcq(s.kind)
    case WaitFrame => EventRead(s.eventSeq)
    case EventClear => EventConfig(MASK_NONE)
    case FinishFrame => FrameFinish
  }

  /** The machine enters `phase`, and its handler sends that phase's command. */
  function Enter(s: Cap, phase: Phase): Cap
    requires !phase.Completed? && !phase.Failed?
  {
    var s' := s.(phase := phase);
    s'.(sent := s'.sent + [CmdOf(s')])
  }

  function Start(kind: byte, eventSeq: word16): Cap {
    Enter(Cap(ArmPress, kind, 0, false, eventSeq, [], []), ArmPress)
  }

  /** The reply says "no events yet". */
  predicate NotReady(resp: Bytes) {
    0x0405 <= StatusOf(resp) <= 0x0407
  }

  /** The reply is neither a success nor "no events yet". */
  predicate Unexpected(resp: Bytes) {
    StatusOf(resp) != 0 && !NotReady(resp)
  }

  /** How many events a successful EVENT_READ reports, however many it carries. */
  function Reported(resp: Bytes): nat {
    if StatusOf(resp) == 0 && |resp| >= 6 then Le16At(resp, 2) else 0
  }

  /** One of the event records carried is a frame-ready event. */
  predicate HasFrame(resp: Bytes) {
    && StatusOf(resp) == 0 && |resp| >= 6
    && exists i :: 0 <= i < Reported(resp) && FrameRecordAt(resp, i)
  }

  predicate FrameRecordAt(resp: Bytes, i: nat) {
    6 + (i + 1) * 12 <= |resp| && resp[6 + i * 12] == FRAME_READY
  }

  function Rebase(s: Cap, resp: Bytes): Cap {
    if |resp| >= CONFIG_RESP_LEN then s.(eventSeq := Le16At(resp, 64)) else s
  }

  /** Where the reply to a mask command leads. */
  function NextPhase(p: Phase): Phase {
    if p == ArmPress then WaitPress else if p == ArmFrame then AcquireFrame else FinishFrame
  }

  function PollStep(s: Cap, now: int, resp: Bytes): Cap {
    if Unexpected(resp) then s.(phase := Failed(Fault(StatusOf(resp))))
    else
      var s' := s.(eventSeq := (s.eventSeq + Reported(resp)) % U16);
      if HasFrame(resp) then Enter(s'.(frameGot := true), EventClear)
      else if now >= s.deadline then Enter(s'.(frameGot := false), EventClear)
      else Enter(s', WaitFrame)
  }

  /** The press wait ends with a press or a timeout, every other wait with a reply, and any of them with an error. */
  predicate Fits(s: Cap, e: Event) {
    !Finished(s) && (e.outcome.Error? || (s.phase == WaitPress <==> e.outcome.Press?))
  }

  function React(s: Cap, e: Event): Cap
    requires Fits(s, e)
  {
    match e.outcome
    case Error(why) => s.(phase := Failed(why))
    case Press(got) => if got then Enter(s, ArmFrame) else s.(phase := Failed(Retry))
    case Replied(resp) =>
      if s.phase == AcquireFrame then Enter(s.(deadline := e.now + FRAME_TIMEOUT_US), WaitFrame)
      else if s.phase == WaitFrame then PollStep(s, e.now, resp)
      else if s.phase == FinishFrame then s.(phase := if s.frameGot then Completed else Failed(Retry))
      else Enter(Rebase(s, resp), NextPhase(s.phase))
  }

  /** One callback and the handler of the state it leads to. An event that nothing waits for is not delivered. */
  function Step(s: Cap, e: Event): Cap {
    if Fits(s, e) then React(s.(log := s.log + [Exchange(CmdOf(s), e)]), e) else s
  }

  // --------------------------------------------------------------- the machine

  class CaptureSsm {
    const kind: byte
    var phase: Phase
    var deadline: int
    var frameGot: bool
    var eventSeq: word16
    var sent: seq<Cmd>
    ghost var log: seq<Exchange>

    ghost function State(): Cap
      reads this
    {
      Cap(phase, kind, deadline, frameGot, eventSeq, sent, log)
    }

    constructor (kind: byte, eventSeq: word16)
      ensures State() == Start(kind, eventSeq)
    {
      this.kind, this.eventSeq := kind, eventSeq;
      phase, deadline, frameGot := ArmPress, 0, false;
      sent, log := [EventConfig(MASK_FINGER)], [];
    }

    /** The state handler: send the command of the present phase. */
    method Handler()
      requires !phase.Completed? && !phase.Failed?
      modifies this`sent
      ensures sent == old(sent + [CmdOf(State())])
    {
      var cmd;
      match phase {
        case ArmPress => cmd := EventConfig(MASK_FINGER);
        case WaitPress => cmd := AwaitPress;
        case ArmFrame => cmd := EventConfig(MASK_FRAME);
        case AcquireFrame => cmd := FrameAcq(kind);
        case WaitFrame => cmd := EventRead(eventSeq);
        case EventClear => cmd := EventConfig(MASK_NONE);
        case FinishFrame => cmd := FrameFinish;
      }
      sent := sent + [cmd];
    }

    method JumpTo(p: Phase)
      requires !p.Completed? && !p.Failed?
      modifies this`sent, this`phase
      ensures State() == Enter(old(State()), p)
    {
      phase := p;
      Handler();
    }

    /** The press wait is over. */
    method OnWaitPressDone(outcome: Outcome)
      requires phase == WaitPress && !outcome.Replied?
      modifies this`phase, this`sent
      ensures forall now :: State() == React(old(State()), Event(now, outcome))
    {
      if outcome.Error? {
        phase := Failed(outcome.why);
        return;
      }
      if !outcome.got {
        phase := Failed(Retry);
        return;
      }
      JumpTo(ArmFrame);
    }

    /** A mask was set; its reply renews the event counter if it is long enough. */
    method OnEventConfigDone(resp: Bytes)
      requires phase == ArmPress || phase == ArmFrame || phase == EventClear
      modifies this`phase, this`sent, this`eventSeq
      ensures forall now :: State() == React(old(State()), Event(now, Replied(resp)))
    {
      if |resp| >= CONFIG_RESP_LEN {
        eventSeq := Le16At(resp, 64);
      }
      JumpTo(NextPhase(phase));
    }

    method SawFrame(resp: Bytes, numEvts: nat) returns (saw: bool)
      requires |resp| >= 6
      ensures saw <==> exists i :: 0 <= i < numEvts && FrameRecordAt(resp, i)
    {
      saw := false;
      var i := 0;
      while i < numEvts && 6 + (i + 1) * 12 <= |resp|
        invariant 0 <= i <= numEvts
        invariant saw <==> exists j :: 0 <= j < i && FrameRecordAt(resp, j)
      {
        if resp[6 + i * 12] == FRAME_READY {
          assert FrameRecordAt(resp, i);
          saw := true;
        }
        i := i + 1;
      }
      if i < numEvts {
        assert forall j :: i <= j ==> !FrameRecordAt(resp, j);
      }
    }

    /** One poll of the event queue. */
    method OnWaitFrameDone(now: int, resp: Bytes)
      requires phase == WaitFrame
      modifies this`phase, this`sent, this`eventSeq, this`frameGot
      ensures State() == PollStep(old(State()), now, resp)
    {
      var status := 0;
      if |resp| >= 2 {
        status := Le16At(resp, 0);
      }
      var pastDeadline := now >= deadline;
      if 0x0405 <= status <= 0x0407 {
        if pastDeadline {
          frameGot := false;
          JumpTo(EventClear);
          return;
        }
        JumpTo(WaitFrame);
        return;
      }
      if status != 0 {
        phase := Failed(Fault(status));
        return;
      }
      if |resp| >= 6 {
        var numEvts := Le16At(resp, 2);
        var saw := SawFrame(resp, numEvts);
        eventSeq := (eventSeq + numEvts) % U16;
        if saw {
          frameGot := true;
          JumpTo(EventClear);
          return;
        }
      }
      if pastDeadline {
        frameGot := false;
        JumpTo(EventClear);
        return;
      }
      JumpTo(WaitFrame);
    }

    /** Deliver what the present phase waits for. */
    method Deliver(e: Event)
      modifies this
      ensures State() == Step(old(State()), e)
    {
      if phase.Completed? || phase.Failed? || (!e.outcome.Error? && e.outcome.Press? != (phase == WaitPress)) {
        return;
      }
      log := log + [Exchange(CmdOf(State()), e)];
      if e.outcome.Error? {
        phase := Failed(e.outcome.why);
      } else if phase == WaitPress {
        OnWaitPressDone(e.outcome);
      } else if phase == AcquireFrame {
        deadline := e.now + FRAME_TIMEOUT_US;
        JumpTo(WaitFrame);
      } else if phase == WaitFrame {
        OnWaitFrameDone(e.now, e.outcome.resp);
      } else if phase == FinishFrame {
        phase := if frameGot then Completed else Failed(Retry);
      } else {
        OnEventConfigDone(e.outcome.resp);
      }
    }
  }

  // ----------------------------------------------------------------- whole runs

  /** The machine after the first `n` events. */
  function After(kind: byte, eventSeq: word16, es: seq<Event>): Cap
    decreases |es|
  {
    if es == [] then Start(kind, eventSeq) else Step(After(kind, eventSeq, es[..|es| - 1]), es[|es| - 1])
  }

  const CLOSING: seq<Cmd> := [EventConfig(MASK_NONE), FrameFinish]

  /** All the commands of a capture that polls with `polls`. */
  function Full(kind: byte, polls: seq<Cmd>): seq<Cmd> {
    [EventConfig(MASK_FINGER), AwaitPress, EventConfig(MASK_FRAME), FrameAcq(kind)] + polls + CLOSING
  }

  predicate AllReads(cs: seq<Cmd>) {
    forall i :: 0 <= i < |cs| ==> cs[i].EventRead?
  }

  /** How many commands have gone out in a phase that a run can stay in. */
  function Count(p: Phase, polls: nat): nat {
    match p
    case ArmPress => 1
    case WaitPress => 2
    case ArmFrame => 3
    case AcquireFrame => 4
    case WaitFrame => 4 + polls
    case EventClear => 5 + polls
    case FinishFrame => 6 + polls
    case Completed => 6 + polls
    case Failed(_) => 6 + polls
  }

  /**
   * The commands sent are a prefix of a full capture, as long as the phase
   * says. A run that failed without trouble sent all of them.
   */
  predicate InOrder(s: Cap, polls: seq<Cmd>) {
    && AllReads(polls)
    && s.sent <= Full(s.kind, polls)
    && (polls == [] ==> |s.sent| <= 4)
    && (!s.phase.Failed? ==> (polls == [] <==> s.phase in {ArmPress, WaitPress, ArmFrame, AcquireFrame}))
    && (!s.phase.Failed? || Clean(s.log) ==> |s.sent| == Count(s.phase, |polls|))
  }

  /** The exchange ended with an error, without a press, or with an unexpected status. */
  predicate Bad(x: Exchange) {
    || x.event.outcome.Error?
    || x.event.outcome == Press(false)
    || (x.cmd.EventRead? && x.event.outcome.Replied? && Unexpected(x.event.outcome.resp))
  }

  predicate Clean(log: seq<Exchange>) {
    forall i :: 0 <= i < |log| ==> !Bad(log[i])
  }

  /** The exchange is a successful poll that carried a frame-ready event. */
  predicate Framed(x: Exchange) {
    x.cmd.EventRead? && x.event.outcome.Replied? && HasFrame(x.event.outcome.resp)
  }

  predicate Seen(log: seq<Exchange>) {
    exists i :: 0 <= i < |log| && Framed(log[i])
  }

  lemma CleanMore(log: seq<Exchange>, x: Exchange)
    ensures Clean(log + [x]) <==> Clean(log) && !Bad(x)
    ensures Seen(log + [x]) <==> Seen(log) || Framed(x)
  {
    var more := log + [x];
    assert more[|log|] == x;
    assert forall i :: 0 <= i < |log| ==> more[i] == log[i];
  }

  /** What a poll can lead to. */
  lemma PollCases(s: Cap, now: int, resp: Bytes)
    ensures var s' := PollStep(s, now, resp);
      && s'.kind == s.kind && s'.log == s.log && s'.deadline == s.deadline
      && match s'.phase
         case Failed(_) => Unexpected(resp) && s'.sent == s.sent
         case WaitFrame => !Unexpected(resp) && !HasFrame(resp) && now < s.deadline
           && s'.frameGot == s.frameGot && s'.sent == s.sent + [EventRead(s'.eventSeq)]
         case EventClear => !Unexpected(resp) && s'.frameGot == HasFrame(resp)
           && s'.sent == s.sent + [EventConfig(MASK_NONE)]
         case _ => false
  {
    hide HasFrame, Unexpected, Reported;
  }

  lemma FullOrder(kind: byte, polls: seq<Cmd>)
    ensures var full := Full(kind, polls);
      && |full| == 6 + |polls|
      && full[0] == EventConfig(MASK_FINGER) && full[1] == AwaitPress && full[2] == EventConfig(MASK_FRAME)
      && full[3] == FrameAcq(kind)
      && full[4 + |polls|] == EventConfig(MASK_NONE) && full[5 + |polls|] == FrameFinish
  {
  }

  lemma OneMoreSent(sent: seq<Cmd>, cmd: Cmd, full: seq<Cmd>)
    requires sent <= full && |sent| < |full| && full[|sent|] == cmd
    ensures sent + [cmd] <= full
  {
  }

  lemma OneMoreRead(s: Cap, polls: seq<Cmd>, cmd: Cmd)
    requires InOrder(s, polls) && cmd.EventRead? && s.phase in {AcquireFrame, WaitFrame}
    ensures AllReads(polls + [cmd]) && s.sent + [cmd] <= Full(s.kind, polls + [cmd])
  {
    var head := Full(s.kind, polls)[..4];
    assert s.sent == head + polls;
    assert Full(s.kind, polls + [cmd]) == head + polls + [cmd] + CLOSING;
  }

  /** What `polls` becomes when the machine moves on. */
  function PollsAfter(s: Cap, e: Event, polls: seq<Cmd>): seq<Cmd> {
    var s' := Step(s, e);
    if Fits(s, e) && s'.phase == WaitFrame then polls + [EventRead(s'.eventSeq)] else polls
  }

  /** A poll, seen in a state that has already logged it. */
  lemma PollKeepsOrder(s: Cap, now: int, resp: Bytes, polls: seq<Cmd>)
    requires InOrder(s, polls) && s.phase == WaitFrame
    requires Unexpected(resp) ==> !Clean(s.log)
    ensures var s' := PollStep(s, now, resp);
            InOrder(s', if s'.phase == WaitFrame then polls + [EventRead(s'.eventSeq)] else polls)
  {
    hide PollStep, Clean, Unexpected, Full, AllReads;
    var s' := PollStep(s, now, resp);
    PollCases(s, now, resp);
    FullOrder(s.kind, polls);
    if s'.phase == WaitFrame {
      OneMoreRead(s, polls, EventRead(s'.eventSeq));
      FullOrder(s.kind, polls + [EventRead(s'.eventSeq)]);
    } else if s'.phase == EventClear {
      OneMoreSent(s.sent, EventConfig(MASK_NONE), Full(s.kind, polls));
    }
  }

  lemma StepKeepsOrder(s: Cap, e: Event, polls: seq<Cmd>)
    requires InOrder(s, polls)
    requires Clean(s.log) || s.phase.Failed?
    ensures InOrder(Step(s, e), PollsAfter(s, e, polls))
  {
    hide PollStep, Clean, Unexpected, Full, AllReads, HasFrame;
    if Fits(s, e) {
      var x := Exchange(CmdOf(s), e);
      CleanMore(s.log, x);
      FullOrder(s.kind, polls);
      if s.phase == WaitFrame && e.outcome.Replied? {
        PollKeepsOrder(s.(log := s.log + [x]), e.now, e.outcome.resp, polls);
      } else if s.phase == AcquireFrame && e.outcome.Replied? {
        OneMoreRead(s, polls, EventRead(s.eventSeq));
      }
    }
  }

  /** What the machine knows about its log. */
  predicate Told(s: Cap) {
    match s.phase
    case Completed => Clean(s.log) && Seen(s.log)
    case Failed(why) => Clean(s.log) ==> why == Retry && !Seen(s.log)
    case EventClear => Clean(s.log) && (s.frameGot <==> Seen(s.log))
    case FinishFrame => Clean(s.log) && (s.frameGot <==> Seen(s.log))
    case _ => Clean(s.log) && !Seen(s.log) && !s.frameGot
  }

  lemma StepKeepsTold(s: Cap, e: Event)
    requires Told(s)
    ensures Told(Step(s, e))
  {
    hide HasFrame, Clean, Seen;
    if Fits(s, e) {
      CleanMore(s.log, Exchange(CmdOf(s), e));
    }
  }

  /** In every run the phases occur in order, and the outcome is what the log says. */
  lemma {:induction false} RunKeepsOrder(kind: byte, eventSeq: word16, es: seq<Event>) returns (polls: seq<Cmd>)
    ensures var s := After(kind, eventSeq, es); InOrder(s, polls) && Told(s) && s.kind == kind
    decreases |es|
  {
    if es == [] {
      polls := [];
    } else {
      var before := RunKeepsOrder(kind, eventSeq, es[..|es| - 1]);
      var s, e := After(kind, eventSeq, es[..|es| - 1]), es[|es| - 1];
      StepKeepsOrder(s, e, before);
      StepKeepsTold(s, e);
      polls := PollsAfter(s, e, before);
    }
  }

  /**
   * A finished run completed exactly when nothing went wrong and a frame-ready
   * event was seen in a successful poll. A run in which nothing went wrong
   * sent the whole sequence, with one mask clear and then one frame finish at
   * its end, and if no frame was seen the user may retry.
   */
  lemma CaptureOutcome(kind: byte, eventSeq: word16, es: seq<Event>)
    requires Finished(After(kind, eventSeq, es))
    ensures var s := After(kind, eventSeq, es);
            && (s.phase.Completed? <==> Clean(s.log) && Seen(s.log))
            && (Clean(s.log) && !Seen(s.log) ==> s.phase == Failed(Retry))
            && (Clean(s.log) ==> exists polls :: polls != [] && AllReads(polls) && s.sent == Full(kind, polls))
  {
    var polls := RunKeepsOrder(kind, eventSeq, es);
    var s := After(kind, eventSeq, es);
    if Clean(s.log) {
      assert s.sent == Full(kind, polls);
    }
  }

  function Commands(log: seq<Exchange>): (cs: seq<Cmd>)
    ensures |cs| == |log|
  {
    seq(|log|, i requires 0 <= i < |log| => log[i].cmd)
  }

  /** Each exchange is about the command that was sent for it; at most the last command is still waiting. */
  predicate Paired(s: Cap) {
    s.sent == Commands(s.log) + if Finished(s) then [] else [CmdOf(s)]
  }

  lemma {:induction false} EveryCommandIsAnswered(kind: byte, eventSeq: word16, es: seq<Event>)
    ensures Paired(After(kind, eventSeq, es))
    decreases |es|
  {
    hide HasFrame, Reported, Unexpected;
    if es == [] {
      assert Commands([]) == [];
    } else {
      var s, e := After(kind, eventSeq, es[..|es| - 1]), es[|es| - 1];
      EveryCommandIsAnswered(kind, eventSeq, es[..|es| - 1]);
      if Fits(s, e) {
        assert Commands(s.log + [Exchange(CmdOf(s), e)]) == Commands(s.log) + [CmdOf(s)];
      }
    }
  }

  // ------------------------------------------------------------ the event counter

  /** The exchange renewed the counter. */
  predicate IsBase(x: Exchange) {
    x.cmd.EventConfig? && x.event.outcome.Replied? && |x.event.outcome.resp| >= CONFIG_RESP_LEN
  }

  /** The last `|log| - i` exchanges did not renew the counter, and the one before them did. */
  predicate LastBaseAt(log: seq<Exchange>, i: nat) {
    && i <= |log|
    && (i > 0 ==> IsBase(log[i - 1]))
    && forall j :: i <= j < |log| ==> !IsBase(log[j])
  }

  function ReportedIn(x: Exchange): nat {
    if x.cmd.EventRead? && x.event.outcome.Replied? then Reported(x.event.outcome.resp) else 0
  }

  /** All the events that these exchanges reported. */
  function EventsIn(log: seq<Exchange>): nat {
    if log == [] then 0
    else
      var x := log[|log| - 1];
      EventsIn(log[..|log| - 1]) + ReportedIn(x)
  }

  function Total(log: seq<Exchange>, i: nat, start: word16): word16
    requires LastBaseAt(log, i)
  {
    ((if i == 0 then start else Le16At(log[i - 1].event.outcome.resp, 64)) + EventsIn(log[i..])) % U16
  }

  /** The counter is the last base plus every event reported since, modulo 2^16. */
  ghost predicate Counts(s: Cap, start: word16) {
    forall i: nat :: LastBaseAt(s.log, i) ==> s.eventSeq == Total(s.log, i, start)
  }

  /** What one exchange does to the counter. */
  function Tick(eventSeq: word16, x: Exchange): word16 {
    if IsBase(x) then Le16At(x.event.outcome.resp, 64) else (eventSeq + ReportedIn(x)) % U16
  }

  lemma StepTicks(s: Cap, e: Event)
    requires Fits(s, e)
    ensures Step(s, e).eventSeq == Tick(s.eventSeq, Exchange(CmdOf(s), e))
  {
    hide HasFrame;
  }

  lemma EventsMore(log: seq<Exchange>, x: Exchange)
    ensures EventsIn(log + [x]) == EventsIn(log) + ReportedIn(x)
  {
    assert (log + [x])[..|log|] == log;
  }

  lemma TickCounts(log: seq<Exchange>, x: Exchange, eventSeq: word16, start: word16, i: nat)
    requires LastBaseAt(log + [x], i)
    requires i <= |log| ==> LastBaseAt(log, i) && eventSeq == Total(log, i, start)
    ensures Tick(eventSeq, x) == Total(log + [x], i, start)
  {
    hide ReportedIn, EventsIn;
    var more := log + [x];
    assert more[|log|] == x;
    if i <= |log| {
      assert more[i..] == log[i..] + [x];
      EventsMore(log[i..], x);
      assert i > 0 ==> more[i - 1] == log[i - 1];
    } else {
      NoEvents(more[i..]);
    }
  }

  lemma NoEvents(log: seq<Exchange>)
    requires log == []
    ensures EventsIn(log) == 0
  {
  }

  lemma StepCounts(s: Cap, e: Event, start: word16)
    requires Counts(s, start)
    ensures Counts(Step(s, e), start)
  {
    hide Tick, Total, IsBase, React;
    if Fits(s, e) {
      var x := Exchange(CmdOf(s), e);
      StepTicks(s, e);
      StepLogs(s, e);
      forall i: nat | LastBaseAt(s.log + [x], i)
        ensures Tick(s.eventSeq, x) == Total(s.log + [x], i, start)
      {
        assert forall j :: 0 <= j < |s.log| ==> (s.log + [x])[j] == s.log[j];
        TickCounts(s.log, x, s.eventSeq, start, i);
      }
    }
  }

  lemma StepLogs(s: Cap, e: Event)
    ensures Step(s, e).log == if Fits(s, e) then s.log + [Exchange(CmdOf(s), e)] else s.log
  {
    hide HasFrame, Reported, Unexpected;
  }

  lemma {:induction false} CounterIsBasePlusEvents(kind: byte, eventSeq: word16, es: seq<Event>)
    ensures Counts(After(kind, eventSeq, es), eventSeq)
    decreases |es|
  {
    if es == [] {
      assert forall i: nat :: LastBaseAt([], i) ==> i == 0;
    } else {
      CounterIsBasePlusEvents(kind, eventSeq, es[..|es| - 1]);
      StepCounts(After(kind, eventSeq, es[..|es| - 1]), es[|es| - 1], eventSeq);
    }
  }

  // ------------------------------------------------------------- how many polls

  /** The clock does not run backwards, and a delayed poll is not sent early. */
  predicate Timely(log: seq<Exchange>) {
    |log| < 2 ||
    (Timely(log[..|log| - 1])
     && var (a, b) := (log[|log| - 2], log[|log| - 1]);
        b.event.now >= a.event.now + if a.cmd.EventRead? && b.cmd.EventRead? then POLL_DELAY_US else 0)
  }

  lemma TimelyLast(log: seq<Exchange>, x: Exchange)
    requires Timely(log + [x])
    ensures Timely(log)
    ensures log != [] ==>
      var last := log[|log| - 1];
      x.event.now >= last.event.now + if last.cmd.EventRead? && x.cmd.EventRead? then POLL_DELAY_US else 0
  {
    assert (log + [x])[..|log|] == log;
  }

  const MAX_POLLS: nat := 268

  /** While polling, the clock has moved on by one delay for each poll but the first. */
  predicate Paced(s: Cap, polls: nat) {
    && polls <= MAX_POLLS
    && (s.phase in {ArmPress, WaitPress, ArmFrame, AcquireFrame} ==> polls == 0)
    && (s.phase == WaitFrame ==>
          && polls >= 1 && s.log != []
          && var last := s.log[|s.log| - 1];
             && last.event.now >= s.deadline - FRAME_TIMEOUT_US + POLL_DELAY_US * Max(polls - 2, 0)
             && (polls >= 2 ==> last.cmd.EventRead?))
  }

  lemma StepIsPaced(s: Cap, e: Event, polls: seq<Cmd>)
    requires Paced(s, |polls|) && Timely(Step(s, e).log)
    ensures Paced(Step(s, e), |PollsAfter(s, e, polls)|)
  {
    hide PollStep, HasFrame, Unexpected, Reported, Timely;
    if Fits(s, e) {
      var x := Exchange(CmdOf(s), e);
      StepLogs(s, e);
      TimelyLast(s.log, x);
      if s.phase == WaitFrame && e.outcome.Replied? {
        PollCases(s.(log := s.log + [x]), e.now, e.outcome.resp);
      }
    }
  }

  lemma {:induction false} RunIsPaced(kind: byte, eventSeq: word16, es: seq<Event>) returns (polls: seq<Cmd>)
    requires Timely(After(kind, eventSeq, es).log)
    ensures var s := After(kind, eventSeq, es); InOrder(s, polls) && Told(s) && Paced(s, |polls|) && s.kind == kind
    decreases |es|
  {
    if es == [] {
      polls := [];
    } else {
      var s, e := After(kind, eventSeq, es[..|es| - 1]), es[|es| - 1];
      StepLogs(s, e);
      if Fits(s, e) {
        TimelyLast(s.log, Exchange(CmdOf(s), e));
      }
      var before := RunIsPaced(kind, eventSeq, es[..|es| - 1]);
      StepKeepsOrder(s, e, before);
      StepKeepsTold(s, e);
      StepIsPaced(s, e, before);
      polls := PollsAfter(s, e, before);
    }
  }

  /** How many of the commands are polls. */
  function PollsIn(cs: seq<Cmd>): nat {
    if cs == [] then 0 else PollsIn(cs[..|cs| - 1]) + if cs[|cs| - 1].EventRead? then 1 else 0
  }

  lemma {:induction false} PollsInSplit(a: seq<Cmd>, b: seq<Cmd>)
    ensures PollsIn(a + b) == PollsIn(a) + PollsIn(b)
    decreases |b|
  {
    if b == [] {
      assert a + b == a;
    } else {
      PollsInSplit(a, b[..|b| - 1]);
      assert (a + b)[..|a + b| - 1] == a + b[..|b| - 1];
    }
  }

  lemma {:induction false} PollsInBound(cs: seq<Cmd>)
    ensures PollsIn(cs) <= |cs|
    ensures (forall i :: 0 <= i < |cs| ==> !cs[i].EventRead?) ==> PollsIn(cs) == 0
  {
    if cs != [] {
      PollsInBound(cs[..|cs| - 1]);
    }
  }

  lemma PollsInOrder(sent: seq<Cmd>, kind: byte, polls: seq<Cmd>)
    requires sent <= Full(kind, polls)
    ensures PollsIn(sent) <= |polls|
  {
    var full := Full(kind, polls);
    var head := [EventConfig(MASK_FINGER), AwaitPress, EventConfig(MASK_FRAME), FrameAcq(kind)];
    PollsInSplit(head + polls, CLOSING);
    PollsInSplit(head, polls);
    PollsInBound(head);
    PollsInBound(polls);
    PollsInBound(CLOSING);
    PollsInSplit(sent, full[|sent|..]);
    assert sent + full[|sent|..] == full;
  }

  /** When no timer fires early, a capture polls at most 268 times. */
  lemma PollsAreBounded(kind: byte, eventSeq: word16, es: seq<Event>)
    requires Timely(After(kind, eventSeq, es).log)
    ensures PollsIn(After(kind, eventSeq, es).sent) <= 268
  {
    hide After, Timely;
    var polls := RunIsPaced(kind, eventSeq, es);
    PollsInOrder(After(kind, eventSeq, es).sent, kind, polls);
  }
}
