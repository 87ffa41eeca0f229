/**
 * Enrolment with its captures: the two state machines run together, and the
 * commands that go over the wire are those of both.
 */
module WireTrace {
  import opened ByteStrings
  import C = Capture
  import E = Enroll

  /** A command on the wire, of a capture or of the enrolment itself. */
  datatype Wire = OfCapture(grab: C.Cmd) | OfEnroll(cmd: E.EnrollCmd)

  /** What comes back: something for the running capture, or the reply to a command of the enrolment. */
  datatype Input = ForCapture(seen: C.Event, after: int) | ForEnroll(event: E.EnrollEvent)

  /** One capture: where the event counter stood at its start, and what has happened to it. */
  datatype CapRun = CapRun(kind: byte, start: word16, es: seq<C.Event>)

  function CapOf(r: CapRun): C.Cap {
    C.After(r.kind, r.start, r.es)
  }

  /** The captures in order, the events that the enrolment saw, and the wire. */
  datatype Both = Both(events: seq<E.EnrollEvent>, runs: seq<CapRun>, wire: seq<Wire>)

  function EnrOf(u: E.Setup, b: Both): E.Enr {
    E.EnrollAfter(u, b.events)
  }

  function Lift(cs: seq<C.Cmd>): (ws: seq<Wire>)
    ensures |ws| == |cs|
  {
    seq(|cs|, i requires 0 <= i < |cs| => OfCapture(cs[i]))
  }

  /** The event counter belongs to the device, so a capture goes on counting where the one before stopped. */
  function CounterAfter(start: word16, runs: seq<CapRun>): word16 {
    if runs == [] then start else CapOf(runs[|runs| - 1]).eventSeq
  }

  function Launch(b: Both, kind: byte, start: word16): Both {
    b.(runs := b.runs + [CapRun(kind, start, [])], wire := b.wire + Lift(C.Start(kind, start).sent))
  }

  /** The enrolment takes its next event; its new command goes out, or its new capture starts. */
  function Proceed(u: E.Setup, start: word16, b: Both, e: E.EnrollEvent): Both {
    var b' := b.(events := b.events + [e]);
    var s := EnrOf(u, b');
    if s.phase == E.Ended then b'
    else match E.CmdFor(u, s)
         case Grab(kind) => Launch(b', kind, CounterAfter(start, b.runs))
         case _ => b'.(wire := b'.wire + [OfEnroll(E.CmdFor(u, s))])
  }

  function Begin(u: E.Setup, start: word16): Both {
    Launch(Both([], [], []), E.ACQ_VERIFY, start)
  }

  function Verdict(cap: C.Cap): E.EnrollOutcome {
    if cap.phase.Failed? then E.Broken(cap.phase.why) else E.Captured
  }

  function Step(u: E.Setup, start: word16, b: Both, i: Input): Both {
    var capturing := E.IsCapture(EnrOf(u, b).phase) && b.runs != [];
    match i
    case ForEnroll(e) =>
      if !capturing && E.Expected(EnrOf(u, b), e) then Proceed(u, start, b, e) else b
    case ForCapture(e, after) =>
      if !capturing then b
      else
        var n := |b.runs| - 1;
        var run := b.runs[n];
        var cap, cap' := CapOf(run), C.Step(CapOf(run), e);
        var b' := b.(runs := b.runs[..n] + [run.(es := run.es + [e])],
                     wire := b.wire + Lift(cap'.sent[Min(|cap.sent|, |cap'.sent|)..]));
        if C.Finished(cap') then Proceed(u, start, b', E.EnrollEvent(after, Verdict(cap'))) else b'
  }

  function After(u: E.Setup, start: word16, inputs: seq<Input>): Both
    decreases |inputs|
  {
    if inputs == [] then Begin(u, start)
    else Step(u, start, After(u, start, inputs[..|inputs| - 1]), inputs[|inputs| - 1])
  }

  // ------------------------------------------------------------ how the two join

  /** The wire trace: each capture of the enrolment spelt out. */
  function Spell(cmds: seq<E.EnrollCmd>, runs: seq<CapRun>): seq<Wire>
    decreases |cmds|
  {
    if cmds == [] then []
    else
      var n, m := |cmds| - 1, |runs| - 1;
      if !cmds[n].Grab? then Spell(cmds[..n], runs) + [OfEnroll(cmds[n])]
      else if runs == [] then []
      else Spell(cmds[..n], runs[..m]) + Lift(CapOf(runs[m]).sent)
  }

  /**
   * Each capture command of the enrolment is one capture of its kind. A capture
   * that is tried again has failed, and one that is followed by the duplicate
   * check or by a sample has completed.
   */
  predicate Joined(cmds: seq<E.EnrollCmd>, runs: seq<CapRun>)
    decreases |cmds|
  {
    if cmds == [] then runs == []
    else
      var n, m := |cmds| - 1, |runs| - 1;
      if cmds[n].Grab? then
        && runs != [] && runs[m].kind == cmds[n].kind
        && (n > 0 && cmds[n - 1].Grab? && m > 0 ==> CapOf(runs[m - 1]).phase.Failed?)
        && Joined(cmds[..n], runs[..m])
      else
        && (cmds[n].BeginId? || cmds[n].EnrollSample? ==>
              runs != [] && n > 0 && cmds[n - 1].Grab? && CapOf(runs[m]).phase.Completed?)
        && Joined(cmds[..n], runs)
  }

  /** The first capture starts with the given counter, and every other with the one that the capture before it left. */
  predicate Chained(start: word16, runs: seq<CapRun>) {
    forall i :: 0 <= i < |runs| ==> ChainedAt(start, runs, i)
  }

  predicate ChainedAt(start: word16, runs: seq<CapRun>, i: nat)
    requires i < |runs|
  {
    runs[i].start == if i == 0 then start else CapOf(runs[i - 1]).eventSeq
  }

  predicate Aligned(u: E.Setup, start: word16, b: Both) {
    var s := EnrOf(u, b);
    && b.wire == Spell(s.sent, b.runs) && Joined(s.sent, b.runs) && Chained(start, b.runs)
    && (s.phase != E.Ended ==> s.sent != [] && s.sent[|s.sent| - 1] == E.CmdFor(u, s))
  }

  /** While the enrolment waits for a capture, the last one is running. */
  predicate InStep(u: E.Setup, start: word16, b: Both) {
    && Aligned(u, start, b)
    && (E.IsCapture(EnrOf(u, b).phase) ==> b.runs != [] && !C.Finished(CapOf(b.runs[|b.runs| - 1])))
  }

  lemma NextOf(u: E.Setup, b: Both, e: E.EnrollEvent)
    ensures E.EnrollAfter(u, b.events + [e]) == E.EnrollStep(u, EnrOf(u, b), e)
  {
    assert (b.events + [e])[..|b.events|] == b.events;
  }

  lemma CapNext(r: CapRun, e: C.Event)
    ensures CapOf(r.(es := r.es + [e])) == C.Step(CapOf(r), e)
  {
    assert (r.es + [e])[..|r.es|] == r.es;
  }

  lemma {:induction false} SpellMore(cmds: seq<E.EnrollCmd>, runs: seq<CapRun>, cmd: E.EnrollCmd)
    requires !cmd.Grab?
    ensures Spell(cmds + [cmd], runs) == Spell(cmds, runs) + [OfEnroll(cmd)]
  {
    assert (cmds + [cmd])[..|cmds|] == cmds;
  }

  lemma {:induction false} SpellGrab(cmds: seq<E.EnrollCmd>, runs: seq<CapRun>, kind: byte, run: CapRun)
    ensures Spell(cmds + [E.Grab(kind)], runs + [run]) == Spell(cmds, runs) + Lift(CapOf(run).sent)
  {
    assert (cmds + [E.Grab(kind)])[..|cmds|] == cmds && (runs + [run])[..|runs|] == runs;
  }

  lemma {:induction false} JoinMore(cmds: seq<E.EnrollCmd>, runs: seq<CapRun>, cmd: E.EnrollCmd)
    requires !cmd.Grab? && Joined(cmds, runs)
    requires cmd.BeginId? || cmd.EnrollSample? ==>
      cmds != [] && cmds[|cmds| - 1].Grab? && runs != [] && CapOf(runs[|runs| - 1]).phase.Completed?
    ensures Joined(cmds + [cmd], runs)
  {
    assert (cmds + [cmd])[..|cmds|] == cmds;
    assert cmds != [] ==> (cmds + [cmd])[|cmds| - 1] == cmds[|cmds| - 1];
  }

  lemma {:induction false} JoinGrab(cmds: seq<E.EnrollCmd>, runs: seq<CapRun>, run: CapRun)
    requires Joined(cmds, runs)
    requires cmds != [] && cmds[|cmds| - 1].Grab? && runs != [] ==> CapOf(runs[|runs| - 1]).phase.Failed?
    ensures Joined(cmds + [E.Grab(run.kind)], runs + [run])
  {
    var cmds', runs' := cmds + [E.Grab(run.kind)], runs + [run];
    assert cmds'[..|cmds|] == cmds && runs'[..|runs|] == runs;
    assert cmds != [] ==> cmds'[|cmds| - 1] == cmds[|cmds| - 1];
    assert runs != [] ==> runs'[|runs| - 1] == runs[|runs| - 1];
  }

  /** A capture that completed leads on, and one that failed leads back or ends the run. */
  lemma CaptureMoves(u: E.Setup, s: E.Enr, e: E.EnrollEvent)
    requires E.Expected(s, e) && E.IsCapture(s.phase)
    ensures var s' := E.EnrollStep(u, s, e);
            if e.outcome.Captured? then s'.phase == (if s.phase == E.DedupCapture then E.Dedup else E.TakeSample)
            else s'.phase == s.phase || s'.phase == E.Ended
  {
    hide E.FinalizeCmd, E.AcceptedSample;
  }

  lemma {:induction false} LaunchKeeps(u: E.Setup, start: word16, b: Both, b': Both, kind: byte)
    requires Aligned(u, start, b) && b'.runs == b.runs && b'.wire == b.wire
    requires var s, s' := EnrOf(u, b), EnrOf(u, b');
      && s'.sent == s.sent + [E.Grab(kind)] && s'.phase != E.Ended && E.CmdFor(u, s') == E.Grab(kind)
      && (s.sent != [] && s.sent[|s.sent| - 1].Grab? && b.runs != [] ==> CapOf(b.runs[|b.runs| - 1]).phase.Failed?)
    ensures InStep(u, start, Launch(b', kind, CounterAfter(start, b.runs)))
  {
    hide Spell, Joined, Chained, E.EnrollAfter, C.After;
    var run := CapRun(kind, CounterAfter(start, b.runs), []);
    SpellGrab(EnrOf(u, b).sent, b.runs, kind, run);
    JoinGrab(EnrOf(u, b).sent, b.runs, run);
    ChainMore(start, b.runs, run);
    NewCapture(run);
  }

  lemma NewCapture(r: CapRun)
    requires r.es == []
    ensures CapOf(r).sent == C.Start(r.kind, r.start).sent && !C.Finished(CapOf(r))
  {
  }

  lemma {:induction false} ChainMore(start: word16, runs: seq<CapRun>, run: CapRun)
    requires Chained(start, runs) && run.start == CounterAfter(start, runs)
    ensures Chained(start, runs + [run])
  {
    hide CapOf;
    var more := runs + [run];
    forall i | 0 <= i < |more| ensures ChainedAt(start, more, i) {
      assert i < |runs| ==> ChainedAt(start, runs, i);
      assert i > 0 ==> more[i - 1] == runs[i - 1];
    }
  }

  /** What happens to the last capture does not change where the captures started. */
  lemma {:induction false} ChainStays(start: word16, runs: seq<CapRun>, run: CapRun)
    requires Chained(start, runs) && runs != [] && run.start == runs[|runs| - 1].start
    ensures Chained(start, runs[..|runs| - 1] + [run])
  {
    hide CapOf;
    var more := runs[..|runs| - 1] + [run];
    forall i | 0 <= i < |more| ensures ChainedAt(start, more, i) {
      assert i < |runs| ==> ChainedAt(start, runs, i);
      assert i > 0 ==> more[i - 1] == runs[i - 1];
    }
  }

  /** The enrolment goes on. */
  lemma {:induction false} ProceedKeeps(u: E.Setup, start: word16, b: Both, e: E.EnrollEvent)
    requires Aligned(u, start, b) && E.Expected(EnrOf(u, b), e)
    requires E.IsCapture(EnrOf(u, b).phase) ==>
      && b.runs != [] && C.Finished(CapOf(b.runs[|b.runs| - 1]))
      && e.outcome == Verdict(CapOf(b.runs[|b.runs| - 1]))
    ensures InStep(u, start, Proceed(u, start, b, e))
  {
    hide Spell, Joined, Chained, E.EnrollAfter, E.EnrollStep, C.After;
    var s := EnrOf(u, b);
    var b' := b.(events := b.events + [e]);
    NextOf(u, b, e);
    E.StepMoves(u, s, e);
    if E.IsCapture(s.phase) {
      CaptureMoves(u, s, e);
    }
    var s' := EnrOf(u, b');
    assert s.sent + [] == s.sent;
    if s'.phase != E.Ended {
      var cmd := E.CmdFor(u, s');
      if cmd.Grab? {
        LaunchKeeps(u, start, b, b', cmd.kind);
      } else {
        SpellMore(s.sent, b.runs, cmd);
        JoinMore(s.sent, b.runs, cmd);
      }
    }
  }

  lemma CapGrows(cap: C.Cap, e: C.Event)
    ensures cap.sent <= C.Step(cap, e).sent
  {
    hide C.HasFrame, C.Unexpected, C.Reported;
  }

  /** The last capture moves on: only its own stretch of the wire grows. */
  lemma {:induction false} CaptureKeeps(u: E.Setup, start: word16, b: Both, b': Both, e: C.Event)
    requires InStep(u, start, b) && E.IsCapture(EnrOf(u, b).phase)
    requires var n := |b.runs| - 1; var run := b.runs[n]; var cap := CapOf(run);
      && cap.sent <= C.Step(cap, e).sent
      && b' == b.(runs := b.runs[..n] + [run.(es := run.es + [e])],
                  wire := b.wire + Lift(C.Step(cap, e).sent[|cap.sent|..]))
    ensures Aligned(u, start, b')
    ensures b'.runs != [] && CapOf(b'.runs[|b'.runs| - 1]) == C.Step(CapOf(b.runs[|b.runs| - 1]), e)
  {
    hide E.EnrollAfter, C.After, C.Step, Chained;
    var s, n := EnrOf(u, b), |b.runs| - 1;
    var run, more := b.runs[n], b.runs[n].(es := b.runs[n].es + [e]);
    ChainStays(start, b.runs, more);
    CapNext(run, e);
    var cap, cap' := CapOf(run), CapOf(more);
    assert b'.runs[..n] == b.runs[..n];
    assert cap'.sent == cap.sent + cap'.sent[|cap.sent|..];
    assert Lift(cap'.sent) == Lift(cap.sent) + Lift(cap'.sent[|cap.sent|..]);
    Associates(Spell(s.sent[..|s.sent| - 1], b.runs[..n]), Lift(cap.sent), Lift(cap'.sent[|cap.sent|..]));
    assert n > 0 ==> b'.runs[n - 1] == b.runs[n - 1];
  }

  lemma {:induction false} StepKeeps(u: E.Setup, start: word16, b: Both, i: Input)
    requires InStep(u, start, b)
    ensures InStep(u, start, Step(u, start, b, i))
  {
    hide Aligned, E.EnrollAfter, C.After, C.Step, Proceed;
    if E.IsCapture(EnrOf(u, b).phase) {
      if i.ForCapture? {
        var n := |b.runs| - 1;
        var cap, cap' := CapOf(b.runs[n]), C.Step(CapOf(b.runs[n]), i.seen);
        CapGrows(cap, i.seen);
        var b' := b.(runs := b.runs[..n] + [b.runs[n].(es := b.runs[n].es + [i.seen])],
                     wire := b.wire + Lift(cap'.sent[|cap.sent|..]));
        CaptureKeeps(u, start, b, b', i.seen);
        if C.Finished(cap') {
          ProceedKeeps(u, start, b', E.EnrollEvent(i.after, Verdict(cap')));
        }
      }
    } else if i.ForEnroll? && E.Expected(EnrOf(u, b), i.event) {
      ProceedKeeps(u, start, b, i.event);
    }
  }

  lemma BeginInStep(u: E.Setup, start: word16)
    ensures InStep(u, start, Begin(u, start))
  {
    var b := Begin(u, start);
    var run := CapRun(E.ACQ_VERIFY, start, []);
    SpellGrab([], [], E.ACQ_VERIFY, run);
    JoinGrab([], [], run);
    assert [] + [E.Grab(E.ACQ_VERIFY)] == EnrOf(u, b).sent && [] + [run] == b.runs;
    assert [run][..0] == [];
  }

  /** Over every run the wire carries the enrolment's commands with each of its captures spelt out. */
  lemma {:induction false} BothInStep(u: E.Setup, start: word16, inputs: seq<Input>)
    ensures InStep(u, start, After(u, start, inputs))
    decreases |inputs|
  {
    hide InStep, Step, Begin;
    if inputs == [] {
      BeginInStep(u, start);
    } else {
      BothInStep(u, start, inputs[..|inputs| - 1]);
      StepKeeps(u, start, After(u, start, inputs[..|inputs| - 1]), inputs[|inputs| - 1]);
    }
  }

  // ----------------------------------------------------- what the enrolment hears

  /** Each capture command of the enrolment heard how its own capture ended: completed, or failed with that error. */
  predicate Heard(log: seq<E.Turn>, runs: seq<CapRun>)
    decreases |log|
  {
    if log == [] then runs == []
    else
      var n, m := |log| - 1, |runs| - 1;
      if !log[n].cmd.Grab? then Heard(log[..n], runs)
      else
        && runs != [] && Heard(log[..n], runs[..m])
        && match CapOf(runs[m]).phase
           case Completed => log[n].event.outcome == E.Captured
           case Failed(why) => log[n].event.outcome == E.Broken(why)
           case _ => false
  }

  /** All captures but the running one have been heard of. */
  predicate AllHeard(u: E.Setup, b: Both) {
    var s := EnrOf(u, b);
    if E.IsCapture(s.phase) then b.runs != [] && Heard(s.log, b.runs[..|b.runs| - 1]) else Heard(s.log, b.runs)
  }

  lemma {:induction false} HeardMore(log: seq<E.Turn>, x: E.Turn, runs: seq<CapRun>)
    requires !x.cmd.Grab? ==> Heard(log, runs)
    requires x.cmd.Grab? ==>
      && runs != [] && C.Finished(CapOf(runs[|runs| - 1])) && Heard(log, runs[..|runs| - 1])
      && x.event.outcome == Verdict(CapOf(runs[|runs| - 1]))
    ensures Heard(log + [x], runs)
  {
    hide C.After;
    assert (log + [x])[..|log|] == log;
  }

  lemma {:induction false} ProceedTells(u: E.Setup, start: word16, b: Both, e: E.EnrollEvent)
    requires AllHeard(u, b) && E.Expected(EnrOf(u, b), e)
    requires E.IsCapture(EnrOf(u, b).phase) ==>
      && b.runs != [] && C.Finished(CapOf(b.runs[|b.runs| - 1]))
      && e.outcome == Verdict(CapOf(b.runs[|b.runs| - 1]))
    ensures AllHeard(u, Proceed(u, start, b, e))
  {
    hide Heard, E.EnrollAfter, E.EnrollStep, C.After, E.FinalizeCmd;
    var s := EnrOf(u, b);
    var b' := b.(events := b.events + [e]);
    NextOf(u, b, e);
    E.StepLogsTurn(u, s, e);
    HeardMore(s.log, E.Turn(E.CmdFor(u, s), e), b.runs);
    var launched := Proceed(u, start, b, e).runs;
    assert launched == b.runs || launched[..|launched| - 1] == b.runs;
  }

  lemma {:induction false} StepTells(u: E.Setup, start: word16, b: Both, i: Input)
    requires InStep(u, start, b) && AllHeard(u, b)
    ensures AllHeard(u, Step(u, start, b, i))
  {
    hide Aligned, Heard, E.EnrollAfter, C.After, C.Step, Proceed;
    if E.IsCapture(EnrOf(u, b).phase) {
      if i.ForCapture? {
        var n := |b.runs| - 1;
        var run := b.runs[n].(es := b.runs[n].es + [i.seen]);
        var cap, cap' := CapOf(b.runs[n]), C.Step(CapOf(b.runs[n]), i.seen);
        CapGrows(cap, i.seen);
        CapNext(b.runs[n], i.seen);
        var b' := b.(runs := b.runs[..n] + [run], wire := b.wire + Lift(cap'.sent[|cap.sent|..]));
        assert b'.runs[..n] == b.runs[..n];
        if C.Finished(cap') {
          ProceedTells(u, start, b', E.EnrollEvent(i.after, Verdict(cap')));
        }
      }
    } else if i.ForEnroll? && E.Expected(EnrOf(u, b), i.event) {
      ProceedTells(u, start, b, i.event);
    }
  }

  /** Over every run the enrolment hears exactly how each of its captures ended. */
  lemma {:induction false} CapturesAreHeard(u: E.Setup, start: word16, inputs: seq<Input>)
    ensures AllHeard(u, After(u, start, inputs))
    decreases |inputs|
  {
    hide AllHeard, Step, Begin, InStep;
    if inputs == [] {
      NothingHeard(u, start);
    } else {
      CapturesAreHeard(u, start, inputs[..|inputs| - 1]);
      BothInStep(u, start, inputs[..|inputs| - 1]);
      StepTells(u, start, After(u, start, inputs[..|inputs| - 1]), inputs[|inputs| - 1]);
    }
  }

  lemma NothingHeard(u: E.Setup, start: word16)
    ensures AllHeard(u, Begin(u, start))
  {
    var run := CapRun(E.ACQ_VERIFY, start, []);
    assert Begin(u, start).runs == [] + [run];
    assert ([] + [run])[..0] == [];
  }

  /**
   * A completed enrolment on the wire: the trace of its commands, in which each
   * capture is spelt out by one run of the capture machine; those that were
   * tried again failed, and the last before the duplicate check and before each
   * sample completed. The event counter runs through all of them.
   */
  lemma EnrolmentOnTheWire(u: E.Setup, start: word16, inputs: seq<Input>) returns (c: E.Course)
    requires E.Enrolled(EnrOf(u, After(u, start, inputs)))
    ensures var b := After(u, start, inputs); var cmds := E.Trail(u, c, EnrOf(u, b).tid);
      && E.ProperCourse(c) && c.at == E.Committing
      && b.wire == Spell(cmds, b.runs) && Joined(cmds, b.runs) && Chained(start, b.runs)
  {
    hide After, E.EnrollAfter;
    var b := After(u, start, inputs);
    BothInStep(u, start, inputs);
    var i;
    c, i := E.EnrolledMeans(u, b.events);
  }

  /** What a capture that completed in such a run put on the wire, and what it saw. */
  lemma CompletedCapture(r: CapRun)
    requires CapOf(r).phase.Completed?
    ensures C.Seen(CapOf(r).log)
    ensures exists polls :: polls != [] && C.AllReads(polls) && CapOf(r).sent == C.Full(r.kind, polls)
  {
    C.CaptureOutcome(r.kind, r.start, r.es);
  }
}
