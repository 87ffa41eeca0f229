/**
 * Enrolment on the sensor: a capture and a duplicate check, then captures and
 * samples until the coverage is complete, then finalize and commit. Each
 * capture is one event here; what happens inside it is in `Capture`.
 */
module Enroll {
  import opened ByteStrings
  import opened Capture

  const ENROLL_TIMEOUT_US: int := 150_000_000
  const ENROLL_STAGES: nat := 8
  const FULL_COVERAGE: byte := 0x7f
  const ACQ_ENROLL: byte := 0x0c
  const ACQ_VERIFY: byte := 0x14
  const PROTOCOL_ERROR: Why := Fault(1)

  type Sid = b: Bytes | |b| == 28 witness Zeros(28)

  // ------------------------------------------------------------ the two codecs

  const WIN_FINALIZE: Bytes := [
    0x96, 0x03, 0x00, 0x00, 0x00, 0x00, 0x00, 0x00, 0x00, 0x6f, 0x00, 0x00,
    0x00, 0x00, 0x00, 0x10, 0x00, 0x00, 0x00, 0x45, 0x2d, 0xec, 0x91, 0x88,
    0x13, 0x90, 0xe4, 0x14, 0xeb, 0x6a, 0x58, 0x12, 0x8e, 0x41, 0x21, 0x01,
    0x00, 0x4c, 0x00, 0x00, 0x00, 0x03, 0x00, 0x00, 0x00, 0x1c, 0x00, 0x00,
    0x00, 0x01, 0x05, 0x00, 0x00, 0x00, 0x00, 0x00, 0x05, 0x15, 0x00, 0x00,
    0x00, 0x00, 0x00, 0x00, 0x00, 0x00, 0x00, 0x00, 0x00, 0x00, 0x00, 0x00,
    0x00, 0xe9, 0x03, 0x00, 0x00, 0x00, 0x00, 0x00, 0x00, 0x00, 0x00, 0x00,
    0x00, 0x00, 0x00, 0x00, 0x00, 0x00, 0x00, 0x00, 0x00, 0x00, 0x00, 0x00,
    0x00, 0x00, 0x00, 0x00, 0x00, 0x00, 0x00, 0x00, 0x00, 0x00, 0x00, 0x00,
    0x00, 0x00, 0x00, 0x00, 0x00, 0x00, 0x00, 0x00, 0x00, 0x02, 0x00, 0x01,
    0x00, 0x00, 0x00, 0xf5]

  const TID_AT: nat := 19
  const SID_AT: nat := 49

  /** `base` with `part` in place of what it holds from `at` on. */
  function Spliced(base: Bytes, at: nat, part: Bytes): (b: Bytes)
    requires at + |part| <= |base|
    ensures |b| == |base|
  {
    base[..at] + part + base[at + |part|..]
  }

  /** The finalize command: the template with both ids spliced in. */
  function FinalizeCmd(tid: Bytes16, sid: Sid): (cmd: Bytes)
    ensures |cmd| == 124
  {
    Spliced(Spliced(WIN_FINALIZE, TID_AT, tid), SID_AT, sid)
  }

  method CopyInto(out: array<byte>, at: nat, part: Bytes)
    requires at + |part| <= out.Length
    modifies out
    ensures out[..] == Spliced(old(out[..]), at, part)
  {
    forall i | at <= i < at + |part| {
      out[i] := part[i - at];
    }
  }

  method BuildFinalize(tid: Bytes16, sid: Sid, out: array<byte>)
    requires out.Length == 124
    modifies out
    ensures out[..] == FinalizeCmd(tid, sid)
  {
    hide Spliced;
    CopyInto(out, 0, WIN_FINALIZE);
    Overwritten(old(out[..]), WIN_FINALIZE);
    CopyInto(out, TID_AT, tid);
    CopyInto(out, SID_AT, sid);
  }

  lemma Overwritten(base: Bytes, part: Bytes)
    requires |part| == |base|
    ensures Spliced(base, 0, part) == part
  {
  }

  /** The command holds the two ids at their offsets and is the template everywhere else. */
  lemma FinalizeHolds(tid: Bytes16, sid: Sid)
    ensures var cmd := FinalizeCmd(tid, sid);
            && cmd[19..35] == tid && cmd[49..77] == sid
            && forall i :: 0 <= i < 124 && !(19 <= i < 35) && !(49 <= i < 77) ==> cmd[i] == WIN_FINALIZE[i]
  {
    var base := WIN_FINALIZE;
    var first := Spliced(base, TID_AT, tid);
    SplicedAt(base, TID_AT, tid);
    SplicedAt(first, SID_AT, sid);
    var cmd := FinalizeCmd(tid, sid);
    assert cmd[19..35] == first[19..35];
  }

  lemma SplicedAt(base: Bytes, at: nat, part: Bytes)
    requires at + |part| <= |base|
    ensures var b := Spliced(base, at, part);
            && b[at..at + |part|] == part
            && forall i :: 0 <= i < |base| && !(at <= i < at + |part|) ==> b[i] == base[i]
  {
  }

  datatype Sample = Sample(status: word16, tid: Bytes16, coverage: byte, counter: byte, quality: byte)

  function ParseSample(resp: Bytes): Option<Sample> {
    if |resp| < 43 then None
    else Some(Sample(Le16At(resp, 0), resp[2..18], resp[22], resp[24], resp[42]))
  }

  // ------------------------------------------------------------- specification

  datatype Print = Print(finger: nat, minted: Bytes16, listed: Bytes16, userId: Bytes)

  /** What the user's side is told: progress, possibly with an error, and in the end the completion. */
  datatype Said = Progress(stage: nat, error: Option<Why>) | Complete(minted: Option<Print>, error: Option<Why>)

  datatype EnrollCmd = Grab(kind: byte) | BeginId | EnrollCreate | EnrollSample | Finalize(cmd: Bytes) | Commit

  datatype EnrollPhase = DedupCapture | Dedup | Create | SampleCapture | TakeSample | Finalizing | Committing | Ended

  /** A capture ends, or a command is answered; either may bring an error. */
  datatype EnrollOutcome = Captured | Answered(resp: Bytes) | Broken(why: Why)

  datatype EnrollEvent = EnrollEvent(now: int, outcome: EnrollOutcome)

  datatype Turn = Turn(cmd: EnrollCmd, event: EnrollEvent)

  datatype Setup = Setup(sid: Sid, userId: Bytes, deadline: int)

  /** `sent`, `said` and `log` record what went to the sensor, to the user's side, and what came back. */
  datatype Enr = Enr(phase: EnrollPhase, coverage: byte, stage: nat, tid: Bytes16,
                     sent: seq<EnrollCmd>, said: seq<Said>, log: seq<Turn>)

  function CmdFor(u: Setup, s: Enr): EnrollCmd
    requires s.phase != Ended
  {
    match s.phase
    case DedupCapture => Grab(ACQ_VERIFY)
    case Dedup => BeginId
    case Create => EnrollCreate
    case SampleCapture => Grab(ACQ_ENROLL)
    case TakeSample => EnrollSample
    case Finalizing => Finalize(FinalizeCmd(s.tid, u.sid))
    case Committing => Commit
  }

  function Go(u: Setup, s: Enr, phase: EnrollPhase): Enr
    requires phase != Ended
  {
    var s' := s.(phase := phase);
    s'.(sent := s'.sent + [CmdFor(u, s')])
  }

  function Begin(u: Setup): Enr {
    Go(u, Enr(DedupCapture, 0, 0, Zeros(16), [], [], []), DedupCapture)
  }

  function Fail(s: Enr, why: Why): Enr {
    s.(phase := Ended, said := s.said + [Complete(None, Some(why))])
  }

  function PrintFor(u: Setup, tid: Bytes16): Print {
    Print(1, tid, Zeros(16), u.userId)
  }

  function Succeed(u: Setup, s: Enr): Enr {
    s.(phase := Ended, said := s.said + [Complete(Some(PrintFor(u, s.tid)), None)])
  }

  /** A sample that the sensor took and that changed the coverage. */
  function AcceptedSample(coverage: byte, resp: Bytes): Option<Sample> {
    if StatusOf(resp) != 0 then None
    else match ParseSample(resp)
         case None => None
         case Some(m) => if m.coverage == coverage then None else Some(m)
  }

  function SampleStep(u: Setup, s: Enr, now: int, resp: Bytes): Enr {
    match AcceptedSample(s.coverage, resp)
    case None => if now >= u.deadline then Fail(s, PROTOCOL_ERROR) else Go(u, s, SampleCapture)
    case Some(m) =>
      var stage := if s.stage < ENROLL_STAGES then s.stage + 1 else s.stage;
      var s' := s.(coverage := m.coverage, stage := stage, said := s.said + [Progress(stage, None)]);
      if m.coverage == FULL_COVERAGE then Go(u, s'.(tid := m.tid), Finalizing) else Go(u, s', SampleCapture)
  }

  predicate IsCapture(p: EnrollPhase) {
    p == DedupCapture || p == SampleCapture
  }

  /** Captures report that they are done, commands are answered, and either may fail. */
  predicate Expected(s: Enr, e: EnrollEvent) {
    s.phase != Ended && (e.outcome.Broken? || (IsCapture(s.phase) <==> e.outcome.Captured?))
  }

  function Advance(u: Setup, s: Enr, e: EnrollEvent): Enr
    requires Expected(s, e)
  {
    match e.outcome
    case Broken(why) =>
      if IsCapture(s.phase) && e.now < u.deadline
      then Go(u, s.(said := s.said + [Progress(s.stage, Some(why))]), s.phase)
      else Fail(s, why)
    case Captured => Go(u, s, if s.phase == DedupCapture then Dedup else TakeSample)
    case Answered(resp) =>
      if s.phase == Dedup then Go(u, s, Create)
      else if s.phase == TakeSample then SampleStep(u, s, e.now, resp)
      else if StatusOf(resp) != 0 then Fail(s, PROTOCOL_ERROR)
      else if s.phase == Create then Go(u, s, SampleCapture)
      else if s.phase == Finalizing then Go(u, s, Committing)
      else Succeed(u, s)
  }

  function EnrollStep(u: Setup, s: Enr, e: EnrollEvent): Enr {
    if Expected(s, e) then Advance(u, s.(log := s.log + [Turn(CmdFor(u, s), e)]), e) else s
  }

  // --------------------------------------------------------------- the machine

  class EnrollSsm {
    const sid: Sid
    const userId: Bytes
    const deadline: int
    var phase: EnrollPhase
    var coverage: byte
    var stage: nat
    var tid: Bytes16
    var sent: seq<EnrollCmd>
    var said: seq<Said>
    ghost var log: seq<Turn>

    function Given(): Setup {
      Setup(sid, userId, deadline)
    }

    ghost function State(): Enr
      reads this
    {
      Enr(phase, coverage, stage, tid, sent, said, log)
    }

    constructor (sid: Sid, userId: Bytes, now: int)
      ensures Given() == Setup(sid, userId, now + 150_000_000) && State() == Begin(Given())
    {
      this.sid, this.userId, deadline := sid, userId, now + ENROLL_TIMEOUT_US;
      phase, coverage, stage, tid := DedupCapture, 0, 0, Zeros(16);
      sent, said, log := [Grab(ACQ_VERIFY)], [], [];
    }

    /** The state handler: send the command of the present phase. */
    method Handler()
      requires phase != Ended
      modifies this`sent
      ensures sent == old(sent + [CmdFor(Given(), State())])
    {
      var cmd;
      match phase {
        case DedupCapture => cmd := Grab(ACQ_VERIFY);
        case Dedup => cmd := BeginId;
        case Create => cmd := EnrollCreate;
        case SampleCapture => cmd := Grab(ACQ_ENROLL);
        case TakeSample => cmd := EnrollSample;
        case Finalizing =>
          var out := new byte[124];
          BuildFinalize(tid, sid, out);
          cmd := Finalize(out[..]);
        case Committing => cmd := Commit;
      }
      sent := sent + [cmd];
    }

    method JumpTo(p: EnrollPhase)
      requires p != Ended
      modifies this`sent, this`phase
      ensures State() == Go(Given(), old(State()), p)
    {
      phase := p;
      Handler();
    }

    /** The machine failed: enrolment completes with the error. */
    method MarkFailed(why: Why)
      modifies this`phase, this`said
      ensures State() == Fail(old(State()), why)
    {
      phase := Ended;
      said := said + [Complete(None, Some(why))];
    }

    /** The machine completed: enrolment completes with a print that carries the minted id. */
    method MarkCompleted()
      modifies this`phase, this`said
      ensures State() == Succeed(Given(), old(State()))
    {
      phase := Ended;
      said := said + [Complete(Some(Print(1, tid, Zeros(16), userId)), None)];
    }

    method OnCaptureDone(now: int, error: Option<Why>)
      requires IsCapture(phase)
      modifies this`phase, this`sent, this`said
      ensures var e := EnrollEvent(now, if error.None? then Captured else Broken(error.value));
              State() == Advance(Given(), old(State()), e)
    {
      if error.Some? {
        if now >= deadline {
          MarkFailed(error.value);
          return;
        }
        said := said + [Progress(stage, error)];
        JumpTo(phase);
        return;
      }
      JumpTo(if phase == DedupCapture then Dedup else TakeSample);
    }

    method OnSampleDone(now: int, resp: Bytes)
      requires phase == TakeSample
      modifies this`phase, this`sent, this`said, this`coverage, this`stage, this`tid
      ensures State() == SampleStep(Given(), old(State()), now, resp)
    {
      hide FinalizeCmd;
      var status := StatusOf(resp);
      var sample := ParseSample(resp);
      if status != 0 || sample.None? || sample.value.coverage == coverage {
        if now >= deadline {
          MarkFailed(PROTOCOL_ERROR);
          return;
        }
        JumpTo(SampleCapture);
        return;
      }
      coverage := sample.value.coverage;
      if stage < ENROLL_STAGES {
        stage := stage + 1;
      }
      said := said + [Progress(stage, None)];
      if coverage == FULL_COVERAGE {
        tid := sample.value.tid;
        JumpTo(Finalizing);
        return;
      }
      JumpTo(SampleCapture);
    }

    /** The replies to create, finalize and commit have to say success. */
    method OnCheckedDone(resp: Bytes)
      requires phase == Create || phase == Finalizing || phase == Committing
      modifies this`phase, this`sent, this`said
      ensures forall now :: State() == Advance(Given(), old(State()), EnrollEvent(now, Answered(resp)))
    {
      if StatusOf(resp) != 0 {
        MarkFailed(PROTOCOL_ERROR);
      } else if phase == Create {
        JumpTo(SampleCapture);
      } else if phase == Finalizing {
        JumpTo(Committing);
      } else {
        MarkCompleted();
      }
    }

    /** Deliver what the present phase waits for. */
    method Deliver(e: EnrollEvent)
      modifies this
      ensures State() == EnrollStep(Given(), old(State()), e)
    {
      if phase == Ended || (!e.outcome.Broken? && e.outcome.Captured? != IsCapture(phase)) {
        return;
      }
      log := log + [Turn(CmdFor(Given(), State()), e)];
      if IsCapture(phase) {
        OnCaptureDone(e.now, if e.outcome.Broken? then Some(e.outcome.why) else None);
      } else if e.outcome.Broken? {
        MarkFailed(e.outcome.why);
      } else if phase == Dedup {
        JumpTo(Create);
      } else if phase == TakeSample {
        OnSampleDone(e.now, e.outcome.resp);
      } else {
        OnCheckedDone(e.outcome.resp);
      }
    }
  }

  // ----------------------------------------------------------------- whole runs

  function EnrollAfter(u: Setup, es: seq<EnrollEvent>): Enr
    decreases |es|
  {
    if es == [] then Begin(u) else EnrollStep(u, EnrollAfter(u, es[..|es| - 1]), es[|es| - 1])
  }

  /** The run is over and enrolment completed with a print. */
  predicate Enrolled(s: Enr) {
    s.phase == Ended && s.said != [] && s.said[|s.said| - 1].Complete? && s.said[|s.said| - 1].minted.Some?
  }

  // ------------------------------------------------------ the trace of commands

  function Grabs(kind: byte, n: nat): (cs: seq<EnrollCmd>)
    ensures |cs| == n
  {
    if n == 0 then [] else Grabs(kind, n - 1) + [Grab(kind)]
  }

  /** One sample after another, each after as many captures as `rounds` says. */
  function Rounds(rounds: seq<nat>): seq<EnrollCmd> {
    if rounds == [] then []
    else Rounds(rounds[..|rounds| - 1]) + Grabs(ACQ_ENROLL, rounds[|rounds| - 1]) + [EnrollSample]
  }

  /** How often each capture was tried, and the phase that was entered last. */
  datatype Course = Course(dedups: nat, rounds: seq<nat>, tries: nat, at: EnrollPhase)

  predicate ProperCourse(c: Course) {
    && c.dedups >= 1
    && (forall i :: 0 <= i < |c.rounds| ==> c.rounds[i] >= 1)
    && (c.at == SampleCapture ==> c.tries >= 1)
    && (c.at == TakeSample || c.at == Finalizing || c.at == Committing ==> c.rounds != [])
    && (c.at == DedupCapture || c.at == Dedup || c.at == Create ==> c.rounds == [])
    && c.at != Ended
  }

  /** Duplicate captures, the duplicate check, create, all rounds; then what belongs to the last phase. */
  function Trail(u: Setup, c: Course, tid: Bytes16): seq<EnrollCmd> {
    var finalize := Finalize(FinalizeCmd(tid, u.sid));
    var dedup := Grabs(ACQ_VERIFY, c.dedups);
    match c.at
    case DedupCapture => dedup
    case Dedup => dedup + [BeginId]
    case Create => dedup + [BeginId] + [EnrollCreate]
    case SampleCapture => dedup + [BeginId] + [EnrollCreate] + Rounds(c.rounds) + Grabs(ACQ_ENROLL, c.tries)
    case TakeSample => dedup + [BeginId] + [EnrollCreate] + Rounds(c.rounds)
    case Finalizing => dedup + [BeginId] + [EnrollCreate] + Rounds(c.rounds) + [finalize]
    case Committing => dedup + [BeginId] + [EnrollCreate] + Rounds(c.rounds) + [finalize] + [Commit]
    case Ended => []
  }

  predicate OnCourse(u: Setup, s: Enr, c: Course) {
    && ProperCourse(c)
    && s.sent == Trail(u, c, s.tid)
    && (s.phase != Ended ==> c.at == s.phase)
    && (Enrolled(s) ==> c.at == Committing)
  }

  /** The course after a step that went to `phase`. */
  function Onward(c: Course, phase: EnrollPhase): Course {
    if phase == DedupCapture then c.(dedups := c.dedups + 1)
    else if phase == SampleCapture then c.(tries := if c.at == SampleCapture then c.tries + 1 else 1, at := phase)
    else if phase == TakeSample then c.(rounds := c.rounds + [c.tries], at := phase)
    else if phase == Ended then c
    else c.(at := phase)
  }

  /** Which phases a step can lead to, and that it sends just the command of the new one. */
  lemma StepMoves(u: Setup, s: Enr, e: EnrollEvent)
    requires Expected(s, e)
    ensures var s' := EnrollStep(u, s, e);
      && s'.sent == s.sent + (if s'.phase == Ended then [] else [CmdFor(u, s')])
      && (s'.tid != s.tid ==> s'.phase == Finalizing)
      && (Enrolled(s') ==> s.phase == Committing)
      && match s.phase
         case DedupCapture => s'.phase in {DedupCapture, Dedup, Ended}
         case Dedup => s'.phase in {Create, Ended}
         case Create => s'.phase in {SampleCapture, Ended}
         case SampleCapture => s'.phase in {SampleCapture, TakeSample, Ended}
         case TakeSample => s'.phase in {SampleCapture, Finalizing, Ended}
         case Finalizing => s'.phase in {Committing, Ended}
         case Committing => s'.phase == Ended
  {
    hide FinalizeCmd, AcceptedSample;
  }

  lemma GrabsMore(kind: byte, n: nat)
    ensures Grabs(kind, n + 1) == Grabs(kind, n) + [Grab(kind)]
  {
  }

  lemma NoRounds(rounds: seq<nat>)
    ensures rounds == [] ==> Rounds(rounds) == []
  {
  }

  lemma RoundsMore(rounds: seq<nat>, tries: nat)
    ensures Rounds(rounds + [tries]) == Rounds(rounds) + Grabs(ACQ_ENROLL, tries) + [EnrollSample]
  {
    assert (rounds + [tries])[..|rounds|] == rounds;
  }

  lemma CourseGoesOn(u: Setup, c: Course, phase: EnrollPhase, tid: Bytes16, tid': Bytes16)
    requires ProperCourse(c) && (tid' != tid ==> phase == Finalizing)
    requires match c.at
             case DedupCapture => phase in {DedupCapture, Dedup}
             case Dedup => phase == Create
             case Create => phase == SampleCapture
             case SampleCapture => phase in {SampleCapture, TakeSample}
             case TakeSample => phase in {SampleCapture, Finalizing}
             case Finalizing => phase == Committing
             case Committing => false
    ensures ProperCourse(Onward(c, phase)) && Onward(c, phase).at == phase
    ensures var cmd := CmdFor(u, Enr(phase, 0, 0, tid', [], [], []));
            Trail(u, Onward(c, phase), tid') == Trail(u, c, tid) + [cmd]
  {
    hide FinalizeCmd, Grabs, Rounds;
    GrabsMore(ACQ_VERIFY, c.dedups);
    GrabsMore(ACQ_ENROLL, c.tries);
    GrabsMore(ACQ_ENROLL, 0);
    if phase == SampleCapture {
      NoRounds(c.rounds);
    } else if phase == TakeSample {
      RoundsMore(c.rounds, c.tries);
    }
  }

  lemma StepKeepsCourse(u: Setup, s: Enr, e: EnrollEvent, c: Course)
    requires OnCourse(u, s, c)
    ensures OnCourse(u, EnrollStep(u, s, e), if Expected(s, e) then Onward(c, EnrollStep(u, s, e).phase) else c)
  {
    hide Trail, ProperCourse, EnrollStep, FinalizeCmd;
    if Expected(s, e) {
      StepMoves(u, s, e);
      var s' := EnrollStep(u, s, e);
      if s'.phase != Ended {
        CourseGoesOn(u, c, s'.phase, s.tid, s'.tid);
      }
    } else {
      NotExpected(u, s, e);
    }
  }

  lemma NotExpected(u: Setup, s: Enr, e: EnrollEvent)
    requires !Expected(s, e)
    ensures EnrollStep(u, s, e) == s
  {
  }

  // -------------------------------------------------- samples, stages, coverage

  /** The samples that the enrolment took, in order: each changed the coverage. */
  function Accepted(log: seq<Turn>): seq<Sample> {
    if log == [] then []
    else
      var before, x := Accepted(log[..|log| - 1]), log[|log| - 1];
      if x.cmd != EnrollSample || !x.event.outcome.Answered? then before
      else match AcceptedSample(LastCoverage(before), x.event.outcome.resp)
           case None => before
           case Some(m) => before + [m]
  }

  function LastCoverage(samples: seq<Sample>): byte {
    if samples == [] then 0 else samples[|samples| - 1].coverage
  }

  /** The stages that were reported as progress, without the retry prompts. */
  function Advances(said: seq<Said>): seq<nat> {
    if said == [] then []
    else
      var x := said[|said| - 1];
      Advances(said[..|said| - 1]) + if x.Progress? && x.error.None? then [x.stage] else []
  }

  predicate AllProgress(said: seq<Said>) {
    forall i :: 0 <= i < |said| ==> said[i].Progress?
  }

  /** Enrolment completes once, as the last word, with a print or with an error. */
  predicate SaysOnce(u: Setup, s: Enr) {
    if s.phase == Ended then
      && s.said != [] && AllProgress(s.said[..|s.said| - 1])
      && var last := s.said[|s.said| - 1];
         && last.Complete?
         && (last.minted.Some? <==> last.error.None?)
         && (last.minted.Some? ==> last.minted.value == PrintFor(u, s.tid))
    else AllProgress(s.said)
  }

  /** The machine's coverage and stage are those of the accepted samples, each of which was reported. */
  predicate CountsSamples(s: Enr) {
    var taken := Accepted(s.log);
    && s.coverage == LastCoverage(taken)
    && s.stage == Min(|taken|, ENROLL_STAGES)
    && Advances(s.said) == seq(|taken|, i => Min(i + 1, ENROLL_STAGES))
  }

  lemma StepLogsTurn(u: Setup, s: Enr, e: EnrollEvent)
    requires Expected(s, e)
    ensures EnrollStep(u, s, e).log == s.log + [Turn(CmdFor(u, s), e)]
  {
    hide FinalizeCmd, AcceptedSample;
  }

  /** What a step says, counts and accepts. */
  lemma StepSays(u: Setup, s: Enr, e: EnrollEvent)
    requires Expected(s, e)
    ensures var s' := EnrollStep(u, s, e);
      var took := if s.phase == TakeSample && e.outcome.Answered?
                  then AcceptedSample(s.coverage, e.outcome.resp) else None;
      match took
      case Some(m) =>
        && s'.coverage == m.coverage && s'.stage == Min(s.stage + 1, Max(s.stage, ENROLL_STAGES))
        && s'.said == s.said + [Progress(s'.stage, None)]
        && s'.phase == (if m.coverage == FULL_COVERAGE then Finalizing else SampleCapture)
        && (m.coverage == FULL_COVERAGE ==> s'.tid == m.tid)
      case None =>
        && s'.coverage == s.coverage && s'.stage == s.stage && s'.tid == s.tid && s'.phase != Finalizing
        && ((s'.said == s.said && s'.phase != Ended)
            || (exists why ::
                  s'.said == s.said + [Progress(s.stage, Some(why))] && s'.phase == s.phase && s.phase != Ended)
            || (exists why :: s'.said == s.said + [Complete(None, Some(why))] && s'.phase == Ended)
            || (s'.said == s.said + [Complete(Some(PrintFor(u, s.tid)), None)]
                && s'.phase == Ended && s.phase == Committing))
  {
    hide FinalizeCmd, AcceptedSample;
  }

  lemma OneMoreSaid(said: seq<Said>, x: Said)
    ensures Advances(said + [x]) == Advances(said) + if x.Progress? && x.error.None? then [x.stage] else []
  {
    assert (said + [x])[..|said|] == said;
  }

  lemma OneMoreTurn(log: seq<Turn>, x: Turn)
    ensures Accepted(log + [x]) == Accepted(log) +
      if x.cmd != EnrollSample || !x.event.outcome.Answered? then []
      else match AcceptedSample(LastCoverage(Accepted(log)), x.event.outcome.resp)
           case None => []
           case Some(m) => [m]
  {
    assert (log + [x])[..|log|] == log;
    assert Accepted(log) + [] == Accepted(log);
  }

  lemma StepCountsSamples(u: Setup, s: Enr, e: EnrollEvent)
    requires CountsSamples(s)
    ensures CountsSamples(EnrollStep(u, s, e))
  {
    hide EnrollStep, AcceptedSample, Accepted, Advances;
    if Expected(s, e) {
      StepLogsTurn(u, s, e);
      StepSays(u, s, e);
      OneMoreTurn(s.log, Turn(CmdFor(u, s), e));
      forall x {
        OneMoreSaid(s.said, x);
      }
      var n := |Accepted(s.log)|;
      assert seq(n + 1, i => Min(i + 1, ENROLL_STAGES))
          == seq(n, i => Min(i + 1, ENROLL_STAGES)) + [Min(n + 1, ENROLL_STAGES)];
    } else {
      NotExpected(u, s, e);
    }
  }

  lemma StepSaysOnce(u: Setup, s: Enr, e: EnrollEvent)
    requires SaysOnce(u, s)
    ensures SaysOnce(u, EnrollStep(u, s, e))
  {
    hide EnrollStep, AcceptedSample;
    if Expected(s, e) {
      StepSays(u, s, e);
      var s' := EnrollStep(u, s, e);
      if s'.phase == Ended {
        assert s'.said[..|s'.said| - 1] == s.said;
      }
    } else {
      NotExpected(u, s, e);
    }
  }

  // ------------------------------------------------------------- the minted id

  /** The sensor reported the full coverage in a successful sample, and with it the id it minted. */
  predicate Minting(x: Turn) {
    && x.cmd == EnrollSample && x.event.outcome.Answered?
    && var resp := x.event.outcome.resp;
       StatusOf(resp) == 0 && |resp| >= 43 && resp[22] == FULL_COVERAGE
  }

  predicate OnlyMintingAt(log: seq<Turn>, i: nat) {
    && i < |log| && Minting(log[i])
    && forall j :: 0 <= j < |log| && Minting(log[j]) ==> j == i
  }

  predicate NoMinting(log: seq<Turn>) {
    forall j :: 0 <= j < |log| ==> !Minting(log[j])
  }

  /** Whoever is past the samples holds the id of the only full sample; before that there was none. */
  predicate HoldsMintedId(s: Enr) {
    if s.phase == Finalizing || s.phase == Committing || Enrolled(s) then
      exists i :: 0 <= i < |s.log| && OnlyMintingAt(s.log, i) && s.tid == s.log[i].event.outcome.resp[2..18]
    else if s.phase == Ended then true
    else NoMinting(s.log) && s.coverage != FULL_COVERAGE
  }

  lemma StepHoldsMintedId(u: Setup, s: Enr, e: EnrollEvent)
    requires HoldsMintedId(s)
    ensures HoldsMintedId(EnrollStep(u, s, e))
  {
    hide EnrollStep, FinalizeCmd, AcceptedSample;
    if Expected(s, e) {
      var x := Turn(CmdFor(u, s), e);
      StepLogsTurn(u, s, e);
      StepSays(u, s, e);
      StepMoves(u, s, e);
      MintingIsAccepted(u, s, e);
      var s' := EnrollStep(u, s, e);
      assert s'.log == s.log + [x];
      if s.phase == Finalizing || s.phase == Committing {
        var i :| 0 <= i < |s.log| && OnlyMintingAt(s.log, i) && s.tid == s.log[i].event.outcome.resp[2..18];
        assert OnlyMintingAt(s'.log, i);
      } else if s'.phase == Finalizing {
        assert OnlyMintingAt(s'.log, |s.log|);
      }
    } else {
      NotExpected(u, s, e);
    }
  }

  /** A full sample is accepted, as the coverage so far is not full. */
  lemma MintingIsAccepted(u: Setup, s: Enr, e: EnrollEvent)
    requires Expected(s, e)
    ensures Minting(Turn(CmdFor(u, s), e)) ==> s.phase == TakeSample && e.outcome.Answered?
    ensures s.phase == TakeSample && e.outcome.Answered? && s.coverage != FULL_COVERAGE ==>
      var took := AcceptedSample(s.coverage, e.outcome.resp);
      (Minting(Turn(CmdFor(u, s), e)) <==> took.Some? && took.value.coverage == FULL_COVERAGE)
      && (took.Some? ==> took.value.tid == e.outcome.resp[2..18])
  {
  }

  // --------------------------------------------------------------- main results

  /** Every run, finished or not. */
  lemma {:induction false} EnrollRun(u: Setup, es: seq<EnrollEvent>) returns (c: Course)
    ensures var s := EnrollAfter(u, es);
            OnCourse(u, s, c) && SaysOnce(u, s) && CountsSamples(s) && HoldsMintedId(s)
    decreases |es|
  {
    hide EnrollStep, OnCourse, SaysOnce, CountsSamples, HoldsMintedId, Begin;
    if es == [] {
      c := Course(1, [], 0, DedupCapture);
      BeginIsFine(u);
    } else {
      var s, e := EnrollAfter(u, es[..|es| - 1]), es[|es| - 1];
      var before := EnrollRun(u, es[..|es| - 1]);
      StepKeepsCourse(u, s, e, before);
      StepSaysOnce(u, s, e);
      StepCountsSamples(u, s, e);
      StepHoldsMintedId(u, s, e);
      c := if Expected(s, e) then Onward(before, EnrollStep(u, s, e).phase) else before;
    }
  }

  lemma BeginIsFine(u: Setup)
    ensures var s := Begin(u);
            OnCourse(u, s, Course(1, [], 0, DedupCapture)) && SaysOnce(u, s) && CountsSamples(s) && HoldsMintedId(s)
  {
    assert Grabs(ACQ_VERIFY, 1) == [Grab(ACQ_VERIFY)];
    assert Advances([]) == [] && Accepted([]) == [];
  }

  /**
   * A run that enrolled sent captures, the duplicate check, create, at least one
   * round of captures and a sample, finalize and commit. The id in the finalize
   * command and in the print is that of the only sample with full coverage.
   */
  lemma EnrolledMeans(u: Setup, es: seq<EnrollEvent>) returns (c: Course, i: nat)
    requires Enrolled(EnrollAfter(u, es))
    ensures var s := EnrollAfter(u, es);
      && ProperCourse(c) && c.at == Committing && s.sent == Trail(u, c, s.tid)
      && OnlyMintingAt(s.log, i)
      && s.said[|s.said| - 1] == Complete(Some(PrintFor(u, s.log[i].event.outcome.resp[2..18])), None)
      && AllProgress(s.said[..|s.said| - 1])
      && |s.sent| >= 2
      && s.sent[|s.sent| - 2].Finalize?
      && s.sent[|s.sent| - 2].cmd[19..35] == s.log[i].event.outcome.resp[2..18]
      && s.sent[|s.sent| - 2].cmd[49..77] == u.sid
  {
    hide EnrollAfter, FinalizeCmd;
    var s := EnrollAfter(u, es);
    c := EnrollRun(u, es);
    i :| 0 <= i < |s.log| && OnlyMintingAt(s.log, i) && s.tid == s.log[i].event.outcome.resp[2..18];
    FinalizeHolds(s.tid, u.sid);
  }

  // ------------------------------------------------------------- strict progress

  /** Every bit of `a` is set in `b`. */
  predicate Within(a: nat, b: nat) {
    a == 0 || (b > 0 && a % 2 <= b % 2 && Within(a / 2, b / 2))
  }

  /** How many bits are set. */
  function Bits(a: nat): nat {
    if a == 0 then 0 else a % 2 + Bits(a / 2)
  }

  lemma {:induction false} MoreBits(a: nat, b: nat)
    requires Within(a, b)
    ensures Bits(a) <= Bits(b) && (a != b ==> Bits(a) < Bits(b))
    decreases b
  {
    if a == 0 {
      SomeBit(b);
    } else {
      MoreBits(a / 2, b / 2);
    }
  }

  lemma {:induction false} SomeBit(b: nat)
    ensures b > 0 ==> Bits(b) > 0
  {
    if b > 1 {
      SomeBit(b / 2);
    }
  }

  lemma {:induction false} SevenBits(b: nat, k: nat)
    requires k <= 7 && b < [1, 2, 4, 8, 16, 32, 64, 128][k]
    ensures Bits(b) <= k
    decreases k
  {
    if b > 0 {
      SevenBits(b / 2, k - 1);
    }
  }

  /** The coverage that the sensor reported in each successful sample. */
  function Coverages(log: seq<Turn>): seq<byte> {
    if log == [] then []
    else
      var x := log[|log| - 1];
      Coverages(log[..|log| - 1]) +
      if x.cmd == EnrollSample && x.event.outcome.Answered?
         && StatusOf(x.event.outcome.resp) == 0 && ParseSample(x.event.outcome.resp).Some?
      then [x.event.outcome.resp[22]] else []
  }

  function Latest(covs: seq<byte>): byte {
    if covs == [] then 0 else covs[|covs| - 1]
  }

  /** The sensor's coverage has seven bits and only gains bits. */
  predicate OnlyGains(covs: seq<byte>) {
    covs == []
    || (OnlyGains(covs[..|covs| - 1]) && Latest(covs) <= FULL_COVERAGE
        && Within(Latest(covs[..|covs| - 1]) as nat, Latest(covs) as nat))
  }

  lemma {:induction false} SamplesRaiseBits(log: seq<Turn>)
    requires OnlyGains(Coverages(log))
    ensures Latest(Coverages(log)) == LastCoverage(Accepted(log))
    ensures |Accepted(log)| <= Bits(LastCoverage(Accepted(log)) as nat) <= 7
    decreases |log|
  {
    if log != [] {
      var before, x := log[..|log| - 1], log[|log| - 1];
      var covs := Coverages(log);
      if covs != Coverages(before) {
        assert covs[..|covs| - 1] == Coverages(before);
        SamplesRaiseBits(before);
        MoreBits(Latest(Coverages(before)) as nat, Latest(covs) as nat);
        SevenBits(Latest(covs) as nat, 7);
      } else {
        SamplesRaiseBits(before);
      }
    }
  }

  /**
   * If the sensor's coverage only gains bits, at most seven samples are taken
   * and the stages reported are 1, 2, 3, and so on: strictly increasing, and
   * never the eighth and last stage that the driver announces.
   */
  lemma StagesStrictlyIncrease(u: Setup, es: seq<EnrollEvent>)
    requires OnlyGains(Coverages(EnrollAfter(u, es).log))
    ensures var s := EnrollAfter(u, es);
      && |Accepted(s.log)| <= 7 && s.stage == |Accepted(s.log)|
      && Advances(s.said) == seq(|Accepted(s.log)|, i => i + 1)
  {
    hide OnCourse, SaysOnce, HoldsMintedId, EnrollAfter, Accepted, Advances, Coverages, OnlyGains;
    var c := EnrollRun(u, es);
    var s := EnrollAfter(u, es);
    SamplesRaiseBits(s.log);
    var n := |Accepted(s.log)|;
    assert seq(n, i => Min(i + 1, ENROLL_STAGES)) == seq(n, i => i + 1);
  }

  // ----------------------------------------------------------------- when it ends

  /** The sensor answered the commit with success. */
  predicate Committed(log: seq<Turn>) {
    exists i :: 0 <= i < |log| && CommitsAt(log, i)
  }

  predicate CommitsAt(log: seq<Turn>, i: nat)
    requires i < |log|
  {
    log[i].cmd == Commit && log[i].event.outcome.Answered? && StatusOf(log[i].event.outcome.resp) == 0
  }

  /** A print is handed out exactly when the sensor has committed. */
  lemma {:induction false} EnrolledIffCommitted(u: Setup, es: seq<EnrollEvent>)
    ensures var s := EnrollAfter(u, es); Enrolled(s) <==> Committed(s.log)
    decreases |es|
  {
    hide EnrollStep, Committed;
    if es == [] {
      NothingCommitted([]);
    } else {
      var s, e := EnrollAfter(u, es[..|es| - 1]), es[|es| - 1];
      EnrolledIffCommitted(u, es[..|es| - 1]);
      if Expected(s, e) {
        StepLogsTurn(u, s, e);
        StepEnrolls(u, s, e);
        MoreCommitted(s.log, Turn(CmdFor(u, s), e));
      } else {
        NotExpected(u, s, e);
      }
    }
  }

  lemma NothingCommitted(log: seq<Turn>)
    requires log == []
    ensures !Committed(log)
  {
  }

  lemma MoreCommitted(log: seq<Turn>, x: Turn)
    ensures Committed(log + [x]) <==> Committed(log) || CommitsAt([x], 0)
  {
    var more := log + [x];
    if Committed(log) {
      var i :| 0 <= i < |log| && CommitsAt(log, i);
      assert CommitsAt(more, i);
    }
    if CommitsAt([x], 0) {
      assert CommitsAt(more, |log|);
    }
    if Committed(more) {
      var i :| 0 <= i < |more| && CommitsAt(more, i);
      assert i < |log| ==> CommitsAt(log, i);
    }
  }

  lemma StepEnrolls(u: Setup, s: Enr, e: EnrollEvent)
    requires Expected(s, e)
    ensures Enrolled(EnrollStep(u, s, e)) <==> CommitsAt([Turn(CmdFor(u, s), e)], 0)
  {
    hide FinalizeCmd, AcceptedSample;
  }
}
