/**
 * What an enrolment does next and what it says, read off from what has
 * happened so far: a table over the exchanges alone, without the machine's
 * state, the proof that every run obeys it, and the proof that every live run
 * can still succeed.
 */
module EnrollLaw {
  import opened ByteStrings
  import opened Capture
  import opened Enroll

  // ---------------------------------------------------------------- the replies

  /** A reply too short for a status counts as a success. */
  predicate Refused(resp: Bytes) {
    |resp| >= 2 && (resp[0] != 0 || resp[1] != 0)
  }

  /** The replies to those samples that the sensor took and that changed the coverage. */
  function Taken(log: seq<Turn>): seq<Bytes> {
    if log == [] then []
    else
      var before, x := Taken(log[..|log| - 1]), log[|log| - 1];
      if x.cmd == EnrollSample && x.event.outcome.Answered? && Counts(before, x.event.outcome.resp)
      then before + [x.event.outcome.resp] else before
  }

  /** The sample comes after those in `taken` and brings another coverage than the last of them. */
  predicate Counts(taken: seq<Bytes>, resp: Bytes) {
    !Refused(resp) && |resp| >= 43 && resp[22] != Covered(taken)
  }

  function Covered(taken: seq<Bytes>): byte {
    if taken == [] || |taken[|taken| - 1]| < 23 then 0 else taken[|taken| - 1][22]
  }

  /** The id that the last of these replies carries. */
  function MintedIn(taken: seq<Bytes>): Bytes16 {
    if taken == [] || |taken[|taken| - 1]| < 18 then Zeros(16) else taken[|taken| - 1][2..18]
  }

  // ------------------------------------------------------------------ the table

  /** What follows an exchange: the next command, or none at the end; and what the user's side is told. */
  datatype Next = Next(cmd: Option<EnrollCmd>, said: seq<Said>)

  function Ends(why: Why): Next {
    Next(None, [Complete(None, Some(why))])
  }

  function Sends(cmd: EnrollCmd): Next {
    Next(Some(cmd), [])
  }

  function WithIds(tid: Bytes16, sid: Sid): EnrollCmd {
    Finalize(WIN_FINALIZE[..19] + tid + WIN_FINALIZE[35..49] + sid + WIN_FINALIZE[77..])
  }

  /** What follows the last of these exchanges. */
  function Law(u: Setup, log: seq<Turn>): Next
    requires log != []
  {
    var x, taken := log[|log| - 1], Taken(log);
    var told := Min(8, |taken|);
    match x.event.outcome
    case Captured => Sends(if x.cmd == Grab(0x14) then BeginId else EnrollSample)
    case Broken(why) =>
      if x.cmd.Grab? && x.event.now < u.deadline then Next(Some(x.cmd), [Progress(told, Some(why))]) else Ends(why)
    case Answered(resp) =>
      match x.cmd
      case Grab(_) => Ends(Fault(1))
      case BeginId => Sends(EnrollCreate)
      case EnrollCreate => if Refused(resp) then Ends(Fault(1)) else Sends(Grab(0x0c))
      case EnrollSample =>
        if !Counts(Taken(log[..|log| - 1]), resp) then
          if x.event.now >= u.deadline then Ends(Fault(1)) else Sends(Grab(0x0c))
        else Next(Some(if resp[22] == 0x7f then WithIds(resp[2..18], u.sid) else Grab(0x0c)), [Progress(told, None)])
      case Finalize(_) => if Refused(resp) then Ends(Fault(1)) else Sends(Commit)
      case Commit =>
        if Refused(resp) then Ends(Fault(1))
        else Next(None, [Complete(Some(Print(1, MintedIn(taken), Zeros(16), u.userId)), None)])
  }

  /** All that is said after these exchanges. */
  function Story(u: Setup, log: seq<Turn>): seq<Said> {
    if log == [] then [] else Story(u, log[..|log| - 1]) + Law(u, log).said
  }

  /** A capture is not answered, and nothing but a capture reports that it is done. */
  predicate Plausible(x: Turn) {
    x.event.outcome.Broken? || (x.cmd.Grab? <==> x.event.outcome.Captured?)
  }

  /** The command that is waited for after these exchanges. */
  function Pending(u: Setup, log: seq<Turn>): Option<EnrollCmd> {
    if log == [] then Some(Grab(0x14)) else Law(u, log).cmd
  }

  /** The exchanges that these events make up. What does not answer the pending command is not delivered. */
  function History(u: Setup, es: seq<EnrollEvent>): seq<Turn>
    decreases |es|
  {
    if es == [] then []
    else
      var log, e := History(u, es[..|es| - 1]), es[|es| - 1];
      match Pending(u, log)
      case None => log
      case Some(cmd) => if Plausible(Turn(cmd, e)) then log + [Turn(cmd, e)] else log
  }

  // ------------------------------------------------------------------ the proof

  predicate ObeysAt(u: Setup, s: Enr, i: nat)
    requires 0 < i <= |s.log| <= |s.sent|
  {
    Law(u, s.log[..i]).cmd == if i < |s.sent| then Some(s.sent[i]) else None
  }

  /** The run so far is what the table says. */
  ghost predicate Obeys(u: Setup, s: Enr) {
    && |s.sent| == |s.log| + (if s.phase == Ended then 0 else 1)
    && |s.sent| > 0 && s.sent[0] == Grab(0x14)
    && (forall i :: 0 <= i < |s.log| ==> s.log[i].cmd == s.sent[i])
    && (forall i :: 0 < i <= |s.log| ==> ObeysAt(u, s, i))
    && s.said == Story(u, s.log)
  }

  /** What the machine remembers of the history. */
  predicate Remembers(u: Setup, s: Enr) {
    && (s.phase != Ended ==> |s.sent| > 0 && s.sent[|s.sent| - 1] == CmdFor(u, s))
    && s.coverage == Covered(Taken(s.log))
    && s.stage == Min(8, |Taken(s.log)|)
    && (s.phase == Finalizing || s.phase == Committing ==> s.tid == MintedIn(Taken(s.log)))
  }

  lemma SplicedTwice(base: Bytes, tid: Bytes16, sid: Sid)
    requires |base| == 124
    ensures Spliced(Spliced(base, 19, tid), 49, sid) == base[..19] + tid + base[35..49] + sid + base[77..]
  {
    var first := base[..19] + tid + base[35..];
    assert first[..49] == base[..19] + tid + base[35..49];
    assert first[77..] == base[77..];
  }

  lemma SpliceIsWithIds(tid: Bytes16, sid: Sid)
    ensures Finalize(FinalizeCmd(tid, sid)) == WithIds(tid, sid)
  {
    hide Spliced;
    SplicedTwice(WIN_FINALIZE, tid, sid);
  }

  lemma TakenMore(log: seq<Turn>, x: Turn)
    ensures Taken(log + [x]) ==
      if x.cmd == EnrollSample && x.event.outcome.Answered? && Counts(Taken(log), x.event.outcome.resp)
      then Taken(log) + [x.event.outcome.resp] else Taken(log)
  {
    assert (log + [x])[..|log|] == log;
  }

  /** The machine takes a sample when the table does. */
  lemma SameSample(taken: seq<Bytes>, resp: Bytes)
    ensures Refused(resp) <==> StatusOf(resp) != 0
    ensures AcceptedSample(Covered(taken), resp) ==
      if Counts(taken, resp) then Some(Sample(0, resp[2..18], resp[22], resp[24], resp[42])) else None
    ensures Counts(taken, resp) ==>
      Covered(taken + [resp]) == resp[22] && MintedIn(taken + [resp]) == resp[2..18]
  {
  }

  /** One step leads where the table says. */
  predicate Lawful(u: Setup, s: Enr, s': Enr, log: seq<Turn>)
    requires log != []
  {
    && s'.log == log
    && s'.sent == s.sent + (if s'.phase == Ended then [] else [CmdFor(u, s')])
    && Law(u, log).cmd == (if s'.phase == Ended then None else Some(CmdFor(u, s')))
    && s'.said == s.said + Law(u, log).said
  }

  lemma SampleIsLaw(u: Setup, s: Enr, now: int, resp: Bytes)
    requires s.phase == TakeSample && Remembers(u, s)
    ensures var e := EnrollEvent(now, Answered(resp));
      && Lawful(u, s, EnrollStep(u, s, e), s.log + [Turn(EnrollSample, e)])
      && Remembers(u, EnrollStep(u, s, e))
  {
    hide FinalizeCmd, AcceptedSample, Taken, Counts, Covered, MintedIn, Refused, StatusOf, WithIds;
    var e := EnrollEvent(now, Answered(resp));
    var x := Turn(EnrollSample, e);
    TakenMore(s.log, x);
    var log := s.log + [x];
    assert log[|s.log|] == x && log[..|s.log|] == s.log;
    SameSample(Taken(s.log), resp);
    CountsHasBytes(Taken(s.log), resp);
    assert EnrollStep(u, s, e) == SampleStep(u, s.(log := log), now, resp);
    if Counts(Taken(s.log), resp) {
      SpliceIsWithIds(resp[2..18], u.sid);
    }
  }

  lemma OtherIsLaw(u: Setup, s: Enr, e: EnrollEvent)
    requires Expected(s, e) && Remembers(u, s) && !(s.phase == TakeSample && e.outcome.Answered?)
    ensures Lawful(u, s, EnrollStep(u, s, e), s.log + [Turn(CmdFor(u, s), e)])
    ensures Remembers(u, EnrollStep(u, s, e))
  {
    hide FinalizeCmd, SampleStep, Taken, Counts, Covered, MintedIn, Refused, StatusOf, WithIds;
    var x := Turn(CmdFor(u, s), e);
    TakenMore(s.log, x);
    var log := s.log + [x];
    assert log[|s.log|] == x;
    assert x.cmd == EnrollSample ==> s.phase == TakeSample;
    assert Taken(log) == Taken(s.log);
    if e.outcome.Answered? {
      SameSample(Taken(s.log), e.outcome.resp);
    }
  }

  lemma StepIsLaw(u: Setup, s: Enr, e: EnrollEvent)
    requires Expected(s, e) && Remembers(u, s)
    ensures Lawful(u, s, EnrollStep(u, s, e), s.log + [Turn(CmdFor(u, s), e)])
    ensures Remembers(u, EnrollStep(u, s, e))
  {
    hide Lawful, Remembers, EnrollStep, FinalizeCmd;
    if s.phase == TakeSample && e.outcome.Answered? {
      SampleIsLaw(u, s, e.now, e.outcome.resp);
    } else {
      OtherIsLaw(u, s, e);
    }
  }

  lemma CountsHasBytes(taken: seq<Bytes>, resp: Bytes)
    ensures Counts(taken, resp) ==> |resp| >= 43
  {
  }

  lemma StoryMore(u: Setup, log: seq<Turn>, x: Turn)
    ensures Story(u, log + [x]) == Story(u, log) + Law(u, log + [x]).said
  {
    assert (log + [x])[..|log|] == log;
  }

  lemma StepObeys(u: Setup, s: Enr, e: EnrollEvent)
    requires Obeys(u, s) && Remembers(u, s)
    ensures Obeys(u, EnrollStep(u, s, e)) && Remembers(u, EnrollStep(u, s, e))
  {
    hide Law, Remembers, EnrollStep, Story, CmdFor, Expected;
    if Expected(s, e) {
      Alive(s, e);
      var x := Turn(CmdFor(u, s), e);
      StepIsLaw(u, s, e);
      StoryMore(u, s.log, x);
      LastSent(u, s);
      var s' := EnrollStep(u, s, e);
      assert s'.log == s.log + [x];
      forall i | 0 < i <= |s'.log| ensures ObeysAt(u, s', i) {
        if i <= |s.log| {
          assert s'.log[..i] == s.log[..i];
          assert ObeysAt(u, s, i);
        } else {
          assert s'.log[..i] == s'.log;
        }
      }
    } else {
      NotExpected(u, s, e);
    }
  }

  lemma Alive(s: Enr, e: EnrollEvent)
    requires Expected(s, e)
    ensures s.phase != Ended
  {
  }

  lemma LastSent(u: Setup, s: Enr)
    requires Remembers(u, s) && s.phase != Ended
    ensures |s.sent| > 0 && s.sent[|s.sent| - 1] == CmdFor(u, s)
  {
  }

  /** The machine waits for the command that the table names, or for none. */
  lemma WaitsForPending(u: Setup, s: Enr)
    requires Obeys(u, s) && Remembers(u, s)
    ensures Pending(u, s.log) == if s.phase == Ended then None else Some(CmdFor(u, s))
  {
    hide Law, CmdFor;
    var n := |s.log|;
    if n > 0 {
      assert s.log[..n] == s.log;
      assert ObeysAt(u, s, n);
    }
  }

  lemma ExpectedIffPlausible(u: Setup, s: Enr, e: EnrollEvent)
    requires s.phase != Ended
    ensures Expected(s, e) <==> Plausible(Turn(CmdFor(u, s), e))
  {
    hide FinalizeCmd;
  }

  /**
   * In every run the exchanges, each command, the end, and every word to the
   * user's side are what the table says.
   */
  lemma {:induction false} EnrolmentObeysLaw(u: Setup, es: seq<EnrollEvent>)
    ensures var s := EnrollAfter(u, es); s.log == History(u, es) && Obeys(u, s) && Remembers(u, s)
    decreases |es|
  {
    hide Law, Remembers, Obeys, EnrollStep, CmdFor, Expected, Plausible, Pending;
    if es == [] {
      BeginObeys(u);
    } else {
      EnrolmentObeysLaw(u, es[..|es| - 1]);
      var s, e := EnrollAfter(u, es[..|es| - 1]), es[|es| - 1];
      StepObeys(u, s, e);
      WaitsForPending(u, s);
      if s.phase == Ended {
        EndedExpectsNothing(s, e);
        NotExpected(u, s, e);
      } else {
        ExpectedIffPlausible(u, s, e);
        if Expected(s, e) {
          StepLogsTurn(u, s, e);
        } else {
          NotExpected(u, s, e);
        }
      }
    }
  }

  lemma BeginObeys(u: Setup)
    ensures Begin(u).log == [] && Obeys(u, Begin(u)) && Remembers(u, Begin(u))
  {
  }

  lemma EndedExpectsNothing(s: Enr, e: EnrollEvent)
    requires s.phase == Ended
    ensures !Expected(s, e)
  {
  }

  // -------------------------------------------------------------- when it gives up

  /** The last exchange is one of the four that end an enrolment with the error `why`. */
  predicate GivesUp(u: Setup, log: seq<Turn>, why: Why) {
    && log != []
    && var x := log[|log| - 1];
       var late := x.event.now >= u.deadline;
       match x.event.outcome
       case Captured => false
       case Broken(w) => w == why && (x.cmd.Grab? ==> late)
       case Answered(resp) =>
         && why == Fault(1)
         && match x.cmd
            case EnrollCreate => Refused(resp)
            case Finalize(_) => Refused(resp)
            case Commit => Refused(resp)
            case EnrollSample => late && !Counts(Taken(log[..|log| - 1]), resp)
            case _ => false
  }

  /** The user's side was told that the enrolment failed with `why`. */
  predicate ToldError(s: Enr, why: Why) {
    s.phase == Ended && s.said != [] && s.said[|s.said| - 1] == Complete(None, Some(why))
  }

  predicate AllPlausible(log: seq<Turn>) {
    forall i :: 0 <= i < |log| ==> Plausible(log[i])
  }

  lemma {:induction false} HistoryIsPlausible(u: Setup, es: seq<EnrollEvent>)
    ensures AllPlausible(History(u, es))
    decreases |es|
  {
    hide Plausible, Pending;
    if es != [] {
      HistoryIsPlausible(u, es[..|es| - 1]);
    }
  }

  /**
   * An enrolment has failed with `why` exactly when its last exchange gave it
   * up. In particular no reply to the duplicate check ends it.
   */
  lemma FailsIffGivenUp(u: Setup, es: seq<EnrollEvent>, why: Why)
    ensures var s := EnrollAfter(u, es); ToldError(s, why) <==> GivesUp(u, s.log, why)
  {
    hide EnrollAfter, History, Remembers, Taken, Counts, Refused, MintedIn, WithIds, Covered;
    var s := EnrollAfter(u, es);
    EnrolmentObeysLaw(u, es);
    HistoryIsPlausible(u, es);
    if s.log != [] {
      assert s.log[..|s.log|] == s.log;
      assert ObeysAt(u, s, |s.log|);
      assert Plausible(s.log[|s.log| - 1]);
    }
  }

  // ------------------------------------------------------------- it can succeed

  /** A sample reply with full coverage that mints `tid`. */
  function FullSample(tid: Bytes16): Bytes {
    [0, 0] + tid + Zeros(4) + [0x7f] + Zeros(20)
  }

  function StepsLeft(p: EnrollPhase): nat {
    match p
    case DedupCapture => 7
    case Dedup => 6
    case Create => 5
    case SampleCapture => 4
    case TakeSample => 3
    case Finalizing => 2
    case Committing => 1
    case Ended => 0
  }

  /** What a willing sensor brings in the last `n` steps, with any reply to the duplicate check. */
  function Willing(n: nat, now: int, dedup: Bytes, tid: Bytes16): seq<EnrollEvent> {
    if n == 0 then []
    else
      var outcome :=
        if n == 7 || n == 4 then Captured
        else Answered(if n == 6 then dedup else if n == 3 then FullSample(tid) else [0, 0]);
      [EnrollEvent(now, outcome)] + Willing(n - 1, now, dedup, tid)
  }

  /** The id that a run at this point will hand out when the sensor goes on to mint `tid`. */
  function ToHandOut(s: Enr, tid: Bytes16): Bytes16 {
    if s.phase == Finalizing || s.phase == Committing then s.tid else tid
  }

  lemma WillingStep(u: Setup, s: Enr, now: int, dedup: Bytes, tid: Bytes16)
    requires s.phase != Ended && HoldsMintedId(s)
    ensures var e := Willing(StepsLeft(s.phase), now, dedup, tid)[0];
      var s' := EnrollStep(u, s, e);
      && Expected(s, e)
      && StepsLeft(s'.phase) == StepsLeft(s.phase) - 1
      && (s'.phase != Ended ==> ToHandOut(s', tid) == ToHandOut(s, tid))
      && (s'.phase == Ended ==>
            s'.said == s.said + [Complete(Some(Print(1, ToHandOut(s, tid), Zeros(16), u.userId)), None)])
  {
    hide FinalizeCmd;
    assert FullSample(tid)[2..18] == tid;
    assert FullSample(tid)[22] == 0x7f;
  }

  /**
   * Every run that has not ended can still enrol, at any time and past any
   * deadline, whatever the sensor answers to the duplicate check.
   */
  lemma {:induction false} CanStillEnrol(u: Setup, es: seq<EnrollEvent>, now: int, dedup: Bytes, tid: Bytes16)
    requires EnrollAfter(u, es).phase != Ended
    ensures var s := EnrollAfter(u, es);
      var end := EnrollAfter(u, es + Willing(StepsLeft(s.phase), now, dedup, tid));
      && Enrolled(end)
      && end.said[|end.said| - 1] == Complete(Some(Print(1, ToHandOut(s, tid), Zeros(16), u.userId)), None)
    decreases StepsLeft(EnrollAfter(u, es).phase)
  {
    hide EnrollStep, HoldsMintedId, OnCourse, SaysOnce, CountsSamples, FullSample;
    var s := EnrollAfter(u, es);
    var n := StepsLeft(s.phase);
    var e := Willing(n, now, dedup, tid)[0];
    var c := EnrollRun(u, es);
    WillingStep(u, s, now, dedup, tid);
    assert (es + [e])[..|es + [e]| - 1] == es;
    var s' := EnrollAfter(u, es + [e]);
    assert s' == EnrollStep(u, s, e);
    assert es + Willing(n, now, dedup, tid) == es + [e] + Willing(n - 1, now, dedup, tid);
    if s'.phase == Ended {
      assert es + Willing(n, now, dedup, tid) == es + [e];
    } else {
      CanStillEnrol(u, es + [e], now, dedup, tid);
    }
  }

  /** The shortest enrolment. The duplicate check does not know a new finger, and says so. */
  function NewFinger(now: int, dedup: Bytes, tid: Bytes16): seq<EnrollEvent> {
    var good := EnrollEvent(now, Answered([0, 0]));
    [EnrollEvent(now, Captured), EnrollEvent(now, Answered(dedup)), good,
     EnrollEvent(now, Captured), EnrollEvent(now, Answered(FullSample(tid))), good, good]
  }

  lemma NewFingerIsWilling(now: int, dedup: Bytes, tid: Bytes16)
    ensures Willing(7, now, dedup, tid) == NewFinger(now, dedup, tid)
  {
    hide FullSample;
    var good := EnrollEvent(now, Answered([0, 0]));
    assert Willing(1, now, dedup, tid) == [good] + Willing(0, now, dedup, tid) == [good];
    assert Willing(2, now, dedup, tid) == [good, good];
    assert Willing(4, now, dedup, tid) == [EnrollEvent(now, Captured)] + Willing(3, now, dedup, tid);
    assert Willing(6, now, dedup, tid) == [EnrollEvent(now, Answered(dedup))] + Willing(5, now, dedup, tid);
  }

  /** It succeeds for any reply to that check. */
  lemma NewFingerEnrols(u: Setup, now: int, dedup: Bytes, tid: Bytes16)
    ensures var end := EnrollAfter(u, NewFinger(now, dedup, tid));
      && Enrolled(end)
      && end.said[|end.said| - 1] == Complete(Some(Print(1, tid, Zeros(16), u.userId)), None)
  {
    hide NewFinger, Willing, EnrollStep;
    CanStillEnrol(u, [], now, dedup, tid);
    NewFingerIsWilling(now, dedup, tid);
    assert [] + NewFinger(now, dedup, tid) == NewFinger(now, dedup, tid);
  }
}
