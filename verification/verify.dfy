/**
 * Verifying and identifying a finger: captures until one succeeds, then one
 * match command, whose reply names a template that is looked up among the
 * prints given.
 */
module Verify {
  import opened ByteStrings
  import C = Capture
  import E = Enroll

  const VERIFY_TIMEOUT_US: int := 45_000_000
  const MAX_ATTEMPTS: nat := 8

  // ------------------------------------------------------------- prints and ids

  /** What a stored print carries. The ids come from outside and may have any length. */
  datatype PrintData = PrintData(finger: nat, minted: Bytes, listed: Bytes, userId: Bytes)

  /** A print without data, or with data in another format, has None. */
  datatype Stored = Stored(data: Option<PrintData>)

  /** How an enrolled print is stored. */
  function Store(p: E.Print): Stored {
    Stored(Some(PrintData(p.finger, p.minted, p.listed, p.userId)))
  }

  predicate Matches(p: Stored, tid: Bytes16) {
    p.data.Some? && |p.data.value.minted| == 16 && |p.data.value.listed| == 16 && p.data.value.minted == tid
  }

  /** The first print of the gallery that carries the id. */
  predicate IsFirstMatch(gallery: seq<Stored>, tid: Bytes16, k: nat) {
    && k < |gallery| && Matches(gallery[k], tid)
    && forall j :: 0 <= j < k ==> !Matches(gallery[j], tid)
  }

  function FirstMatch(gallery: seq<Stored>, tid: Bytes16): (k: Option<nat>)
    ensures k.Some? ==> IsFirstMatch(gallery, tid, k.value)
    ensures k.None? ==> forall j :: 0 <= j < |gallery| ==> !Matches(gallery[j], tid)
  {
    if gallery == [] then None
    else if Matches(gallery[0], tid) then Some(0)
    else match FirstMatch(gallery[1..], tid)
         case None => assert forall j :: 0 < j < |gallery| ==> gallery[j] == gallery[1..][j - 1]; None
         case Some(k) => assert forall j :: 0 < j <= k ==> gallery[j] == gallery[1..][j - 1]; Some(k + 1)
  }

  method FindFirst(gallery: seq<Stored>, tid: Bytes16) returns (found: Option<nat>)
    ensures found == FirstMatch(gallery, tid)
  {
    var i := 0;
    while i < |gallery|
      invariant 0 <= i <= |gallery|
      invariant forall j :: 0 <= j < i ==> !Matches(gallery[j], tid)
    {
      if Matches(gallery[i], tid) {
        assert IsFirstMatch(gallery, tid, i);
        return Some(i);
      }
      i := i + 1;
    }
    found := None;
  }

  /** The reply to the match command: too short, no match, or the id of a template. */
  datatype Match = Malformed | NoMatch | MatchOf(tid: Bytes16)

  function ParseMatch(resp: Bytes): Match {
    if |resp| < 2 then Malformed
    else if Le16At(resp, 0) != 0 then NoMatch
    else if |resp| < 18 then Malformed
    else MatchOf(resp[2..18])
  }

  // ------------------------------------------------------------- specification

  datatype Verdict = Found(k: nat) | NotFound | NoResult(why: C.Why)

  /** What the user's side is told. `k` is the position of the print in the gallery. */
  datatype Word = Report(verdict: Verdict) | Completion(error: Option<C.Why>)

  datatype VerifyCmd = GrabFinger | BeginId

  datatype VerifyPhase = Capturing | Matching | Over

  datatype Exchanged = Exchanged(cmd: VerifyCmd, event: E.EnrollEvent)

  /** Verification is identification in a gallery of at most one print. */
  datatype Request = Request(gallery: seq<Stored>, deadline: int)

  datatype Vfy = Vfy(phase: VerifyPhase, attempt: nat, sent: seq<VerifyCmd>, said: seq<Word>, log: seq<Exchanged>)

  function CmdIn(s: Vfy): VerifyCmd
    requires s.phase != Over
  {
    if s.phase == Capturing then GrabFinger else BeginId
  }

  function Go(s: Vfy, phase: VerifyPhase): Vfy
    requires phase != Over
  {
    var s' := s.(phase := phase);
    s'.(sent := s'.sent + [CmdIn(s')])
  }

  function Begin(): Vfy {
    Go(Vfy(Capturing, 0, [], [], []), Capturing)
  }

  /** The machine is done. A retry error is reported, and then no longer passed to the completion. */
  function Done(s: Vfy, error: Option<C.Why>): Vfy {
    s.(phase := Over,
       said := s.said + if error == Some(C.Retry) then [Report(NoResult(C.Retry)), Completion(None)]
                        else [Completion(error)])
  }

  function Answer(r: Request, s: Vfy, resp: Bytes): Vfy {
    match ParseMatch(resp)
    case Malformed => Done(s, Some(E.PROTOCOL_ERROR))
    case NoMatch => Done(s.(said := s.said + [Report(NotFound)]), None)
    case MatchOf(tid) =>
      var verdict := match FirstMatch(r.gallery, tid) case Some(k) => Found(k) case None => NotFound;
      Done(s.(said := s.said + [Report(verdict)]), None)
  }

  predicate Fits(s: Vfy, e: E.EnrollEvent) {
    s.phase != Over && (e.outcome.Broken? || (s.phase == Capturing <==> e.outcome.Captured?))
  }

  function React(r: Request, s: Vfy, e: E.EnrollEvent): Vfy
    requires Fits(s, e)
  {
    match e.outcome
    case Broken(why) =>
      if s.phase == Matching then Done(s, Some(why))
      else
        var s' := s.(attempt := s.attempt + 1);
        if s'.attempt >= MAX_ATTEMPTS || e.now >= r.deadline then Done(s', Some(why)) else Go(s', Capturing)
    case Captured => Go(s, Matching)
    case Answered(resp) => Answer(r, s, resp)
  }

  function VerifyStep(r: Request, s: Vfy, e: E.EnrollEvent): Vfy {
    if Fits(s, e) then React(r, s.(log := s.log + [Exchanged(CmdIn(s), e)]), e) else s
  }

  // --------------------------------------------------------------- the machine

  class VerifySsm {
    const gallery: seq<Stored>
    const deadline: int
    var phase: VerifyPhase
    var attempt: nat
    var sent: seq<VerifyCmd>
    var said: seq<Word>
    ghost var log: seq<Exchanged>

    function Given(): Request {
      Request(gallery, deadline)
    }

    ghost function State(): Vfy
      reads this
    {
      Vfy(phase, attempt, sent, said, log)
    }

    constructor (gallery: seq<Stored>, now: int)
      ensures Given() == Request(gallery, now + 45_000_000) && State() == Begin()
    {
      this.gallery, deadline := gallery, now + VERIFY_TIMEOUT_US;
      phase, attempt, sent, said, log := Capturing, 0, [GrabFinger], [], [];
    }

    method JumpTo(p: VerifyPhase)
      requires p != Over
      modifies this`phase, this`sent
      ensures State() == Go(old(State()), p)
    {
      phase := p;
      sent := sent + [if p == Capturing then GrabFinger else BeginId];
    }

    /** The completion callback of the machine. */
    method SsmDone(failure: Option<C.Why>)
      modifies this`phase, this`said
      ensures State() == Done(old(State()), failure)
    {
      var error := failure;
      phase := Over;
      if error.Some? && error.value.Retry? {
        said := said + [Report(NoResult(error.value))];
        error := None;
      }
      said := said + [Completion(error)];
      assert error != failure ==> said == old(said) + [Report(NoResult(C.Retry)), Completion(None)];
    }

    method OnCaptureDone(now: int, error: Option<C.Why>)
      requires phase == Capturing
      modifies this`phase, this`attempt, this`sent, this`said
      ensures var e := E.EnrollEvent(now, if error.None? then E.Captured else E.Broken(error.value));
              State() == React(Given(), old(State()), e)
    {
      if error.Some? {
        attempt := attempt + 1;
        if attempt >= MAX_ATTEMPTS || now >= deadline {
          SsmDone(error);
          return;
        }
        JumpTo(Capturing);
        return;
      }
      JumpTo(Matching);
    }

    method OnMatchDone(resp: Bytes)
      requires phase == Matching
      modifies this`phase, this`said
      ensures State() == Answer(Given(), old(State()), resp)
    {
      var m := ParseMatch(resp);
      if m.Malformed? {
        SsmDone(Some(E.PROTOCOL_ERROR));
        return;
      }
      var verdict := NotFound;
      if m.MatchOf? {
        var found := FindFirst(gallery, m.tid);
        if found.Some? {
          verdict := Found(found.value);
        }
      }
      said := said + [Report(verdict)];
      SsmDone(None);
    }

    method Deliver(e: E.EnrollEvent)
      modifies this
      ensures State() == VerifyStep(Given(), old(State()), e)
    {
      if phase == Over || (!e.outcome.Broken? && e.outcome.Captured? != (phase == Capturing)) {
        return;
      }
      log := log + [Exchanged(CmdIn(State()), e)];
      if phase == Capturing {
        OnCaptureDone(e.now, if e.outcome.Broken? then Some(e.outcome.why) else None);
      } else if e.outcome.Broken? {
        SsmDone(Some(e.outcome.why));
      } else {
        OnMatchDone(e.outcome.resp);
      }
    }
  }

  // ----------------------------------------------------------------- whole runs

  function VerifyAfter(r: Request, es: seq<E.EnrollEvent>): Vfy
    decreases |es|
  {
    if es == [] then Begin() else VerifyStep(r, VerifyAfter(r, es[..|es| - 1]), es[|es| - 1])
  }

  /** A capture that failed early enough and seldom enough to be tried again. */
  predicate TriedAgain(r: Request, x: Exchanged) {
    x.cmd == GrabFinger && x.event.outcome.Broken? && x.event.now < r.deadline
  }

  /** The first `n` exchanges are captures that were tried again. */
  predicate OnlyRetries(r: Request, log: seq<Exchanged>, n: nat) {
    n <= |log| && n < MAX_ATTEMPTS && forall i :: 0 <= i < n ==> TriedAgain(r, log[i])
  }

  function Grabs(n: nat): (cs: seq<VerifyCmd>)
    ensures |cs| == n
  {
    seq(n, i => GrabFinger)
  }

  /** The last capture failed for good: it was the eighth, or it failed too late. */
  predicate GaveUp(r: Request, log: seq<Exchanged>) {
    && log != [] && OnlyRetries(r, log, |log| - 1)
    && var x := log[|log| - 1];
       && x.cmd == GrabFinger && x.event.outcome.Broken?
       && (|log| == MAX_ATTEMPTS || x.event.now >= r.deadline)
  }

  /** After some retries a capture succeeded and the match command ended with its last exchange. */
  predicate Matched(r: Request, log: seq<Exchanged>) {
    && |log| >= 2 && OnlyRetries(r, log, |log| - 2)
    && log[|log| - 2].cmd == GrabFinger && log[|log| - 2].event.outcome.Captured?
    && log[|log| - 1].cmd == BeginId && !log[|log| - 1].event.outcome.Captured?
  }

  /** What the end of the log lets the user know. */
  function Words(r: Request, e: E.EnrollEvent): seq<Word> {
    match e.outcome
    case Broken(why) =>
      if why == C.Retry then [Report(NoResult(C.Retry)), Completion(None)] else [Completion(Some(why))]
    case Captured => []
    case Answered(resp) =>
      match ParseMatch(resp)
      case Malformed => [Completion(Some(E.PROTOCOL_ERROR))]
      case NoMatch => [Report(NotFound), Completion(None)]
      case MatchOf(tid) =>
        [Report(match FirstMatch(r.gallery, tid) case Some(k) => Found(k) case None => NotFound), Completion(None)]
  }

  predicate OnTrack(r: Request, s: Vfy) {
    match s.phase
    case Capturing =>
      s.said == [] && s.attempt == |s.log| && OnlyRetries(r, s.log, |s.log|) && s.sent == Grabs(|s.log| + 1)
    case Matching =>
      && s.said == [] && s.log != [] && OnlyRetries(r, s.log, |s.log| - 1)
      && s.log[|s.log| - 1].cmd == GrabFinger && s.log[|s.log| - 1].event.outcome.Captured?
      && s.sent == Grabs(|s.log|) + [BeginId]
    case Over =>
      && (GaveUp(r, s.log) || Matched(r, s.log))
      && s.said == Words(r, s.log[|s.log| - 1].event)
      && s.sent == if GaveUp(r, s.log) then Grabs(|s.log|) else Grabs(|s.log| - 1) + [BeginId]
  }

  lemma EndSays(r: Request, s: Vfy, e: E.EnrollEvent)
    requires e.outcome.Answered?
    ensures Answer(r, s, e.outcome.resp) == s.(phase := Over, said := s.said + Words(r, e))
  {
    hide FirstMatch;
  }

  lemma StepStaysOnTrack(r: Request, s: Vfy, e: E.EnrollEvent)
    requires OnTrack(r, s)
    ensures OnTrack(r, VerifyStep(r, s, e))
  {
    hide FirstMatch, Answer;
    if e.outcome.Answered? {
      EndSays(r, s, e);
      if Fits(s, e) {
        EndSays(r, s.(log := s.log + [Exchanged(CmdIn(s), e)]), e);
      }
    }
    if Fits(s, e) {
      var s' := VerifyStep(r, s, e);
      var x := Exchanged(CmdIn(s), e);
      assert s'.log == s.log + [x];
      assert forall i :: 0 <= i < |s.log| ==> s'.log[i] == s.log[i];
    }
  }

  lemma {:induction false} RunStaysOnTrack(r: Request, es: seq<E.EnrollEvent>)
    ensures OnTrack(r, VerifyAfter(r, es))
    decreases |es|
  {
    hide VerifyStep, OnTrack, Begin;
    if es == [] {
      BeginIsOnTrack(r);
    } else {
      RunStaysOnTrack(r, es[..|es| - 1]);
      StepStaysOnTrack(r, VerifyAfter(r, es[..|es| - 1]), es[|es| - 1]);
    }
  }

  lemma BeginIsOnTrack(r: Request)
    ensures OnTrack(r, Begin())
  {
  }

  // --------------------------------------------------------------- main results

  /** In every run there are at most eight captures and, after them, at most one match command. */
  lemma AtMostOneMatch(r: Request, es: seq<E.EnrollEvent>) returns (n: nat)
    ensures var s := VerifyAfter(r, es);
            1 <= n <= MAX_ATTEMPTS && (s.sent == Grabs(n) || s.sent == Grabs(n) + [BeginId])
  {
    hide VerifyAfter;
    RunStaysOnTrack(r, es);
    var s := VerifyAfter(r, es);
    n := if s.phase == Capturing then |s.log| + 1
         else if s.phase == Matching || GaveUp(r, s.log) then |s.log|
         else |s.log| - 1;
  }

  /** The print carries the id that was minted for it, and both its ids are whole. */
  ghost predicate Carries(p: Stored, tid: Bytes16) {
    exists finger, listed, userId :: |listed| == 16 && p == Stored(Some(PrintData(finger, tid, listed, userId)))
  }

  /** No print before number `k` carries the id. */
  ghost predicate NoneBefore(gallery: seq<Stored>, tid: Bytes16, k: nat)
    requires k <= |gallery|
  {
    forall j :: 0 <= j < k ==> !Carries(gallery[j], tid)
  }

  lemma MatchesIffCarries(p: Stored, tid: Bytes16)
    ensures Matches(p, tid) <==> Carries(p, tid)
  {
    if Matches(p, tid) {
      var d := p.data.value;
      assert p == Stored(Some(PrintData(d.finger, tid, d.listed, d.userId)));
    }
  }

  lemma FirstCarrier(gallery: seq<Stored>, tid: Bytes16)
    ensures forall k: nat ::
      IsFirstMatch(gallery, tid, k) <==> k < |gallery| && Carries(gallery[k], tid) && NoneBefore(gallery, tid, k)
    ensures (forall j :: 0 <= j < |gallery| ==> !Matches(gallery[j], tid)) <==> NoneBefore(gallery, tid, |gallery|)
  {
    hide Matches, Carries;
    forall p {
      MatchesIffCarries(p, tid);
    }
  }

  /** The reply to the match command names a template. */
  predicate Names(x: Exchanged, tid: Bytes16) {
    && x.cmd == BeginId && x.event.outcome.Answered?
    && var resp := x.event.outcome.resp;
       |resp| >= 18 && StatusOf(resp) == 0 && resp[2..18] == tid
  }

  /** The reply to the match command is a good one that says no finger matched. */
  predicate SaysNoMatch(x: Exchanged) {
    x.cmd == BeginId && x.event.outcome.Answered? && |x.event.outcome.resp| >= 2 && StatusOf(x.event.outcome.resp) != 0
  }

  /** The reply is too short for a status, or for the id that a success has to name. */
  predicate IsMalformed(x: Exchanged) {
    && x.cmd == BeginId && x.event.outcome.Answered?
    && var resp := x.event.outcome.resp; |resp| < 2 || (StatusOf(resp) == 0 && |resp| < 18)
  }

  /** What is said at the end, from the last exchange alone. */
  ghost predicate SaysRight(gallery: seq<Stored>, x: Exchanged, said: seq<Word>) {
    // one completion, and an error in it exactly if there is no report
    && ((exists w :: said == [Completion(Some(w))]) || (exists v :: said == [Report(v), Completion(None)]))
    // a print is found exactly if it is the first whose id the reply names
    && (forall k: nat :: Report(Found(k)) in said <==>
          exists tid :: Names(x, tid) && k < |gallery| && Carries(gallery[k], tid) && NoneBefore(gallery, tid, k))
    // nothing is found exactly if the reply says so or names an id that no print carries
    && (Report(NotFound) in said <==>
          || SaysNoMatch(x)
          || exists tid :: Names(x, tid) && NoneBefore(gallery, tid, |gallery|))
    // a retry error is reported, any other error completes the run
    && (forall w :: Report(NoResult(w)) in said <==> x.event.outcome == E.Broken(w) && w == C.Retry)
    && (forall w :: Completion(Some(w)) in said <==>
          (x.event.outcome == E.Broken(w) && w != C.Retry) || (IsMalformed(x) && w == C.Fault(1)))
  }

  /** Nothing is said before the end, and what is said in the end is exactly what the last exchange asks for. */
  lemma VerifyOutcome(r: Request, es: seq<E.EnrollEvent>)
    ensures var s := VerifyAfter(r, es);
      if s.phase != Over then s.said == []
      else s.log != [] && SaysRight(r.gallery, s.log[|s.log| - 1], s.said)
  {
    hide VerifyAfter, FirstMatch, Matches, SaysRight;
    RunStaysOnTrack(r, es);
    var s := VerifyAfter(r, es);
    if s.phase == Over {
      WordsAreRight(r, s.log[|s.log| - 1]);
    }
  }

  lemma WordsAreRight(r: Request, x: Exchanged)
    requires !x.event.outcome.Captured? && (x.event.outcome.Answered? ==> x.cmd == BeginId)
    ensures SaysRight(r.gallery, x, Words(r, x.event))
  {
    hide Carries, NoneBefore;
    if x.event.outcome.Broken? {
      BrokenWords(r, x);
    } else {
      match ParseMatch(x.event.outcome.resp)
      case Malformed => assert Words(r, x.event) == [Completion(Some(E.PROTOCOL_ERROR))];
      case NoMatch => assert Words(r, x.event) == [Report(NotFound), Completion(None)];
      case MatchOf(tid) => NamedWords(r, x, tid);
    }
  }

  lemma BrokenWords(r: Request, x: Exchanged)
    requires x.event.outcome.Broken?
    ensures SaysRight(r.gallery, x, Words(r, x.event))
  {
    hide Carries, NoneBefore;
    var why := x.event.outcome.why;
    if why == C.Retry {
      assert Words(r, x.event) == [Report(NoResult(C.Retry)), Completion(None)];
    } else {
      assert Words(r, x.event) == [Completion(Some(why))];
    }
  }

  lemma NamedWords(r: Request, x: Exchanged, tid: Bytes16)
    requires x.event.outcome.Answered? && x.cmd == BeginId && ParseMatch(x.event.outcome.resp) == MatchOf(tid)
    ensures SaysRight(r.gallery, x, Words(r, x.event))
  {
    hide Matches, FirstMatch, IsFirstMatch, Carries, NoneBefore;
    assert Names(x, tid) && forall t :: Names(x, t) ==> t == tid;
    forall k: nat {
      OneFirstMatch(r.gallery, tid, k);
    }
    NoFirstMatch(r.gallery, tid);
    FirstCarrier(r.gallery, tid);
    var verdict := match FirstMatch(r.gallery, tid) case Some(k) => Found(k) case None => NotFound;
    assert Words(r, x.event) == [Report(verdict), Completion(None)];
  }

  lemma NoFirstMatch(gallery: seq<Stored>, tid: Bytes16)
    ensures FirstMatch(gallery, tid) == None <==> forall j :: 0 <= j < |gallery| ==> !Matches(gallery[j], tid)
  {
  }

  lemma OneFirstMatch(gallery: seq<Stored>, tid: Bytes16, k: nat)
    ensures FirstMatch(gallery, tid) == Some(k) <==> IsFirstMatch(gallery, tid, k)
  {
    var f := FirstMatch(gallery, tid);
    assert f.Some? && IsFirstMatch(gallery, tid, k) ==> !(k < f.value) && !(f.value < k);
  }

  /**
   * Enrolment and verification together: a finger verified against the print
   * that an enrolment handed out is reported exactly if the sensor echoes the
   * id that it minted with the only full sample of that enrolment.
   */
  lemma EnrolledPrintVerifies(u: E.Setup, enrolment: seq<E.EnrollEvent>, deadline: int, es: seq<E.EnrollEvent>)
      returns (i: nat)
    requires E.Enrolled(E.EnrollAfter(u, enrolment))
    ensures var enrolled := E.EnrollAfter(u, enrolment);
      && E.OnlyMintingAt(enrolled.log, i)
      && var minted := enrolled.log[i].event.outcome.resp[2..18];
         var s := VerifyAfter(Request([Store(enrolled.said[|enrolled.said| - 1].minted.value)], deadline), es);
         s.phase == Over ==>
           s.log != [] && (Report(Found(0)) in s.said <==> Names(s.log[|s.log| - 1], minted))
  {
    hide E.EnrollAfter, VerifyAfter;
    var c;
    c, i := E.EnrolledMeans(u, enrolment);
    var enrolled := E.EnrollAfter(u, enrolment);
    var minted := enrolled.log[i].event.outcome.resp[2..18];
    var p := E.PrintFor(u, minted);
    var r := Request([Store(p)], deadline);
    VerifyOutcome(r, es);
    FoundIfNamed(p, minted);
  }

  lemma FoundIfNamed(p: E.Print, minted: Bytes16)
    requires p.minted == minted
    ensures forall tid: Bytes16 :: Carries([Store(p)][0], tid) <==> tid == minted
    ensures forall tid: Bytes16 :: NoneBefore([Store(p)], tid, 0)
  {
    forall tid: Bytes16 {
      MatchesIffCarries(Store(p), tid);
    }
  }

  /** Verification ends with a capture's error exactly when that was the eighth capture or came too late. */
  lemma GivesUpIff(r: Request, es: seq<E.EnrollEvent>)
    requires VerifyAfter(r, es).phase == Over
    ensures var log := VerifyAfter(r, es).log;
      && log != []
      && var x := log[|log| - 1];
      && (x.cmd == GrabFinger <==> GaveUp(r, log))
      && (x.cmd == GrabFinger ==> |log| == MAX_ATTEMPTS || x.event.now >= r.deadline)
      && forall i :: 0 <= i < |log| - 1 && log[i].event.outcome.Broken? ==>
           i + 1 < MAX_ATTEMPTS && log[i].event.now < r.deadline
  {
    hide VerifyAfter, Words;
    RunStaysOnTrack(r, es);
  }

  // ------------------------------------------------------- the run as a table

  /** What follows the last of these exchanges: the next command, or the end. */
  function Follows(r: Request, log: seq<Exchanged>): Option<VerifyCmd>
    requires log != []
  {
    var x := log[|log| - 1];
    match x.event.outcome
    case Captured => Some(BeginId)
    case Broken(_) => if x.cmd == GrabFinger && |log| < 8 && x.event.now < r.deadline then Some(GrabFinger) else None
    case Answered(_) => None
  }

  function Pending(r: Request, log: seq<Exchanged>): Option<VerifyCmd> {
    if log == [] then Some(GrabFinger) else Follows(r, log)
  }

  /** A capture is not answered, and nothing but a capture reports that it is done. */
  predicate Plausible(x: Exchanged) {
    x.event.outcome.Broken? || (x.cmd == GrabFinger <==> x.event.outcome.Captured?)
  }

  /** The exchanges that these events make up. What does not answer the pending command is not delivered. */
  function History(r: Request, es: seq<E.EnrollEvent>): seq<Exchanged>
    decreases |es|
  {
    if es == [] then []
    else
      var log, e := History(r, es[..|es| - 1]), es[|es| - 1];
      match Pending(r, log)
      case None => log
      case Some(cmd) => if Plausible(Exchanged(cmd, e)) then log + [Exchanged(cmd, e)] else log
  }

  /** The commands sent are those of the exchanges and the one that is waited for. */
  predicate SentRight(r: Request, s: Vfy) {
    && (s.phase == Over <==> Pending(r, s.log) == None)
    && (s.phase != Over ==> Pending(r, s.log) == Some(CmdIn(s)))
    && |s.sent| == |s.log| + (if s.phase == Over then 0 else 1)
    && (s.phase != Over ==> s.sent[|s.log|] == CmdIn(s))
    && forall i :: 0 <= i < |s.log| ==> s.log[i].cmd == s.sent[i]
  }

  lemma StepIsTable(r: Request, s: Vfy, e: E.EnrollEvent)
    requires OnTrack(r, s) && SentRight(r, s)
    ensures SentRight(r, VerifyStep(r, s, e))
    ensures VerifyStep(r, s, e).log ==
      match Pending(r, s.log)
      case None => s.log
      case Some(cmd) => if Plausible(Exchanged(cmd, e)) then s.log + [Exchanged(cmd, e)] else s.log
  {
    hide FirstMatch, OnlyRetries, GaveUp, Matched, Words, ParseMatch;
    if Fits(s, e) {
      var s' := VerifyStep(r, s, e);
      var x := Exchanged(CmdIn(s), e);
      assert s'.log == s.log + [x];
      assert s'.log[|s.log|] == x;
      OnlyRetriesIsShort(r, s.log, |s.log|);
    }
  }

  lemma OnlyRetriesIsShort(r: Request, log: seq<Exchanged>, n: nat)
    ensures OnlyRetries(r, log, n) ==> n < MAX_ATTEMPTS
  {
  }

  /** In every run the exchanges, the commands and the end are what the table says. */
  lemma {:induction false} VerifyObeysTable(r: Request, es: seq<E.EnrollEvent>)
    ensures var s := VerifyAfter(r, es); s.log == History(r, es) && SentRight(r, s)
    decreases |es|
  {
    hide VerifyStep, SentRight, OnTrack, Pending, Plausible;
    if es == [] {
      BeginIsRight(r);
    } else {
      VerifyObeysTable(r, es[..|es| - 1]);
      RunStaysOnTrack(r, es[..|es| - 1]);
      StepIsTable(r, VerifyAfter(r, es[..|es| - 1]), es[|es| - 1]);
    }
  }

  lemma BeginIsRight(r: Request)
    ensures Begin().log == [] && SentRight(r, Begin())
  {
  }

  // ------------------------------------------------ a run that ends in a retry

  /** The event of a capture in which no finger was detected. */
  function Miss(now: int): E.EnrollEvent {
    E.EnrollEvent(now, E.Broken(C.Retry))
  }

  function Misses(n: nat, now: int): (es: seq<E.EnrollEvent>)
    ensures |es| == n
  {
    if n == 0 then [] else Misses(n - 1, now) + [Miss(now)]
  }

  lemma OneMiss(r: Request, s: Vfy, now: int)
    requires s.phase == Capturing && now < r.deadline
    ensures var s' := VerifyStep(r, s, Miss(now));
      if s.attempt + 1 < MAX_ATTEMPTS then
        s'.phase == Capturing && s'.attempt == s.attempt + 1 && s'.said == s.said && s'.sent == s.sent + [GrabFinger]
      else
        s'.phase == Over && s'.sent == s.sent && s'.said == s.said + [Report(NoResult(C.Retry)), Completion(None)]
  {
  }

  lemma {:induction false} StillTrying(r: Request, n: nat, now: int)
    requires n < MAX_ATTEMPTS && now < r.deadline
    ensures var s := VerifyAfter(r, Misses(n, now));
            s.phase == Capturing && s.attempt == n && s.said == [] && s.sent == Grabs(n + 1)
  {
    hide VerifyStep;
    if n == 0 {
      assert Grabs(1) == [GrabFinger];
    } else {
      StillTrying(r, n - 1, now);
      assert Misses(n, now)[..n - 1] == Misses(n - 1, now);
      OneMiss(r, VerifyAfter(r, Misses(n - 1, now)), now);
      assert Grabs(n + 1) == Grabs(n) + [GrabFinger];
    }
  }

  /** Eight captures without a finger, all in time: the retry error is reported, and the completion carries none. */
  lemma EightMisses(r: Request, now: int)
    requires now < r.deadline
    ensures var s := VerifyAfter(r, Misses(MAX_ATTEMPTS, now));
            s.phase == Over && s.sent == Grabs(MAX_ATTEMPTS) && s.said == [Report(NoResult(C.Retry)), Completion(None)]
  {
    hide VerifyStep;
    StillTrying(r, MAX_ATTEMPTS - 1, now);
    assert Misses(MAX_ATTEMPTS, now)[..MAX_ATTEMPTS - 1] == Misses(MAX_ATTEMPTS - 1, now);
    OneMiss(r, VerifyAfter(r, Misses(MAX_ATTEMPTS - 1, now)), now);
  }
}
