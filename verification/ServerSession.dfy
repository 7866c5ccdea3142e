/**
 One control session of a server: the handler reads requests one at a time,
 while the metrics task of the running test writes frames to the same stream.

 Frames are written atomically. Tests are numbered as they are launched; a reply
 carries the number below which every test had been stopped when it was written.
 */
module ServerSession {
  import opened Common

  datatype Request = Start | Stop | Other

  datatype Frame = StartAck(test: nat) | Error(test: nat) | StopAck(test: nat) | Metrics(test: nat)

  datatype Then = Launch | AckStop | Leave

  datatype Handler =
    | Reading
    | Stopping(andThen: Then)
    | Launching
    | Replying(reply: Frame)
    | Exited

  /**
   `held` is the test the handler owns, `live` the tests whose metrics task has
   not been joined. `consumed` lists the requests read; the program does not keep it.
   */
  datatype State = State(
    handler: Handler, held: Option<nat>, live: set<nat>, launched: nat,
    consumed: seq<Request>, out: seq<Frame>)

  datatype Event =
    | Read(req: Request)
    | ReadFails
    | Stopped
    | LaunchOk
    | LaunchFails
    | Write
    | WriteFails
    | Emit(test: nat)

  const INITIAL: State := State(Reading, None, {}, 0, [], [])

  predicate Enabled(s: State, e: Event) {
    match e
    case Read(_) => s.handler.Reading?
    case ReadFails => s.handler.Reading?
    case Stopped => s.handler.Stopping?
    case LaunchOk => s.handler.Launching?
    case LaunchFails => s.handler.Launching?
    case Write => s.handler.Replying?
    case WriteFails => s.handler.Replying?
    case Emit(test) => test in s.live
  }

  /** Stops the held test first, if there is one. */
  function StopThen(s: State, andThen: Then): Handler {
    if s.held.Some? then Stopping(andThen) else Continue(s, andThen)
  }

  function Continue(s: State, andThen: Then): Handler {
    match andThen
    case Launch => Launching
    case AckStop => Replying(StopAck(s.launched))
    case Leave => Exited
  }

  function Step(s: State, e: Event): State
    requires Enabled(s, e)
  {
    match e
    case Read(req) =>
      var t := s.(consumed := s.consumed + [req]);
      (match req
       case Start => t.(handler := StopThen(s, Launch))
       case Stop => t.(handler := StopThen(s, AckStop))
       case Other => t)
    case ReadFails => s.(handler := StopThen(s, Leave))
    case Stopped =>
      var gone := if s.held.Some? then {s.held.value} else {};
      s.(handler := Continue(s, s.handler.andThen), held := None, live := s.live - gone)
    case LaunchOk =>
      s.(handler := Replying(StartAck(s.launched)), held := Some(s.launched),
         live := s.live + {s.launched}, launched := s.launched + 1)
    case LaunchFails => s.(handler := Replying(Error(s.launched)))
    case Write => s.(handler := Reading, out := s.out + [s.handler.reply])
    case WriteFails =>
      (match s.handler.reply
       case StartAck(_) => s.(handler := StopThen(s, Leave))
       case Error(_) => s.(handler := Reading)
       case _ => s.(handler := Exited))
    case Emit(test) => s.(out := s.out + [Metrics(test)])
  }

  predicate Runs(s: State, es: seq<Event>)
    decreases es, 0
  {
    es == [] || (Runs(s, es[..|es| - 1]) && Enabled(After(s, es[..|es| - 1]), es[|es| - 1]))
  }

  function After(s: State, es: seq<Event>): State
    requires Runs(s, es)
    decreases es, 1
  {
    if es == [] then s else Step(After(s, es[..|es| - 1]), es[|es| - 1])
  }

  // ---------- tests ----------

  /** The handler owns the only live test, and owns none once it has stopped it. */
  predicate OneTest(s: State) {
    && s.live == (if s.held.Some? then {s.held.value} else {})
    && (s.held.Some? ==> s.held.value < s.launched)
    && (s.handler.Launching? || s.handler.Exited? ==> s.held.None?)
    && (s.handler.Replying? ==>
          match s.handler.reply
          case StartAck(test) => s.held == Some(test) && test + 1 == s.launched
          case Error(test) => s.held.None? && test == s.launched
          case StopAck(test) => s.held.None? && test == s.launched
          case Metrics(_) => false)
  }

  /** No frame of a test below the number of an earlier reply. */
  predicate StoppedStaySilent(out: seq<Frame>) {
    forall i, j :: 0 <= i < j < |out| && !out[i].Metrics? && out[j].Metrics? ==> out[i].test <= out[j].test
  }

  /** Live tests, and those yet to come, are above every reply written. */
  predicate RepliesBelow(s: State) {
    forall i :: 0 <= i < |s.out| && !s.out[i].Metrics? ==>
      s.out[i].test <= s.launched && forall test :: test in s.live ==> s.out[i].test <= test
  }

  predicate Safe(s: State) {
    OneTest(s) && StoppedStaySilent(s.out) && RepliesBelow(s)
  }

  lemma SafeStep(s: State, e: Event)
    requires Safe(s) && Enabled(s, e)
    ensures Safe(Step(s, e))
  {
  }

  lemma {:induction false} EveryRunSafe(es: seq<Event>)
    requires Runs(INITIAL, es)
    ensures Safe(After(INITIAL, es))
  {
    hide Safe;
    if es == [] {
      InitiallySafe();
    } else {
      EveryRunSafe(es[..|es| - 1]);
      SafeStep(After(INITIAL, es[..|es| - 1]), es[|es| - 1]);
    }
  }

  lemma InitiallySafe()
    ensures Safe(INITIAL)
  {
  }

  /** Never two tests at once, and none after the session however it ends. */
  lemma AtMostOneTest(es: seq<Event>)
    requires Runs(INITIAL, es)
    ensures var s := After(INITIAL, es); |s.live| <= 1 && (s.handler.Exited? ==> s.live == {})
  {
    EveryRunSafe(es);
  }

  /** After the reply that follows its stop, a test is not heard of again. */
  lemma NoMetricsAfterStop(es: seq<Event>, i: nat, j: nat)
    requires Runs(INITIAL, es)
    requires var out := After(INITIAL, es).out; i < j < |out| && !out[i].Metrics? && out[j].Metrics?
    ensures var out := After(INITIAL, es).out; out[j].test >= out[i].test
  {
    EveryRunSafe(es);
  }

  // ---------- the end of a session ----------

  /** The session is being left or has been; what is left to do is to stop the test. */
  predicate Ending(s: State) {
    s.handler == Stopping(Leave) || (s.handler.Exited? && s.live == {})
  }

  lemma EndingStays(s: State, e: Event)
    requires OneTest(s) && Ending(s) && Enabled(s, e)
    ensures Ending(Step(s, e))
  {
  }

  /** Ends a session: a read that fails, a start ack that cannot be written, a stop ack that cannot. */
  predicate Ends(s: State, e: Event) {
    e.ReadFails? || (e.WriteFails? && s.handler.Replying? && !s.handler.reply.Error?)
  }

  lemma EndsStep(s: State, e: Event)
    requires OneTest(s) && Enabled(s, e) && Ends(s, e)
    ensures Ending(Step(s, e))
    ensures e.WriteFails? && s.handler.reply.StopAck? ==> Step(s, e).handler.Exited? && Step(s, e).live == {}
  {
  }

  lemma {:induction false} PrefixRuns(es: seq<Event>, k: nat)
    requires Runs(INITIAL, es) && k <= |es|
    ensures Runs(INITIAL, es[..k])
    ensures k < |es| ==> Enabled(After(INITIAL, es[..k]), es[k])
  {
    if k < |es| {
      var init := es[..|es| - 1];
      PrefixRuns(init, k);
      assert init[..k] == es[..k];
    } else {
      assert es[..k] == es;
    }
  }

  /**
   Once a read has failed, or an ack could not be written, the session is over: it only stops the
   test it has, and is exited with none live after that.
   */
  lemma {:induction false} SessionEnds(es: seq<Event>, k: nat)
    requires Runs(INITIAL, es) && k < |es|
    requires Runs(INITIAL, es[..k]) && Ends(After(INITIAL, es[..k]), es[k])
    ensures Ending(After(INITIAL, es))
  {
    hide Ending, Ends, OneTest, Enabled, Step;
    var init := es[..|es| - 1];
    EveryRunSafe(init);
    if k == |es| - 1 {
      EndsStep(After(INITIAL, init), es[k]);
    } else {
      assert init[..k] == es[..k];
      SessionEnds(init, k);
      EndingStays(After(INITIAL, init), es[|es| - 1]);
    }
  }

  /** A failed read ends the session wherever it comes in a run. */
  lemma FailedReadEnds(es: seq<Event>)
    requires Runs(INITIAL, es) && ReadFails in es
    ensures var s := After(INITIAL, es); s.handler == Stopping(Leave) || (s.handler.Exited? && s.live == {})
  {
    hide OneTest, Enabled, Step, Runs, After;
    var k :| 0 <= k < |es| && es[k] == ReadFails;
    PrefixRuns(es, k);
    SessionEnds(es, k);
  }

  /** An ack that cannot be written ends it too, after a Stop at once. */
  lemma FailedAckEnds(es: seq<Event>, k: nat)
    requires Runs(INITIAL, es) && k < |es| && es[k].WriteFails? && Runs(INITIAL, es[..k])
    requires var h := After(INITIAL, es[..k]).handler; h.Replying? && (h.reply.StartAck? || h.reply.StopAck?)
    ensures var s := After(INITIAL, es); s.handler == Stopping(Leave) || (s.handler.Exited? && s.live == {})
    ensures After(INITIAL, es[..k]).handler.reply.StopAck? ==> After(INITIAL, es).handler.Exited?
  {
    hide OneTest, Enabled, Step, Runs, After;
    SessionEnds(es, k);
    if After(INITIAL, es[..k]).handler.reply.StopAck? {
      StopAckFails(es, k);
    }
  }

  lemma {:induction false} StopAckFails(es: seq<Event>, k: nat)
    requires Runs(INITIAL, es) && k < |es| && es[k].WriteFails? && Runs(INITIAL, es[..k])
    requires var h := After(INITIAL, es[..k]).handler; h.Replying? && h.reply.StopAck?
    ensures After(INITIAL, es).handler.Exited?
  {
    var init := es[..|es| - 1];
    if k < |es| - 1 {
      assert init[..k] == es[..k];
      StopAckFails(init, k);
    }
  }

  /** An unexpected message, or an error reply that cannot be written, changes nothing for the test or the stream. */
  lemma SessionGoesOn(s: State, e: Event)
    requires Enabled(s, e)
    requires e == Read(Other) || (e.WriteFails? && s.handler.reply.Error?)
    ensures var t := Step(s, e); t.handler == Reading && t.held == s.held && t.live == s.live && t.out == s.out
  {
  }

  /** Stopping is always possible, and leaves the session with nothing live. */
  lemma LeavingCompletes(es: seq<Event>)
    requires Runs(INITIAL, es) && After(INITIAL, es).handler == Stopping(Leave)
    ensures var s := After(INITIAL, es);
            Enabled(s, Stopped) && Step(s, Stopped).handler.Exited? && Step(s, Stopped).live == {}
  {
    EveryRunSafe(es);
  }

  // ---------- metrics ----------

  /** The tests whose metrics frames have been written, in order. */
  function MetricsOf(out: seq<Frame>): seq<nat> {
    if out == [] then []
    else MetricsOf(out[..|out| - 1]) + if out[|out| - 1].Metrics? then [out[|out| - 1].test] else []
  }

  function Emitted(es: seq<Event>): seq<nat> {
    if es == [] then []
    else Emitted(es[..|es| - 1]) + if es[|es| - 1].Emit? then [es[|es| - 1].test] else []
  }

  lemma MetricsAppend(out: seq<Frame>, f: Frame)
    ensures MetricsOf(out + [f]) == MetricsOf(out) + if f.Metrics? then [f.test] else []
  {
    assert (out + [f])[..|out|] == out;
  }

  /** The metrics frames of the stream are those emitted, one each and in order. */
  lemma {:induction false} EveryMetricsFrameWritten(es: seq<Event>)
    requires Runs(INITIAL, es)
    ensures MetricsOf(After(INITIAL, es).out) == Emitted(es)
  {
    hide MetricsOf;
    if es == [] {
      NothingWritten();
    } else {
      var init, e := es[..|es| - 1], es[|es| - 1];
      var s := After(INITIAL, init);
      EveryMetricsFrameWritten(init);
      EveryRunSafe(init);
      match e
      case Write => MetricsAppend(s.out, s.handler.reply);
      case Emit(test) => MetricsAppend(s.out, Metrics(test));
      case _ =>
    }
  }

  lemma NothingWritten()
    ensures MetricsOf([]) == []
  {
  }

  // ---------- replies ----------

  function Replies(out: seq<Frame>): seq<Frame> {
    if out == [] then []
    else Replies(out[..|out| - 1]) + if out[|out| - 1].Metrics? then [] else [out[|out| - 1]]
  }

  function Answerable(reqs: seq<Request>): seq<Request> {
    if reqs == [] then []
    else Answerable(reqs[..|reqs| - 1]) + if reqs[|reqs| - 1].Other? then [] else [reqs[|reqs| - 1]]
  }

  predicate Answers(reply: Frame, req: Request) {
    match req
    case Start => reply.StartAck? || reply.Error?
    case Stop => reply.StopAck?
    case Other => false
  }

  /** Which request the handler is still to answer. */
  function Pending(h: Handler): Option<Request> {
    match h
    case Stopping(Launch) => Some(Start)
    case Stopping(AckStop) => Some(Stop)
    case Launching => Some(Start)
    case Replying(StopAck(_)) => Some(Stop)
    case Replying(_) => Some(Start)
    case _ => None
  }

  /** One reply for each request, in order. */
  predicate AllAnswered(replies: seq<Frame>, reqs: seq<Request>) {
    if replies == [] || reqs == [] then replies == [] && reqs == []
    else
      && AllAnswered(replies[..|replies| - 1], reqs[..|reqs| - 1])
      && Answers(replies[|replies| - 1], reqs[|reqs| - 1])
  }

  /** The replies written answer the requests read, one each and in order, up to the one in hand. */
  predicate AnsweredInOrder(s: State) {
    var replies, reqs := Replies(s.out), Answerable(s.consumed);
    match Pending(s.handler)
    case None => AllAnswered(replies, reqs)
    case Some(req) =>
      && reqs != [] && reqs[|reqs| - 1] == req && AllAnswered(replies, reqs[..|reqs| - 1])
      && (s.handler.Replying? ==> Answers(s.handler.reply, req))
  }

  lemma AnswersAppend(replies: seq<Frame>, reqs: seq<Request>, f: Frame)
    requires reqs != [] && AllAnswered(replies, reqs[..|reqs| - 1]) && Answers(f, reqs[|reqs| - 1])
    ensures AllAnswered(replies + [f], reqs)
  {
    assert (replies + [f])[..|replies|] == replies;
  }

  lemma RepliesAppend(out: seq<Frame>, f: Frame)
    ensures Replies(out + [f]) == Replies(out) + if f.Metrics? then [] else [f]
  {
    assert (out + [f])[..|out|] == out;
  }

  lemma AnswerableAppend(reqs: seq<Request>, r: Request)
    ensures Answerable(reqs + [r]) == Answerable(reqs) + if r.Other? then [] else [r]
  {
    assert (reqs + [r])[..|reqs|] == reqs;
  }

  lemma AnsweredStep(s: State, e: Event)
    requires OneTest(s) && AnsweredInOrder(s) && Enabled(s, e) && !e.WriteFails?
    ensures AnsweredInOrder(Step(s, e))
  {
    hide Replies, Answerable, AllAnswered;
    match e
    case Read(req) =>
      AnswerableAppend(s.consumed, req);
      assert Answerable(s.consumed) + [] == Answerable(s.consumed);
      assert (Answerable(s.consumed) + [req])[..|Answerable(s.consumed)|] == Answerable(s.consumed);
    case Write =>
      RepliesAppend(s.out, s.handler.reply);
      AnswersAppend(Replies(s.out), Answerable(s.consumed), s.handler.reply);
    case Emit(test) =>
      RepliesAppend(s.out, Metrics(test));
      assert Replies(s.out) + [] == Replies(s.out);
    case _ =>
  }

  predicate WritesSucceed(es: seq<Event>) {
    forall i :: 0 <= i < |es| ==> !es[i].WriteFails?
  }

  /** While writes succeed every Start gets one Ack or Error and every Stop one Ack, in order. */
  lemma {:induction false} EveryRequestAnswered(es: seq<Event>)
    requires Runs(INITIAL, es) && WritesSucceed(es)
    ensures AnsweredInOrder(After(INITIAL, es))
  {
    hide AnsweredInOrder;
    if es == [] {
      NothingToAnswer();
    } else {
      var init := es[..|es| - 1];
      EveryRequestAnswered(init);
      EveryRunSafe(init);
      AnsweredStep(After(INITIAL, init), es[|es| - 1]);
    }
  }

  lemma NothingToAnswer()
    ensures AnsweredInOrder(INITIAL)
  {
  }

  /** The replies that a run calls for: what its launches came to, and an ack for each Stop. */
  function Verdicts(es: seq<Event>): seq<Frame> {
    if es == [] then []
    else
      var init := es[..|es| - 1];
      Verdicts(init) + Verdict(es[|es| - 1], Launches(init))
  }

  function Verdict(e: Event, launches: nat): seq<Frame> {
    match e
    case LaunchOk => [StartAck(launches)]
    case LaunchFails => [Error(launches)]
    case Read(Stop) => [StopAck(launches)]
    case _ => []
  }

  /** How many launches of a run have succeeded. */
  function Launches(es: seq<Event>): nat {
    if es == [] then 0 else Launches(es[..|es| - 1]) + if es[|es| - 1].LaunchOk? then 1 else 0
  }

  /** The reply that is certain but not yet written. */
  function Owed(s: State): seq<Frame> {
    match s.handler
    case Replying(reply) => [reply]
    case Stopping(AckStop) => [StopAck(s.launched)]
    case _ => []
  }

  lemma VerdictStep(s: State, e: Event)
    requires OneTest(s) && Enabled(s, e) && !e.WriteFails?
    ensures var t := Step(s, e);
            && Replies(t.out) + Owed(t) == Replies(s.out) + Owed(s) + Verdict(e, s.launched)
            && t.launched == s.launched + if e.LaunchOk? then 1 else 0
  {
    hide Replies;
    match e
    case Write => RepliesAppend(s.out, s.handler.reply);
    case Emit(test) => RepliesAppend(s.out, Metrics(test));
    case _ =>
  }

  /**
   While writes succeed, the replies say what happened: a Start is acknowledged exactly if its test
   was launched, under the next number, and nothing is said twice or left out.
   */
  lemma {:induction false} RepliesTellTheTruth(es: seq<Event>)
    requires Runs(INITIAL, es) && WritesSucceed(es)
    ensures var s := After(INITIAL, es); Replies(s.out) + Owed(s) == Verdicts(es) && s.launched == Launches(es)
  {
    hide Replies, Owed, Verdict, Enabled, Step, OneTest;
    if es == [] {
      NothingOwed();
    } else {
      var init, e := es[..|es| - 1], es[|es| - 1];
      var s := After(INITIAL, init);
      RepliesTellTheTruth(init);
      EveryRunSafe(init);
      VerdictStep(s, e);
      assert Replies(s.out) + Owed(s) + Verdict(e, s.launched) == Verdicts(es);
    }
  }

  lemma NothingOwed()
    ensures Replies(INITIAL.out) + Owed(INITIAL) == []
  {
  }

  // ---------- serving requests ----------

  /** A request, and whether the launch of a test succeeds if it is a Start. */
  datatype Job = Job(req: Request, launches: bool)

  /** A session in between requests, as its client sees it. */
  datatype Served = Served(running: Option<nat>, launched: nat, replies: seq<Frame>)

  /** What one request does when nothing fails but a launch. */
  function Serve(v: Served, job: Job): Served {
    match job.req
    case Start =>
      if job.launches then Served(Some(v.launched), v.launched + 1, v.replies + [StartAck(v.launched)])
      else Served(None, v.launched, v.replies + [Error(v.launched)])
    case Stop => Served(None, v.launched, v.replies + [StopAck(v.launched)])
    case Other => v
  }

  function ServeAll(jobs: seq<Job>): Served {
    if jobs == [] then Served(None, 0, []) else Serve(ServeAll(jobs[..|jobs| - 1]), jobs[|jobs| - 1])
  }

  /** The state between requests. */
  predicate Shows(s: State, v: Served) {
    && s.handler.Reading? && s.held == v.running && s.launched == v.launched && s.out == v.replies
    && s.live == if v.running.Some? then {v.running.value} else {}
  }

  /** The steps that serve one request. */
  function Steps(held: bool, job: Job): seq<Event> {
    if job.req.Other? then [Read(Other)]
    else
      [Read(job.req)] + (if held then [Stopped] else [])
      + (if job.req.Stop? then [] else if job.launches then [LaunchOk] else [LaunchFails]) + [Write]
  }

  lemma RunsOn(es: seq<Event>, e: Event)
    requires Runs(INITIAL, es) && Enabled(After(INITIAL, es), e)
    ensures Runs(INITIAL, es + [e]) && After(INITIAL, es + [e]) == Step(After(INITIAL, es), e)
  {
    assert (es + [e])[..|es|] == es;
  }

  /** Any request can be served when the session is ready to read one, and to this effect. */
  lemma RequestServed(es: seq<Event>, v: Served, job: Job)
    requires Runs(INITIAL, es) && Shows(After(INITIAL, es), v)
    ensures var more := es + Steps(v.running.Some?, job);
            Runs(INITIAL, more) && Shows(After(INITIAL, more), Serve(v, job))
  {
    hide Runs, After;
    var read := es + [Read(job.req)];
    RunsOn(es, Read(job.req));
    if job.req.Other? {
      return;
    }
    var stopped := read + if v.running.Some? then [Stopped] else [];
    if v.running.Some? {
      RunsOn(read, Stopped);
    } else {
      assert stopped == read;
    }
    var launch := if job.launches then LaunchOk else LaunchFails;
    var ready := stopped + if job.req.Stop? then [] else [launch];
    if job.req.Start? {
      RunsOn(stopped, launch);
    } else {
      assert ready == stopped;
    }
    RunsOn(ready, Write);
    assert ready + [Write] == es + Steps(v.running.Some?, job);
  }

  /** Every list of requests can be served, whatever comes of the launches. */
  lemma {:induction false} EveryRequestServed(jobs: seq<Job>) returns (es: seq<Event>)
    ensures Runs(INITIAL, es) && WritesSucceed(es) && Shows(After(INITIAL, es), ServeAll(jobs))
  {
    es := [];
    if jobs != [] {
      hide Shows, Runs, After;
      var init, job := jobs[..|jobs| - 1], jobs[|jobs| - 1];
      es := EveryRequestServed(init);
      RequestServed(es, ServeAll(init), job);
      es := es + Steps(ServeAll(init).running.Some?, job);
    }
  }

  /** The running test can write metrics at any moment, in between whatever the handler does. */
  lemma MetricsAnytime(es: seq<Event>)
    requires Runs(INITIAL, es) && After(INITIAL, es).held.Some?
    ensures var s, more := After(INITIAL, es), es + [Emit(After(INITIAL, es).held.value)];
            Runs(INITIAL, more) && After(INITIAL, more) == s.(out := s.out + [Metrics(s.held.value)])
  {
    EveryRunSafe(es);
    RunsOn(es, Emit(After(INITIAL, es).held.value));
  }

  /** How far a handler is from the end. */
  function Distance(h: Handler): nat {
    match h
    case Exited => 0
    case Stopping(Leave) => 1
    case Reading => 2
    case Replying(_) => 3
    case Launching => 4
    case Stopping(_) => 5
  }

  function TowardEnd(h: Handler): Event
    requires !h.Exited?
  {
    match h
    case Stopping(_) => Stopped
    case Reading => ReadFails
    case Replying(_) => Write
    case Launching => LaunchFails
  }

  lemma CloserToEnd(s: State)
    requires !s.handler.Exited?
    ensures Enabled(s, TowardEnd(s.handler))
    ensures Distance(Step(s, TowardEnd(s.handler)).handler) < Distance(s.handler)
  {
  }

  /** Wherever a session is, it can end within five steps, with nothing live. */
  lemma {:induction false} SessionCanEnd(es: seq<Event>) returns (more: seq<Event>)
    requires Runs(INITIAL, es)
    ensures es <= more && |more| <= |es| + Distance(After(INITIAL, es).handler) <= |es| + 5
    ensures Runs(INITIAL, more) && After(INITIAL, more).handler.Exited? && After(INITIAL, more).live == {}
    decreases Distance(After(INITIAL, es).handler)
  {
    hide Runs, After, Enabled, Step;
    more := es;
    var s := After(INITIAL, es);
    EveryRunSafe(es);
    if !s.handler.Exited? {
      CloserToEnd(s);
      RunsOn(es, TowardEnd(s.handler));
      more := SessionCanEnd(es + [TowardEnd(s.handler)]);
    }
  }

  /** Any reply may fail to be written; what is on the stream then stays as it is. */
  lemma AnyWriteMayFail(es: seq<Event>)
    requires Runs(INITIAL, es) && After(INITIAL, es).handler.Replying?
    ensures Runs(INITIAL, es + [WriteFails])
    ensures After(INITIAL, es + [WriteFails]).out == After(INITIAL, es).out
  {
    RunsOn(es, WriteFails);
  }
}
