/**
 What the connections carry between the client and its servers: replies and metrics arrive in the
 order in which they were written, none lost and none made up, and what has ended stays ended.
 */
module ControlWire {
  import opened ControlRounds
  import opened LateAcks

  /** What an event writes to the client on connection j. */
  function Writes(e: Event, j: nat): seq<Frame> {
    match e
    case Reply(i) => if i == j then [StartAck] else []
    case StartFails(i) => if i == j then [ErrorReply] else []
    case EmitMetrics(i) => if i == j then [Metrics] else []
    case _ => []
  }

  function Written(es: seq<Event>, j: nat): seq<Frame> {
    if es == [] then [] else Written(es[..|es| - 1], j) + Writes(es[|es| - 1], j)
  }

  /** What an event takes from connection j. */
  function Takes(s: State, e: Event, j: nat): seq<Frame>
    requires Enabled(s, e)
  {
    if e == Pump(j) then [s.conns[j].up[0]] else []
  }

  /** What the client's reader has taken from connection j. */
  function Taken(n: nat, es: seq<Event>, j: nat): seq<Frame>
    requires Runs(Initial(n), es)
  {
    if es == [] then []
    else
      var init, e := es[..|es| - 1], es[|es| - 1];
      Taken(n, init, j) + Takes(After(Initial(n), init), e, j)
  }

  lemma WireStep(s: State, e: Event, j: nat)
    requires Enabled(s, e) && j < |s.conns|
    ensures |Step(s, e).conns| == |s.conns|
    ensures s.conns[j].up + Writes(e, j) == Takes(s, e, j) + Step(s, e).conns[j].up
  {
    hide AcksIn;
    var up := s.conns[j].up;
    if e == Pump(j) {
      assert up == [up[0]] + up[1..];
    }
  }

  lemma Regroup(taken: seq<Frame>, up: seq<Frame>, written: seq<Frame>, head: seq<Frame>, rest: seq<Frame>)
    requires up + written == head + rest
    ensures taken + up + written == taken + head + rest
  {
    assert taken + up + written == taken + (up + written);
  }

  /** In every run, what a server has written is what the client has read, followed by what is on the wire. */
  lemma {:induction false} WireIsFifo(n: nat, es: seq<Event>, j: nat)
    requires Runs(Initial(n), es) && j < n
    ensures var s := After(Initial(n), es);
            |s.conns| == n && Written(es, j) == Taken(n, es, j) + s.conns[j].up
  {
    hide Writes, Takes, Enabled, Step;
    if es != [] {
      var init, e := es[..|es| - 1], es[|es| - 1];
      WireIsFifo(n, init, j);
      var s := After(Initial(n), init);
      WireStep(s, e, j);
      Regroup(Taken(n, init, j), s.conns[j].up, Writes(e, j), Takes(s, e, j), Step(s, e).conns[j].up);
    }
  }

  /** A failed send or a cancellation ends the client's rounds for good. */
  lemma {:induction false} ClientFinishes(n: nat, es: seq<Event>)
    requires Runs(Initial(n), es) && (SendFails in es || Cancel in es)
    ensures After(Initial(n), es).phase.Finished?
  {
    var init, e := es[..|es| - 1], es[|es| - 1];
    if e != SendFails && e != Cancel {
      assert es == init + [e];
      ClientFinishes(n, init);
      FinishedStays(After(Initial(n), init), e);
    }
  }

  lemma FinishedStays(s: State, e: Event)
    requires Enabled(s, e) && s.phase.Finished?
    ensures Step(s, e).phase.Finished?
  {
  }

  /** A connection that is lost stays lost: its server runs nothing and writes nothing on it any more. */
  lemma {:induction false} LostStaysLost(n: nat, es: seq<Event>, j: nat, e: Event)
    requires Runs(Initial(n), es) && Disconnect(j) in es && j < n
    ensures var s := After(Initial(n), es);
            |s.conns| == n && !s.conns[j].connected && s.conns[j].running == -1 && s.conns[j].busy.Free?
    ensures Enabled(After(Initial(n), es), e) ==> Writes(e, j) == []
  {
    hide InOrder;
    var init, last := es[..|es| - 1], es[|es| - 1];
    EveryRunInOrder(n, es);
    EveryRunInOrder(n, init);
    if last != Disconnect(j) {
      assert es == init + [last];
      LostStaysLost(n, init, j, e);
      LostStep(After(Initial(n), init), last, j);
    }
  }

  lemma LostStep(s: State, e: Event, j: nat)
    requires Enabled(s, e) && j < |s.conns|
    requires !s.conns[j].connected && s.conns[j].running == -1 && s.conns[j].busy.Free?
    ensures var c := Step(s, e).conns[j]; !c.connected && c.running == -1 && c.busy.Free?
  {
  }

  // ---------- replies ----------

  function RepliesIn(frames: seq<Frame>): seq<Frame> {
    if frames == [] then []
    else RepliesIn(frames[..|frames| - 1]) + if frames[|frames| - 1].Metrics? then [] else [frames[|frames| - 1]]
  }

  /** What came of the Starts that server j read, in order. */
  function Outcomes(es: seq<Event>, j: nat): seq<Frame> {
    if es == [] then [] else Outcomes(es[..|es| - 1], j) + Outcome(es[|es| - 1], j)
  }

  function Outcome(e: Event, j: nat): seq<Frame> {
    match e
    case Started(i) => if i == j then [StartAck] else []
    case StartFails(i) => if i == j then [ErrorReply] else []
    case _ => []
  }

  /** The ack that is still to be written. */
  function Owed(c: Conn): seq<Frame> {
    if c.busy.Acking? then [StartAck] else []
  }

  /** How replies, outcomes and consumed Starts are related on a connection. */
  predicate Told(c: Conn, replies: seq<Frame>, outcomes: seq<Frame>) {
    if c.connected then replies + Owed(c) == outcomes && |outcomes| + One(c.busy.Starting?) == c.consumed + 1
    else c.busy.Free? && replies <= outcomes && |outcomes| <= c.consumed + 1 <= |replies| + 1
  }

  lemma {:induction false} RepliesInAppend(frames: seq<Frame>, more: seq<Frame>)
    requires |more| <= 1
    ensures RepliesIn(frames + more) == RepliesIn(frames) + RepliesIn(more)
  {
    if more == [] {
      assert frames + more == frames;
    } else {
      assert (frames + more)[..|frames|] == frames && more[..0] == [];
    }
  }

  lemma ToldStep(s: State, e: Event, j: nat, replies: seq<Frame>, outcomes: seq<Frame>)
    requires InOrder(s) && Enabled(s, e) && j < |s.conns| && Told(s.conns[j], replies, outcomes)
    ensures |Step(s, e).conns| == |s.conns|
    ensures Told(Step(s, e).conns[j], replies + RepliesIn(Writes(e, j)), outcomes + Outcome(e, j))
  {
    hide Told, InOrder, LastSent, RepliesIn, ConnInOrder;
    if Elsewhere(e, j) {
      ToldElsewhere(s, e, j, replies, outcomes);
    } else {
      InOrderAt(s, j);
      if e.Consume? {
        NextConsumed(s.conns[j], LastSent(s, j));
      }
      ToldHere(s, e, j, replies, outcomes);
    }
  }

  lemma ToldElsewhere(s: State, e: Event, j: nat, replies: seq<Frame>, outcomes: seq<Frame>)
    requires Enabled(s, e) && j < |s.conns| && Elsewhere(e, j) && Told(s.conns[j], replies, outcomes)
    ensures |Step(s, e).conns| == |s.conns|
    ensures Told(Step(s, e).conns[j], replies + RepliesIn(Writes(e, j)), outcomes + Outcome(e, j))
  {
    hide AcksIn, RoundsBetween;
    var c, d := s.conns[j], Step(s, e).conns[j];
    assert d.connected == c.connected && d.busy == c.busy && d.consumed == c.consumed;
    assert replies + [] == replies && outcomes + [] == outcomes;
  }

  lemma ToldHere(s: State, e: Event, j: nat, replies: seq<Frame>, outcomes: seq<Frame>)
    requires Enabled(s, e) && j < |s.conns| && !Elsewhere(e, j) && Told(s.conns[j], replies, outcomes)
    requires e.Consume? ==> s.conns[j].down[0] == s.conns[j].consumed + 1
    ensures |Step(s, e).conns| == |s.conns|
    ensures Told(Step(s, e).conns[j], replies + RepliesIn(Writes(e, j)), outcomes + Outcome(e, j))
  {
    hide AcksIn, RoundsBetween, RepliesIn;
    RepliesInOne();
    assert replies + [] == replies && outcomes + [] == outcomes;
  }

  lemma RepliesInOne()
    ensures RepliesIn([]) == [] && RepliesIn([Metrics]) == []
    ensures RepliesIn([StartAck]) == [StartAck] && RepliesIn([ErrorReply]) == [ErrorReply]
  {
    assert [Metrics][..0] == [] && [StartAck][..0] == [] && [ErrorReply][..0] == [];
  }

  lemma NextConsumed(c: Conn, last: int)
    requires ConnInOrder(c, last) && c.down != []
    ensures c.down[0] == c.consumed + 1
  {
  }

  /**
   Each Start that a server reads brings one reply, which says whether the test was started, in the
   order of the rounds; the one in hand is still to come, or is lost with the connection.
   */
  lemma {:induction false} OneReplyPerStart(n: nat, es: seq<Event>, j: nat)
    requires Runs(Initial(n), es) && j < n
    ensures var s := After(Initial(n), es);
            |s.conns| == n && Told(s.conns[j], RepliesIn(Written(es, j)), Outcomes(es, j))
  {
    hide Told, Writes, Outcome, Enabled, Step, InOrder;
    if es == [] {
      NothingTold(n, j);
    } else {
      var init, e := es[..|es| - 1], es[|es| - 1];
      OneReplyPerStart(n, init, j);
      EveryRunInOrder(n, init);
      ToldStep(After(Initial(n), init), e, j, RepliesIn(Written(init, j)), Outcomes(init, j));
      OneWrite(e, j);
      RepliesInAppend(Written(init, j), Writes(e, j));
    }
  }

  lemma OneWrite(e: Event, j: nat)
    ensures |Writes(e, j)| <= 1
  {
  }

  lemma NothingTold(n: nat, j: nat)
    requires j < n
    ensures Told(Initial(n).conns[j], [], [])
  {
  }

  // ---------- what is always possible ----------

  /** A running test with its connection up can write metrics at any moment. */
  lemma MetricsAnytime(n: nat, es: seq<Event>, j: nat)
    requires Runs(Initial(n), es) && j < n && |After(Initial(n), es).conns| == n
    requires After(Initial(n), es).conns[j].connected && After(Initial(n), es).conns[j].running != -1
    ensures Runs(Initial(n), es + [EmitMetrics(j)])
    ensures Written(es + [EmitMetrics(j)], j) == Written(es, j) + [Metrics]
  {
    EveryRunInOrder(n, es);
    RunExtends(Initial(n), es, EmitMetrics(j));
    assert (es + [EmitMetrics(j)])[..|es|] == es;
  }

  /** Wherever a run is, a cancelled client is done after sending the Starts that are left. */
  lemma {:induction false} ClientCanFinish(n: nat, es: seq<Event>) returns (more: seq<Event>)
    requires Runs(Initial(n), es)
    ensures es <= more && |more| <= |es| + n + 2
    ensures forall i :: |es| <= i < |more| ==> more[i].SendStart? || more[i].AllSent? || more[i].Cancel?
    ensures Runs(Initial(n), more) && After(Initial(n), more).phase.Finished?
  {
    more := es;
    EveryRunInOrder(n, es);
    hide InOrder, Runs, After;
    ghost var s := After(Initial(n), es);
    while s.phase.Sending? && s.sent < n
      invariant es <= more && Runs(Initial(n), more) && s == After(Initial(n), more) && |s.conns| == n
      invariant |more| <= |es| + (if s.phase.Sending? then s.sent else 0) && (s.phase.Sending? ==> s.sent <= n)
      invariant forall i :: |es| <= i < |more| ==> more[i].SendStart?
      decreases n - s.sent
    {
      RunExtends(Initial(n), more, SendStart);
      more, s := more + [SendStart], Step(s, SendStart);
    }
    if s.phase.Sending? {
      RunExtends(Initial(n), more, AllSent);
      more, s := more + [AllSent], Step(s, AllSent);
    }
    if !s.phase.Finished? {
      RunExtends(Initial(n), more, Cancel);
      more := more + [Cancel];
    }
  }

  /** Any connection may break at any moment, and a send to it may fail from then on. */
  lemma AnyConnectionMayBreak(n: nat, es: seq<Event>, j: nat) returns (more: seq<Event>)
    requires Runs(Initial(n), es) && j < n && |After(Initial(n), es).conns| == n
    requires After(Initial(n), es).conns[j].connected
    ensures more == es + [Disconnect(j)] && Runs(Initial(n), more)
    ensures After(Initial(n), es).phase.Sending? && After(Initial(n), es).sent == j ==>
              Runs(Initial(n), more + [SendFails])
  {
    hide Runs, After;
    more := es + [Disconnect(j)];
    RunExtends(Initial(n), es, Disconnect(j));
    if After(Initial(n), es).phase.Sending? && After(Initial(n), es).sent == j {
      RunExtends(Initial(n), more, SendFails);
    }
  }

  /** Any test may fail to start; its server then tells the client and is ready for the next Start. */
  lemma AnyStartMayFail(n: nat, es: seq<Event>, j: nat)
    requires Runs(Initial(n), es) && j < n && |After(Initial(n), es).conns| == n
    requires After(Initial(n), es).conns[j].connected && After(Initial(n), es).conns[j].busy.Starting?
    ensures var more := es + [StartFails(j)];
            && Runs(Initial(n), more) && Written(more, j) == Written(es, j) + [ErrorReply]
            && After(Initial(n), more).conns[j].busy.Free?
  {
    RunExtends(Initial(n), es, StartFails(j));
    assert (es + [StartFails(j)])[..|es|] == es;
  }
}
