/**
 What an ack timeout does to the round barrier. The client moves on after 15
 seconds without all acks; an ack that comes later is counted for the wrong round.
 `RoundSafety` says exactly when that can happen.
 */
module LateAcks {
  import opened ControlRounds

  // ---------- a round that begins with nothing outstanding is safe ----------

  /** Nothing sent earlier can still turn into an ack. */
  predicate Quiet(s: State) {
    forall j :: 0 <= j < |s.conns| ==>
      s.conns[j].down == [] && s.conns[j].busy.Free? && AcksIn(s.conns[j].up) == 0
  }

  /** The client has reset its counter and not yet written a Start of the round. */
  predicate RoundBegins(s: State) {
    s.phase.Sending? && s.sent == 0 && s.acks == 0 && s.ackedBy == {}
  }

  /** A run that timed out is safe again from any round that begins with nothing outstanding. */
  lemma BarrierRecovers(n: nat, before: seq<Event>, es: seq<Event>)
    requires Runs(Initial(n), before)
    requires var s := After(Initial(n), before); RoundBegins(s) && Quiet(s) && Runs(s, es) && NoTimeOut(es)
    ensures var t := After(After(Initial(n), before), es); t.phase.Traffic? ==> Barrier(t)
  {
    EveryRunInOrder(n, before);
    var s := After(Initial(n), before);
    RunStaysClean(s, es);
    var t := After(s, es);
    if t.phase.Traffic? {
      CompleteMeansBarrier(t);
    }
  }

  // ---------- two servers, one late ack ----------

  lemma RunExtends(s: State, es: seq<Event>, e: Event)
    requires Runs(s, es) && Enabled(After(s, es), e)
    ensures Runs(s, es + [e]) && After(s, es + [e]) == Step(After(s, es), e)
  {
    assert (es + [e])[..|es|] == es;
  }

  /** One more event of a run that has reached s. */
  lemma Then(n: nat, es: seq<Event>, s: State, e: Event) returns (es': seq<Event>, s': State)
    requires Runs(Initial(n), es) && After(Initial(n), es) == s && Enabled(s, e)
    ensures Runs(Initial(n), es') && After(Initial(n), es') == s' && s' == Step(s, e) && es' == es + [e]
  {
    RunExtends(Initial(n), es, e);
    es', s' := es + [e], Step(s, e);
  }

  /** A server answers the Start at the head of its connection, and the client counts the ack. */
  lemma Answer(n: nat, es: seq<Event>, s: State, j: nat) returns (es': seq<Event>, s': State)
    requires Runs(Initial(n), es) && After(Initial(n), es) == s && j < |s.conns|
    requires var c := s.conns[j];
             c.connected && c.reading && c.busy.Free? && c.up == [] && c.down != [] && j !in s.ackedBy
    ensures Runs(Initial(n), es') && After(Initial(n), es') == s'
    ensures var c := s.conns[j]; var r := c.down[0];
            s' == SetConn(s, j, c.(down := c.down[1..], consumed := r, running := r, gotStart := true))
                  .(acks := s.acks + 1, ackedBy := s.ackedBy + {j})
  {
    hide Runs, After;
    var c := s.conns[j];
    es', s' := Then(n, es, s, Consume(j));
    es', s' := Then(n, es', s', Started(j));
    es', s' := Then(n, es', s', Reply(j));
    es', s' := Then(n, es', s', Pump(j));
    assert s'.conns[j].up == [];
    var r := c.down[0];
    assert s'.conns == s.conns[j := c.(down := c.down[1..], consumed := r, running := r, gotStart := true)];
  }

  lemma SendBoth(es: seq<Event>, s: State) returns (es': seq<Event>, s': State)
    requires Runs(Initial(2), es) && After(Initial(2), es) == s && |s.conns| == 2 && s.phase.Sending? && s.sent == 0
    ensures Runs(Initial(2), es') && After(Initial(2), es') == s'
    ensures s' == s.(phase := Waiting, sent := 2,
                     conns := [s.conns[0].(down := s.conns[0].down + [s.round]),
                               s.conns[1].(down := s.conns[1].down + [s.round])])
  {
    hide Runs, After;
    es', s' := Then(2, es, s, SendStart);
    es', s' := Then(2, es', s', SendStart);
    es', s' := Then(2, es', s', AllSent);
    var a, b := s.conns[0], s.conns[1];
    assert s'.conns == [a.(down := a.down + [s.round]), b.(down := b.down + [s.round])];
  }

  /** The state after a first round that timed out with only server 0 having answered. */
  lemma LateStart() returns (es: seq<Event>, s: State)
    ensures Runs(Initial(2), es) && After(Initial(2), es) == s && RoundBegins(s) && s.round == 1
    ensures s.conns == [Conn([], [], Free, 0, 0, true, true, true), Conn([0], [], Free, -1, -1, true, true, false)]
  {
    hide Runs, After;
    s := Initial(2);
    NoEvents(s);
    es, s := SendBoth([], s);
    es, s := Answer(2, es, s, 0);
    es, s := Then(2, es, s, TimeOut);
    es, s := Then(2, es, s, NextRound);
    assert s.conns[0].down == [] && s.conns[1].down == [0];
  }

  /**
   With a timeout the barrier can fail: server 1 answers the first Start only in
   the second round, its late ack completes that round, and it still runs the first.
   */
  lemma LateAckBreaksBarrier() returns (es: seq<Event>)
    ensures Runs(Initial(2), es)
    ensures var s := After(Initial(2), es);
            s.phase.Traffic? && s.round == 1 && s.acks == 2 && !Barrier(s) && es[|es| - 1] == AcksComplete
  {
    hide Runs, After;
    var s;
    es, s := LateStart();
    es, s := SendBoth(es, s);
    es, s := Answer(2, es, s, 0);
    es, s := Answer(2, es, s, 1);
    es, s := Then(2, es, s, AcksComplete);
    assert s.conns[1].running == 0;
  }

  lemma NoEvents(s: State)
    ensures Runs(s, []) && After(s, []) == s
  {
  }
}
