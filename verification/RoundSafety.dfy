/**
 Exactly when a round is safe: the barrier is guaranteed from the beginning of a round on if and
 only if nothing is outstanding then, or too few acks can still arrive to complete a round at all.
 Connections may be down, and readers may have given up or be about to.
 */
module RoundSafety {
  import opened ControlRounds
  import opened LateAcks

  ghost predicate Reaches(s: State, es: seq<Event>, t: State) {
    Runs(s, es) && After(s, es) == t && NoTimeOut(es)
  }

  lemma ReachesStep(s: State, es: seq<Event>, t: State, e: Event)
    requires Reaches(s, es, t) && Enabled(t, e) && !e.TimeOut?
    ensures Reaches(s, es + [e], Step(t, e))
  {
    RunExtends(s, es, e);
  }

  lemma ReachesNow(s: State)
    ensures Reaches(s, [], s)
  {
  }

  // ---------- the acks a connection can still deliver ----------

  /** Whether an Error comes before any ack. */
  predicate ErrorFirst(up: seq<Frame>) {
    up != [] && (up[0].ErrorReply? || (up[0].Metrics? && ErrorFirst(up[1..])))
  }

  lemma {:induction false} ErrorFirstAppend(up: seq<Frame>, f: Frame)
    ensures ErrorFirst(up) ==> ErrorFirst(up + [f])
    ensures f != ErrorReply ==> (ErrorFirst(up + [f]) <==> ErrorFirst(up))
  {
    if up != [] {
      ErrorFirstAppend(up[1..], f);
      assert (up + [f])[1..] == up[1..] + [f];
    } else {
      assert ([] + [f])[1..] == [];
    }
  }

  /** The client reads this connection, and will go on until it has seen an ack. */
  predicate Listening(c: Conn) {
    c.reading && (c.gotStart || !ErrorFirst(c.up))
  }

  /** The acks that can still be counted: those on the wire, and one for each Start the server can still answer. */
  function Avail(c: Conn): nat {
    if !Listening(c) then 0 else AcksIn(c.up) + if c.connected then One(!c.busy.Free?) + |c.down| else 0
  }

  /** The same before the Start of this round has been written. */
  function Left(c: Conn, unsent: bool): nat {
    Avail(c) + One(unsent && Listening(c) && c.connected)
  }

  function SumLeft(s: State, k: nat): nat
    requires k <= |s.conns|
  {
    if k == 0 then 0 else SumLeft(s, k - 1) + Left(s.conns[k - 1], k - 1 >= s.sent)
  }

  /** The acks that can still arrive in a round that begins. */
  function Obtainable(s: State): nat {
    SumLeft(s, |s.conns|)
  }

  // ---------- too few acks never complete a round ----------

  /** One where an event counts an ack. */
  function Counted(s: State, e: Event): nat
    requires Enabled(s, e)
  {
    One(e.Pump? && s.conns[e.j].up[0].StartAck?)
  }

  lemma PumpLeft(s: State, j: nat, unsent: bool)
    requires Enabled(s, Pump(j))
    ensures Left(Step(s, Pump(j)).conns[j], unsent) + Counted(s, Pump(j)) <= Left(s.conns[j], unsent)
  {
    hide AcksIn;
    AcksInTail(s.conns[j].up);
    NoAcks();
  }

  lemma NoAcks()
    ensures AcksIn([]) == 0
  {
  }

  lemma ServerLeft(s: State, e: Event, j: nat, unsent: bool)
    requires Enabled(s, e) && !Elsewhere(e, j) && !e.Pump? && j < |s.conns|
    ensures Left(Step(s, e).conns[j], unsent) <= Left(s.conns[j], unsent)
  {
    hide AcksIn, ErrorFirst;
    var up := s.conns[j].up;
    match e
    case StartFails(_) => AcksInAppend(up, ErrorReply); ErrorFirstAppend(up, ErrorReply);
    case Reply(_) => AcksInAppend(up, StartAck); ErrorFirstAppend(up, StartAck);
    case EmitMetrics(_) => AcksInAppend(up, Metrics); ErrorFirstAppend(up, Metrics);
    case _ =>
  }

  lemma LeftStep(s: State, e: Event, j: nat)
    requires Enabled(s, e) && !e.NextRound? && j < |s.conns|
    ensures var t := Step(s, e);
            && |t.conns| == |s.conns|
            && Left(t.conns[j], j >= t.sent) + (if Elsewhere(e, j) then 0 else Counted(s, e))
               <= Left(s.conns[j], j >= s.sent)
  {
    hide AcksIn, ErrorFirst;
    if Elsewhere(e, j) {
    } else if e.Pump? {
      PumpLeft(s, j, j >= s.sent);
    } else {
      ServerLeft(s, e, j, j >= s.sent);
    }
  }

  lemma {:induction false} SumLeftStep(s: State, e: Event, k: nat)
    requires Enabled(s, e) && !e.NextRound? && k <= |s.conns| == |Step(s, e).conns|
    ensures SumLeft(Step(s, e), k) + (if e.Pump? && e.j < k then Counted(s, e) else 0) <= SumLeft(s, k)
  {
    hide Left, Step, Enabled, Counted;
    if k > 0 {
      SumLeftStep(s, e, k - 1);
      LeftStep(s, e, k - 1);
      NothingCounted(s, e);
    }
  }

  lemma NothingCounted(s: State, e: Event)
    requires Enabled(s, e)
    ensures !e.Pump? ==> Counted(s, e) == 0
  {
  }

  lemma AcksStep(s: State, e: Event)
    requires Enabled(s, e) && !e.NextRound?
    ensures Step(s, e).acks == s.acks + Counted(s, e) && |Step(s, e).conns| == |s.conns|
    ensures e.Pump? ==> e.j < |s.conns|
  {
  }

  /** While the round lasts, the acks counted and those that can still arrive never grow. */
  lemma {:induction false} TooFewAcks(s: State, es: seq<Event>)
    requires RoundBegins(s) && Obtainable(s) < |s.conns| && Runs(s, es) && NoTimeOut(es)
    ensures var t := After(s, es);
            && !t.phase.Traffic? && |t.conns| == |s.conns| && t.acks + SumLeft(t, |t.conns|) <= Obtainable(s)
  {
    hide SumLeft, Counted;
    if es != [] {
      var init, e := es[..|es| - 1], es[|es| - 1];
      TooFewAcks(s, init);
      var t := After(s, init);
      AcksStep(t, e);
      SumLeftStep(t, e, |t.conns|);
    }
  }

  // ---------- getting acks delivered ----------

  /** The next ack will be for an earlier Start than the last one sent. */
  predicate Stale(c: Conn) {
    |c.down| > 1 || (c.down != [] && (!c.busy.Free? || AcksIn(c.up) > 0))
  }

  /** What stays of a connection while it delivers its next ack. */
  predicate Kept(c: Conn, d: Conn) {
    d.connected == c.connected && (!c.connected ==> d.consumed == c.consumed)
  }

  /** From s to t only connection j and the counted acks have changed. */
  ghost predicate OnlyAt(s: State, t: State, j: nat)
    requires j < |s.conns|
  {
    && |t.conns| == |s.conns| && Kept(s.conns[j], t.conns[j])
    && t.phase == s.phase && t.round == s.round && t.sent == s.sent
    && forall i :: 0 <= i < |s.conns| && i != j ==> t.conns[i] == s.conns[i]
  }

  ghost predicate OneAck(s: State, t: State, j: nat)
    requires j < |s.conns|
  {
    && OnlyAt(s, t, j) && t.acks == s.acks + 1 && Avail(t.conns[j]) + 1 == Avail(s.conns[j])
    && (Stale(s.conns[j]) ==> t.conns[j].down != [])
  }

  /** How many steps the server still has to take before its next ack is on the wire. */
  function Steps(c: Conn): nat {
    if AcksIn(c.up) > 0 then 0 else if c.busy.Acking? then 1 else if c.busy.Starting? then 2 else 3
  }

  /** From s to t connection j has come closer to its ack. */
  ghost predicate Closer(s: State, t: State, j: nat)
    requires j < |s.conns|
  {
    && OnlyAt(s, t, j) && t.acks == s.acks
    && var c, d := s.conns[j], t.conns[j];
       && Avail(d) == Avail(c) && (Stale(c) ==> Stale(d))
       && (Steps(d) < Steps(c) || (Steps(d) == Steps(c) && |d.up| < |c.up|))
  }

  /** The next thing to do about the ack of connection j. */
  function Toward(c: Conn, j: nat): Event {
    if AcksIn(c.up) > 0 then Pump(j)
    else if c.busy.Acking? then Reply(j)
    else if c.busy.Starting? then Started(j)
    else Consume(j)
  }

  /** A step towards the ack either counts it or brings it closer. */
  lemma CloserToAck(s: State, j: nat)
    requires j < |s.conns| && Avail(s.conns[j]) > 0
    ensures var e := Toward(s.conns[j], j);
            Enabled(s, e) && (OneAck(s, Step(s, e), j) || Closer(s, Step(s, e), j))
  {
    hide OneAck, Closer, Avail;
    if AcksIn(s.conns[j].up) > 0 {
      PumpIsCloser(s, j);
    } else {
      ServerIsCloser(s, j);
    }
  }

  lemma PumpIsCloser(s: State, j: nat)
    requires j < |s.conns| && Avail(s.conns[j]) > 0 && AcksIn(s.conns[j].up) > 0
    ensures Enabled(s, Pump(j)) && (OneAck(s, Step(s, Pump(j)), j) || Closer(s, Step(s, Pump(j)), j))
  {
    hide AcksIn;
    SomeFrame(s.conns[j].up);
    AcksInTail(s.conns[j].up);
  }

  lemma SomeFrame(up: seq<Frame>)
    requires AcksIn(up) > 0
    ensures up != []
  {
  }

  lemma ServerIsCloser(s: State, j: nat)
    requires j < |s.conns| && Avail(s.conns[j]) > 0 && AcksIn(s.conns[j].up) == 0
    ensures var e := Toward(s.conns[j], j); Enabled(s, e) && Closer(s, Step(s, e), j)
  {
    hide AcksIn, ErrorFirst;
    AcksInAppend(s.conns[j].up, StartAck);
    ErrorFirstAppend(s.conns[j].up, StartAck);
  }

  lemma NotATimeOut(c: Conn, j: nat)
    ensures !Toward(c, j).TimeOut?
  {
  }

  lemma OneAckLater(s: State, mid: State, t: State, j: nat)
    requires j < |s.conns| && Closer(s, mid, j) && OneAck(mid, t, j)
    ensures OneAck(s, t, j)
  {
    hide Stale, Avail, Steps;
  }

  lemma CloserRank(s: State, t: State, j: nat)
    requires j < |s.conns| && Closer(s, t, j)
    ensures j < |t.conns| && Avail(t.conns[j]) == Avail(s.conns[j])
    ensures var c, d := s.conns[j], t.conns[j];
            Steps(d) < Steps(c) || (Steps(d) == Steps(c) && |d.up| < |c.up|)
  {
  }

  lemma {:induction false} GetAck(s0: State, es: seq<Event>, s: State, j: nat) returns (es': seq<Event>, t: State)
    requires Reaches(s0, es, s) && j < |s.conns| && Avail(s.conns[j]) > 0
    ensures Reaches(s0, es', t) && OneAck(s, t, j)
    decreases Steps(s.conns[j]), |s.conns[j].up|
  {
    hide Reaches, Enabled, Step, Steps, Toward, Avail, OneAck, Closer;
    var e := Toward(s.conns[j], j);
    CloserToAck(s, j);
    NotATimeOut(s.conns[j], j);
    ReachesStep(s0, es, s, e);
    es', t := es + [e], Step(s, e);
    if !OneAck(s, t, j) {
      var mid := t;
      CloserRank(s, mid, j);
      es', t := GetAck(s0, es', mid, j);
      OneAckLater(s, mid, t, j);
    }
  }

  /** What becomes of a connection that delivers m acks. */
  predicate Served(c: Conn, d: Conn, m: nat) {
    && Kept(c, d) && Avail(d) + m == Avail(c)
    && (m == 0 ==> d == c) && (m == 1 && Stale(c) ==> d.down != [])
  }

  lemma {:induction false} GetSome(s0: State, es: seq<Event>, s: State, j: nat, m: nat)
    returns (es': seq<Event>, t: State)
    requires Reaches(s0, es, s) && j < |s.conns| && m <= Avail(s.conns[j])
    ensures Reaches(s0, es', t) && OnlyAt(s, t, j) && t.acks == s.acks + m && Served(s.conns[j], t.conns[j], m)
    decreases m
  {
    hide Reaches, Avail, Stale;
    es', t := es, s;
    if m > 0 {
      es', t := GetSome(s0, es, s, j, m - 1);
      es', t := GetAck(s0, es', t, j);
    }
  }

  function SumOf(want: seq<nat>, k: nat): nat
    requires k <= |want|
  {
    if k == 0 then 0 else SumOf(want, k - 1) + want[k - 1]
  }

  /** Every connection delivers the acks wanted of it. */
  lemma {:induction false} GetAcks(s0: State, es: seq<Event>, s: State, want: seq<nat>, k: nat)
    returns (es': seq<Event>, t: State)
    requires Reaches(s0, es, s) && k <= |s.conns| == |want|
    requires forall i :: 0 <= i < |want| ==> want[i] <= Avail(s.conns[i])
    ensures Reaches(s0, es', t) && |t.conns| == |s.conns|
    ensures t.phase == s.phase && t.round == s.round && t.sent == s.sent && t.acks == s.acks + SumOf(want, k)
    ensures forall i :: k <= i < |s.conns| ==> t.conns[i] == s.conns[i]
    ensures forall i :: 0 <= i < k ==> Served(s.conns[i], t.conns[i], want[i])
  {
    hide Reaches, Served, Avail, Kept;
    es', t := es, s;
    if k > 0 {
      es', t := GetAcks(s0, es, s, want, k - 1);
      es', t := GetSome(s0, es', t, k - 1, want[k - 1]);
    }
  }

  /** The client writes the Starts of a round to the first k servers. */
  lemma {:induction false} SendStarts(s: State, k: nat) returns (es: seq<Event>, t: State)
    requires s.phase.Sending? && s.sent == 0 && k <= |s.conns|
    ensures Reaches(s, es, t) && |t.conns| == |s.conns|
    ensures t.phase == s.phase && t.round == s.round && t.sent == k && t.acks == s.acks
    ensures forall i :: 0 <= i < |s.conns| ==>
              t.conns[i] == if i < k then s.conns[i].(down := s.conns[i].down + [s.round]) else s.conns[i]
  {
    hide Reaches;
    if k == 0 {
      es, t := [], s;
      ReachesNow(s);
    } else {
      es, t := SendStarts(s, k - 1);
      ReachesStep(s, es, t, SendStart);
      es, t := es + [SendStart], Step(t, SendStart);
    }
  }

  // ---------- a round that completes without the barrier ----------

  /** The client has written all Starts of the round that begins with s. */
  ghost predicate AllStarted(s: State, t: State) {
    && t.phase.Waiting? && t.round == s.round && t.sent == |t.conns| == |s.conns| && t.acks == s.acks
    && forall i :: 0 <= i < |s.conns| ==> t.conns[i] == s.conns[i].(down := s.conns[i].down + [s.round])
  }

  lemma StartAll(s: State) returns (es: seq<Event>, t: State)
    requires RoundBegins(s)
    ensures Reaches(s, es, t) && AllStarted(s, t)
  {
    hide Reaches;
    es, t := SendStarts(s, |s.conns|);
    ReachesStep(s, es, t, AllSent);
    es, t := es + [AllSent], Step(t, AllSent);
  }

  /** From there the wanted acks are delivered and complete the round. */
  lemma Complete(s: State, es: seq<Event>, t: State, want: seq<nat>) returns (es': seq<Event>, t': State)
    requires Reaches(s, es, t) && AllStarted(s, t) && |want| == |t.conns|
    requires forall i :: 0 <= i < |want| ==> want[i] <= Avail(t.conns[i])
    requires SumOf(want, |want|) >= |t.conns|
    ensures Reaches(s, es', t') && t'.phase.Traffic? && t'.round == s.round && |t'.conns| == |t.conns|
    ensures forall i :: 0 <= i < |want| ==> Served(t.conns[i], t'.conns[i], want[i])
  {
    hide Reaches, Served, Avail;
    es', t' := GetAcks(s, es, t, want, |want|);
    ReachesStep(s, es', t', AcksComplete);
    es', t' := es' + [AcksComplete], Step(t', AcksComplete);
  }

  function AllAvail(conns: seq<Conn>): (want: seq<nat>)
    ensures |want| == |conns| && forall i :: 0 <= i < |conns| ==> want[i] == Avail(conns[i])
  {
    seq(|conns|, i requires 0 <= i < |conns| => Avail(conns[i]))
  }

  lemma {:induction false} SumOfAllAvail(s: State, t: State, k: nat)
    requires RoundBegins(s) && AllStarted(s, t) && k <= |s.conns|
    ensures SumOf(AllAvail(t.conns), k) == SumLeft(s, k)
  {
    hide AcksIn, ErrorFirst;
    if k > 0 {
      SumOfAllAvail(s, t, k - 1);
      assert Avail(t.conns[k - 1]) == Left(s.conns[k - 1], true);
    }
  }

  function Ones(n: nat): (want: seq<nat>)
    ensures |want| == n && forall i :: 0 <= i < n ==> want[i] == 1
  {
    seq(n, i => 1)
  }

  lemma {:induction false} SumOfOnes(n: nat, k: nat)
    requires k <= n
    ensures SumOf(Ones(n), k) == k
  {
    if k > 0 {
      SumOfOnes(n, k - 1);
    }
  }

  /** A connection that delivers all its acks, being down or having none, keeps the barrier from closing. */
  lemma LeftBehind(s: State, t: State, t': State, i: nat)
    requires i < |s.conns| && InOrder(s) && RoundBegins(s) && AllStarted(s, t) && |t'.conns| == |s.conns|
    requires Served(t.conns[i], t'.conns[i], Avail(t.conns[i])) && t'.round == s.round
    requires !s.conns[i].connected || Avail(t.conns[i]) == 0
    ensures !Barrier(t')
  {
    hide Avail, InOrder;
    InOrderAt(s, i);
    assert t.conns[i].down != [];
  }

  lemma NotQuiet(s: State) returns (j: nat)
    requires !Quiet(s)
    ensures j < |s.conns|
    ensures var c := s.conns[j]; c.down != [] || !c.busy.Free? || AcksIn(c.up) > 0
  {
    hide AcksIn;
    j :| 0 <= j < |s.conns| && !(s.conns[j].down == [] && s.conns[j].busy.Free? && AcksIn(s.conns[j].up) == 0);
  }

  /**
   With anything outstanding at its beginning, and enough acks to come, a round can complete its
   acks without the barrier.
   */
  lemma OutstandingBreaksBarrier(s: State) returns (es: seq<Event>, t: State)
    requires RoundBegins(s) && InOrder(s) && !Quiet(s) && Obtainable(s) >= |s.conns|
    ensures Reaches(s, es, t) && t.phase.Traffic? && t.round == s.round && !Barrier(t)
  {
    hide Reaches, Served, Avail, Barrier, InOrder, SumLeft;
    var mid;
    es, mid := StartAll(s);
    if i :| 0 <= i < |s.conns| && (!s.conns[i].connected || Avail(mid.conns[i]) == 0) {
      SumOfAllAvail(s, mid, |s.conns|);
      es, t := Complete(s, es, mid, AllAvail(mid.conns));
      LeftBehind(s, mid, t, i);
    } else {
      var j := NotQuiet(s);
      SumOfOnes(|s.conns|, |s.conns|);
      es, t := Complete(s, es, mid, Ones(|s.conns|));
      StaleLeft(s, mid, t, j);
    }
  }

  /** A connection that owed something delivers that first, so the round's Start stays unread. */
  lemma StaleLeft(s: State, t: State, t': State, j: nat)
    requires j < |s.conns| && AllStarted(s, t) && |t'.conns| == |s.conns|
    requires var c := s.conns[j]; c.down != [] || !c.busy.Free? || AcksIn(c.up) > 0
    requires Served(t.conns[j], t'.conns[j], 1)
    ensures !Barrier(t')
  {
    hide Avail, AcksIn;
    assert Stale(t.conns[j]);
  }

  // ---------- exactly when a round is safe ----------

  /** As long as the client waits for all acks, a round only begins its traffic behind the barrier. */
  ghost predicate BarrierGuaranteed(s: State) {
    forall es :: Runs(s, es) && NoTimeOut(es) && After(s, es).phase.Traffic? ==> Barrier(After(s, es))
  }

  /**
   Whatever happened before, the barrier is guaranteed from the beginning of a round on exactly if
   no earlier Start or ack is outstanding then, or fewer acks than servers can still arrive.
   */
  lemma BarrierIff(n: nat, before: seq<Event>)
    requires Runs(Initial(n), before) && RoundBegins(After(Initial(n), before))
    ensures var s := After(Initial(n), before);
            BarrierGuaranteed(s) <==> Quiet(s) || Obtainable(s) < |s.conns|
  {
    hide Barrier, Quiet, Obtainable, InOrder;
    var s := After(Initial(n), before);
    EveryRunInOrder(n, before);
    if Quiet(s) || Obtainable(s) < |s.conns| {
      forall es | Runs(s, es) && NoTimeOut(es) && After(s, es).phase.Traffic? ensures Barrier(After(s, es)) {
        if Quiet(s) {
          BarrierRecovers(n, before, es);
        } else {
          TooFewAcks(s, es);
        }
      }
    } else {
      var es, t := OutstandingBreaksBarrier(s);
      assert Runs(s, es) && After(s, es) == t;
    }
  }

  /** A connection that is up at both ends, with no Error under way that would make the client give up on it. */
  predicate Healthy(c: Conn) {
    c.connected && Listening(c)
  }

  lemma {:induction false} HealthyObtain(s: State, k: nat)
    requires RoundBegins(s) && k <= |s.conns| && forall i :: 0 <= i < k ==> Healthy(s.conns[i])
    ensures SumLeft(s, k) >= k
  {
    hide ErrorFirst, AcksIn;
    if k > 0 {
      HealthyObtain(s, k - 1);
    }
  }

  /** With all connections up the second case cannot arise: the round is safe exactly if nothing is outstanding. */
  lemma BarrierIffQuiet(n: nat, before: seq<Event>)
    requires Runs(Initial(n), before)
    requires var s := After(Initial(n), before);
             RoundBegins(s) && forall i :: 0 <= i < |s.conns| ==> Healthy(s.conns[i])
    ensures var s := After(Initial(n), before); BarrierGuaranteed(s) <==> Quiet(s)
  {
    hide BarrierGuaranteed, Quiet, SumLeft, Healthy;
    var s := After(Initial(n), before);
    BarrierIff(n, before);
    HealthyObtain(s, |s.conns|);
  }

  /** The exact condition explains the late ack: it covers that round's beginning, and finds it not quiet. */
  lemma LateStartIsUnsafe()
    ensures exists es: seq<Event> :: Runs(Initial(2), es) && var s := After(Initial(2), es);
              && RoundBegins(s) && (forall i :: 0 <= i < |s.conns| ==> Healthy(s.conns[i]))
              && !Quiet(s) && !BarrierGuaranteed(s)
  {
    hide BarrierGuaranteed, Runs, After;
    var es, s := LateStart();
    assert s.conns[1].down != [];
    BarrierIffQuiet(2, es);
  }
}
