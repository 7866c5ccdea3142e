/**
 The round barrier between the client and its servers.

 The client resets a shared ack counter, writes one Start per server, waits for
 as many acks as there are servers, lets traffic run, and moves on. Each server
 handles its Starts one at a time: it stops the old test, starts the new one and
 replies. Replies travel back in order, mixed with metrics frames. Rounds are
 numbered from 0 over the whole run; a Start is identified by its round.
 */
module ControlRounds {

  datatype Frame = StartAck | ErrorReply | Metrics

  datatype Busy = Free | Starting(round: int) | Acking(round: int)

  /**
   One connection, both ends. `consumed` is the round of the last Start the
   server read and `running` that of the test it runs, -1 for none.
   */
  datatype Conn = Conn(
    down: seq<int>, up: seq<Frame>,
    busy: Busy, consumed: int, running: int, connected: bool,
    reading: bool, gotStart: bool)

  datatype Phase = Sending | Waiting | Traffic | Finished

  /** `ackedBy` records whose acks the counter holds; the program keeps only the count. */
  datatype State = State(phase: Phase, round: nat, sent: nat, acks: nat, ackedBy: set<nat>, conns: seq<Conn>)

  datatype Event =
    | SendStart
    | SendFails
    | AllSent
    | Pump(j: nat)
    | AcksComplete
    | TimeOut
    | Cancel
    | NextRound
    | Consume(j: nat)
    | Started(j: nat)
    | StartFails(j: nat)
    | Reply(j: nat)
    | EmitMetrics(j: nat)
    | Disconnect(j: nat)

  function Initial(n: nat): State {
    State(Sending, 0, 0, 0, {}, seq(n, j => Conn([], [], Free, -1, -1, true, true, false)))
  }

  predicate Enabled(s: State, e: Event) {
    match e
    case SendStart => s.phase.Sending? && s.sent < |s.conns|
    case SendFails => s.phase.Sending? && s.sent < |s.conns| && !s.conns[s.sent].connected
    case AllSent => s.phase.Sending? && s.sent == |s.conns|
    case Pump(j) => j < |s.conns| && s.conns[j].reading && s.conns[j].up != []
    case AcksComplete => s.phase.Waiting? && s.acks >= |s.conns|
    case TimeOut => s.phase.Waiting?
    case Cancel => s.phase.Waiting? || s.phase.Traffic?
    case NextRound => s.phase.Traffic?
    case Consume(j) => j < |s.conns| && s.conns[j].connected && s.conns[j].busy.Free? && s.conns[j].down != []
    case Started(j) => j < |s.conns| && s.conns[j].connected && s.conns[j].busy.Starting?
    case StartFails(j) => j < |s.conns| && s.conns[j].connected && s.conns[j].busy.Starting?
    case Reply(j) => j < |s.conns| && s.conns[j].connected && s.conns[j].busy.Acking?
    case EmitMetrics(j) => j < |s.conns| && s.conns[j].connected && s.conns[j].running >= 0
    case Disconnect(j) => j < |s.conns| && s.conns[j].connected
  }

  function SetConn(s: State, j: nat, c: Conn): State
    requires j < |s.conns|
  {
    s.(conns := s.conns[j := c])
  }

  /** The client's reader takes the next frame of connection j. */
  function PumpFrame(s: State, j: nat): State
    requires j < |s.conns| && s.conns[j].up != []
  {
    var c := s.conns[j];
    var rest := c.(up := c.up[1..]);
    match c.up[0]
    case StartAck => SetConn(s, j, rest.(gotStart := true)).(acks := s.acks + 1, ackedBy := s.ackedBy + {j})
    case ErrorReply => SetConn(s, j, rest.(reading := c.gotStart))
    case Metrics => SetConn(s, j, rest)
  }

  function Step(s: State, e: Event): State
    requires Enabled(s, e)
  {
    match e
    case SendStart =>
      var c := s.conns[s.sent];
      SetConn(s, s.sent, c.(down := c.down + [s.round])).(sent := s.sent + 1)
    case SendFails => s.(phase := Finished)
    case AllSent => s.(phase := Waiting)
    case Pump(j) => PumpFrame(s, j)
    case AcksComplete => s.(phase := Traffic)
    case TimeOut => s.(phase := Traffic)
    case Cancel => s.(phase := Finished)
    case NextRound => s.(phase := Sending, round := s.round + 1, sent := 0, acks := 0, ackedBy := {})
    case Consume(j) =>
      var c := s.conns[j];
      SetConn(s, j, c.(down := c.down[1..], consumed := c.down[0], running := -1, busy := Starting(c.down[0])))
    case Started(j) =>
      var c := s.conns[j];
      SetConn(s, j, c.(running := c.busy.round, busy := Acking(c.busy.round)))
    case StartFails(j) =>
      var c := s.conns[j];
      SetConn(s, j, c.(busy := Free, up := c.up + [ErrorReply]))
    case Reply(j) =>
      var c := s.conns[j];
      SetConn(s, j, c.(busy := Free, up := c.up + [StartAck]))
    case EmitMetrics(j) =>
      var c := s.conns[j];
      SetConn(s, j, c.(up := c.up + [Metrics]))
    case Disconnect(j) =>
      SetConn(s, j, s.conns[j].(connected := false, running := -1, busy := Free))
  }

  predicate Runs(s: State, es: seq<Event>)
    decreases es, 0
  {
    es == [] || (Runs(s, es[..|es| - 1]) && Enabled(After(s, es[..|es| - 1]), es[|es| - 1]))
  }

  function After(s: State, es: seq<Event>): State
    requires Runs(s, es)
    decreases es, 1
  {
    if es == [] then s else Step(After(s, es[..|es| - 1]), es[|es| - 1])
  }

  // ---------- every run: Starts are consumed in order, none skipped ----------

  /** The rounds lo..hi-1 in order. */
  function RoundsBetween(lo: int, hi: int): (rs: seq<int>)
    requires lo <= hi
    ensures |rs| == hi - lo
    ensures forall k :: 0 <= k < |rs| ==> rs[k] == lo + k
    decreases hi - lo
  {
    if lo == hi then [] else RoundsBetween(lo, hi - 1) + [hi - 1]
  }

  /** The last round whose Start was written to connection j. */
  function LastSent(s: State, j: nat): int {
    if j < s.sent then s.round else s.round - 1
  }

  predicate ConnInOrder(c: Conn, last: int) {
    && -1 <= c.consumed <= last
    && c.down == RoundsBetween(c.consumed + 1, last + 1)
    && (c.busy.Free? || c.busy.round == c.consumed)
    && (c.running == -1 || c.running == c.consumed)
  }

  predicate InOrder(s: State) {
    && s.sent <= |s.conns|
    && (s.phase.Sending? || s.phase.Finished? || s.sent == |s.conns|)
    && forall j :: 0 <= j < |s.conns| ==> ConnInOrder(s.conns[j], LastSent(s, j))
  }

  lemma {:induction false} RoundsTail(lo: int, hi: int)
    requires lo < hi
    ensures RoundsBetween(lo, hi)[1..] == RoundsBetween(lo + 1, hi)
    decreases hi - lo
  {
  }

  /** What an event leaves of a connection that it is not about. */
  predicate Elsewhere(e: Event, j: nat) {
    match e
    case Pump(i) => i != j
    case Consume(i) => i != j
    case Started(i) => i != j
    case StartFails(i) => i != j
    case Reply(i) => i != j
    case EmitMetrics(i) => i != j
    case Disconnect(i) => i != j
    case _ => true
  }

  lemma ConnInOrderStep(s: State, e: Event, j: nat)
    requires InOrder(s) && Enabled(s, e) && j < |s.conns|
    ensures var t := Step(s, e); ConnInOrder(t.conns[j], LastSent(t, j))
  {
    hide ConnInOrder, InOrder, LastSent, RoundsBetween;
    InOrderAt(s, j);
    if !Elsewhere(e, j) {
      ConnInOrderHere(s, e, j, LastSent(s, j));
      SameLastSent(s, e, j);
    } else if e.SendStart? && s.sent == j {
      ConnInOrderSent(s, j);
    } else {
      ConnUntouched(s, e, j);
    }
  }

  /** An event about connection j, at either end. */
  lemma ConnInOrderHere(s: State, e: Event, j: nat, last: int)
    requires j < |s.conns| && Enabled(s, e) && !Elsewhere(e, j) && ConnInOrder(s.conns[j], last)
    ensures ConnInOrder(Step(s, e).conns[j], last)
  {
    hide RoundsBetween;
    if e.Consume? {
      RoundsTail(s.conns[j].consumed + 1, last + 1);
    }
  }

  lemma SameLastSent(s: State, e: Event, j: nat)
    requires j < |s.conns| && Enabled(s, e) && !Elsewhere(e, j)
    ensures LastSent(Step(s, e), j) == LastSent(s, j)
  {
  }

  lemma ConnInOrderSent(s: State, j: nat)
    requires j < |s.conns| && s.sent == j && Enabled(s, SendStart) && ConnInOrder(s.conns[j], LastSent(s, j))
    ensures var t := Step(s, SendStart); ConnInOrder(t.conns[j], LastSent(t, j))
  {
    hide RoundsBetween;
    RoundsAppend(s.conns[j].consumed + 1, s.round);
  }

  lemma ConnUntouched(s: State, e: Event, j: nat)
    requires j < |s.conns| && Enabled(s, e) && Elsewhere(e, j) && !(e.SendStart? && s.sent == j)
    requires s.phase.Traffic? ==> s.sent == |s.conns|
    ensures var t := Step(s, e); t.conns[j] == s.conns[j] && LastSent(t, j) == LastSent(s, j)
  {
  }

  lemma RoundsAppend(lo: int, hi: int)
    requires lo <= hi
    ensures RoundsBetween(lo, hi) + [hi] == RoundsBetween(lo, hi + 1)
  {
  }

  lemma InOrderStep(s: State, e: Event)
    requires InOrder(s) && Enabled(s, e)
    ensures InOrder(Step(s, e)) && |Step(s, e).conns| == |s.conns|
  {
    hide ConnInOrder, LastSent;
    var t := Step(s, e);
    forall j | 0 <= j < |t.conns| ensures ConnInOrder(t.conns[j], LastSent(t, j)) {
      ConnInOrderStep(s, e, j);
    }
  }

  lemma {:induction false} EveryRunInOrder(n: nat, es: seq<Event>)
    requires Runs(Initial(n), es)
    ensures InOrder(After(Initial(n), es)) && |After(Initial(n), es).conns| == n
  {
    if es != [] {
      EveryRunInOrder(n, es[..|es| - 1]);
      InOrderStep(After(Initial(n), es[..|es| - 1]), es[|es| - 1]);
    }
  }

  // ---------- the barrier ----------

  function AcksIn(up: seq<Frame>): nat {
    if up == [] then 0 else AcksIn(up[..|up| - 1]) + if up[|up| - 1].StartAck? then 1 else 0
  }

  lemma {:induction false} AcksInTail(up: seq<Frame>)
    requires up != []
    ensures AcksIn(up) == AcksIn(up[1..]) + if up[0].StartAck? then 1 else 0
  {
    if |up| > 1 {
      AcksInTail(up[..|up| - 1]);
      assert up[..|up| - 1][1..] == up[1..][..|up| - 2];
    }
  }

  lemma AcksInAppend(up: seq<Frame>, f: Frame)
    ensures AcksIn(up + [f]) == AcksIn(up) + if f.StartAck? then 1 else 0
  {
    assert (up + [f])[..|up|] == up;
  }

  function One(b: bool): nat {
    if b then 1 else 0
  }

  /** The Starts on connection j that could still become a counted ack, and the ack already counted. */
  function Claims(c: Conn, counted: bool): nat {
    |c.down| + One(!c.busy.Free?) + AcksIn(c.up) + One(counted)
  }

  /** A server whose ack is on its way or counted runs the round that was last sent to it. */
  predicate ConnClaim(c: Conn, last: int, sentThisRound: bool, counted: bool) {
    && Claims(c, counted) <= One(sentThisRound)
    && (!c.busy.Free? ==> c.connected)
    && (c.busy.Acking? ==> c.running == last)
    && ((AcksIn(c.up) > 0 || counted) && c.connected ==> c.running == last)
  }

  predicate AllClaimed(s: State) {
    forall j :: 0 <= j < |s.conns| ==> ConnClaim(s.conns[j], LastSent(s, j), j < s.sent, j in s.ackedBy)
  }

  /** The counter holds one ack from each of that many servers, and no server has more than one coming. */
  predicate Clean(s: State) {
    && s.acks == |s.ackedBy|
    && (forall j :: j in s.ackedBy ==> j < |s.conns|)
    && AllClaimed(s)
    && (s.phase.Traffic? ==> s.acks >= |s.conns|)
  }

  lemma {:induction false} FullSet(a: set<nat>, n: nat)
    requires (forall j :: j in a ==> j < n) && |a| >= n
    ensures forall j: nat :: j < n ==> j in a
  {
    if n > 0 {
      var rest := a - {n - 1};
      if n - 1 !in a {
        TooFew(a, n - 1);
      }
      assert a == rest + {n - 1};
      FullSet(rest, n - 1);
    }
  }

  lemma {:induction false} TooFew(a: set<nat>, n: nat)
    requires forall j :: j in a ==> j < n
    ensures |a| <= n
  {
    if n == 0 {
      assert a == {};
    } else {
      var rest := a - {n - 1};
      assert |a| <= |rest| + 1 by {
        if n - 1 in a {
          assert a == rest + {n - 1};
        } else {
          assert a == rest;
        }
      }
      TooFew(rest, n - 1);
    }
  }

  /** Every server has consumed the current Start, and runs it unless its connection is gone. */
  predicate Barrier(s: State) {
    forall j :: 0 <= j < |s.conns| ==>
      && s.conns[j].consumed == s.round
      && s.conns[j].down == [] && s.conns[j].busy.Free?
      && (s.conns[j].connected ==> s.conns[j].running == s.round)
  }

  lemma CompleteMeansBarrier(s: State)
    requires InOrder(s) && Clean(s) && s.sent == |s.conns| && s.acks >= |s.conns|
    ensures Barrier(s)
    ensures forall j: nat :: j < |s.conns| ==> j in s.ackedBy
  {
    FullSet(s.ackedBy, |s.conns|);
    forall j: nat | j < |s.conns| ensures s.conns[j].consumed == s.round && s.conns[j].down == []
        && s.conns[j].busy.Free? && (s.conns[j].connected ==> s.conns[j].running == s.round)
    {
      assert ConnInOrder(s.conns[j], LastSent(s, j));
      assert ConnClaim(s.conns[j], LastSent(s, j), j < s.sent, j in s.ackedBy);
    }
  }

  lemma ClaimElsewhere(s: State, e: Event, j: nat)
    requires Clean(s) && Enabled(s, e) && !e.NextRound? && !e.SendStart? && Elsewhere(e, j) && j < |s.conns|
    ensures var t := Step(s, e); ConnClaim(t.conns[j], LastSent(t, j), j < t.sent, j in t.ackedBy)
  {
    hide ConnClaim, Clean;
    CleanAt(s, j);
  }

  lemma ClaimSent(s: State, j: nat)
    requires Clean(s) && Enabled(s, SendStart) && j < |s.conns|
    ensures var t := Step(s, SendStart); ConnClaim(t.conns[j], LastSent(t, j), j < t.sent, j in t.ackedBy)
  {
    assert ConnClaim(s.conns[j], LastSent(s, j), j < s.sent, j in s.ackedBy);
  }

  lemma ClaimHere(s: State, e: Event, j: nat)
    requires InOrder(s) && Clean(s) && Enabled(s, e) && !Elsewhere(e, j) && j < |s.conns|
    ensures var t := Step(s, e); ConnClaim(t.conns[j], LastSent(t, j), j < t.sent, j in t.ackedBy)
  {
    hide RoundsBetween, AcksIn, InOrder, Clean;
    var c, last, sent, counted := s.conns[j], LastSent(s, j), j < s.sent, j in s.ackedBy;
    assert ConnInOrder(c, last) by {
      InOrderAt(s, j);
    }
    assert ConnClaim(c, last, sent, counted) by {
      CleanAt(s, j);
    }
    match e
    case Pump(_) => AcksInTail(c.up);
    case StartFails(_) => AcksInAppend(c.up, ErrorReply);
    case Reply(_) => AcksInAppend(c.up, StartAck);
    case EmitMetrics(_) => AcksInAppend(c.up, Metrics);
    case Consume(_) =>
      assert c.down[0] == last by {
        DownHead(c, last);
      }
    case _ =>
  }

  lemma InOrderAt(s: State, j: nat)
    requires InOrder(s) && j < |s.conns|
    ensures ConnInOrder(s.conns[j], LastSent(s, j))
    ensures s.phase.Traffic? ==> s.sent == |s.conns|
  {
  }

  lemma CleanAt(s: State, j: nat)
    requires Clean(s) && j < |s.conns|
    ensures ConnClaim(s.conns[j], LastSent(s, j), j < s.sent, j in s.ackedBy)
  {
  }

  lemma DownHead(c: Conn, last: int)
    requires ConnInOrder(c, last) && |c.down| == 1
    ensures c.down[0] == last
  {
  }

  lemma AllClaimedStep(s: State, e: Event)
    requires InOrder(s) && Clean(s) && Enabled(s, e) && !e.NextRound?
    ensures AllClaimed(Step(s, e))
  {
    hide InOrder, Clean, ConnClaim, LastSent;
    var t := Step(s, e);
    forall j | 0 <= j < |t.conns| ensures ConnClaim(t.conns[j], LastSent(t, j), j < t.sent, j in t.ackedBy) {
      if e.SendStart? {
        ClaimSent(s, j);
      } else if Elsewhere(e, j) {
        ClaimElsewhere(s, e, j);
      } else {
        ClaimHere(s, e, j);
      }
    }
  }

  lemma AllClaimedNextRound(s: State)
    requires InOrder(s) && Clean(s) && Enabled(s, NextRound)
    ensures AllClaimed(Step(s, NextRound))
  {
    var t := Step(s, NextRound);
    CompleteMeansBarrier(s);
    forall j | 0 <= j < |t.conns| ensures ConnClaim(t.conns[j], LastSent(t, j), j < t.sent, j in t.ackedBy) {
      CleanAt(s, j);
    }
  }

  lemma CleanStep(s: State, e: Event)
    requires InOrder(s) && Clean(s) && Enabled(s, e) && !e.TimeOut?
    ensures Clean(Step(s, e))
  {
    hide AllClaimed, ConnInOrder;
    if e.NextRound? {
      AllClaimedNextRound(s);
    } else {
      AllClaimedStep(s, e);
      if e.Pump? && s.conns[e.j].up[0].StartAck? {
        AcksInTail(s.conns[e.j].up);
        CleanAt(s, e.j);
        assert e.j !in s.ackedBy;
      }
    }
  }

  predicate NoTimeOut(es: seq<Event>) {
    forall k :: 0 <= k < |es| ==> !es[k].TimeOut?
  }

  lemma {:induction false} RunStaysClean(s: State, es: seq<Event>)
    requires InOrder(s) && Clean(s) && Runs(s, es) && NoTimeOut(es)
    ensures InOrder(After(s, es)) && Clean(After(s, es)) && |After(s, es).conns| == |s.conns|
  {
    if es != [] {
      RunStaysClean(s, es[..|es| - 1]);
      InOrderStep(After(s, es[..|es| - 1]), es[|es| - 1]);
      CleanStep(After(s, es[..|es| - 1]), es[|es| - 1]);
    }
  }

  lemma InitiallyClean(n: nat)
    ensures InOrder(Initial(n)) && Clean(Initial(n))
  {
  }

  /**
   The barrier, in every interleaving without a timeout, errors and lost
   connections included: once the ack loop is left, the round is everywhere.
   */
  lemma RoundBarrier(n: nat, es: seq<Event>)
    requires Runs(Initial(n), es) && NoTimeOut(es)
    ensures var s := After(Initial(n), es); s.phase.Traffic? ==> Barrier(s)
  {
    InitiallyClean(n);
    RunStaysClean(Initial(n), es);
    var s := After(Initial(n), es);
    if s.phase.Traffic? {
      CompleteMeansBarrier(s);
    }
  }

  /** No server is ever more than one round ahead of another. */
  lemma ServersWithinOneRound(n: nat, es: seq<Event>, i: nat, j: nat)
    requires Runs(Initial(n), es) && NoTimeOut(es) && i < n && j < n
    ensures var s := After(Initial(n), es);
            i < |s.conns| && j < |s.conns| && s.conns[i].consumed - s.conns[j].consumed <= 1
  {
    InitiallyClean(n);
    RunStaysClean(Initial(n), es);
    var s := After(Initial(n), es);
    assert ConnInOrder(s.conns[i], LastSent(s, i)) && ConnInOrder(s.conns[j], LastSent(s, j));
    assert ConnClaim(s.conns[j], LastSent(s, j), j < s.sent, j in s.ackedBy);
  }
}
