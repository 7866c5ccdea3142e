/**
 The workers that send to one destination, the network, and the receiver, as
 one step system.

 The workers share a counter. A worker takes a number and sends its datagram in
 two separate steps, so datagrams may enter the network out of order. The
 network may lose, duplicate and reorder them.
 */
module UdpNetwork {
  import opened Common
  import opened UdpSequence

  datatype Worker = Idle | Holding(seqno: u64)

  /** `lost` lists the numbers whose send failed or whose datagram the network lost. */
  datatype State = State(next: u64, workers: seq<Worker>, wire: seq<u64>, arrivals: seq<u64>, lost: seq<u64>)

  datatype Event =
    | Take(w: nat)
    | Send(w: nat)
    | FailSend(w: nat)
    | Lose(k: nat)
    | Duplicate(k: nat)
    | Deliver(k: nat)

  function Initial(count: nat): State {
    State(0, seq(count, i => Idle), [], [], [])
  }

  /** Numbers stay below the largest 64-bit value: the counter has not come round. */
  predicate Enabled(s: State, e: Event) {
    match e
    case Take(w) => w < |s.workers| && s.workers[w].Idle? && s.next < U64_MAX
    case Send(w) => w < |s.workers| && s.workers[w].Holding?
    case FailSend(w) => w < |s.workers| && s.workers[w].Holding?
    case Lose(k) => k < |s.wire|
    case Duplicate(k) => k < |s.wire|
    case Deliver(k) => k < |s.wire|
  }

  function Without(wire: seq<u64>, k: nat): seq<u64>
    requires k < |wire|
  {
    wire[..k] + wire[k + 1..]
  }

  function Step(s: State, e: Event): State
    requires Enabled(s, e)
  {
    match e
    case Take(w) => s.(workers := s.workers[w := Holding(s.next)], next := s.next + 1)
    case Send(w) => s.(workers := s.workers[w := Idle], wire := s.wire + [s.workers[w].seqno])
    case FailSend(w) => s.(workers := s.workers[w := Idle], lost := s.lost + [s.workers[w].seqno])
    case Lose(k) => s.(wire := Without(s.wire, k), lost := s.lost + [s.wire[k]])
    case Duplicate(k) => s.(wire := s.wire + [s.wire[k]])
    case Deliver(k) => s.(wire := Without(s.wire, k), arrivals := s.arrivals + [s.wire[k]])
  }

  predicate Runs(s: State, es: seq<Event>)
    decreases es, 0
  {
    es == [] || (Runs(s, es[..|es| - 1]) && Enabled(After(s, es[..|es| - 1]), es[|es| - 1]))
  }

  function After(s: State, es: seq<Event>): State
    requires Runs(s, es)
    decreases es, 1
  {
    if es == [] then s else Step(After(s, es[..|es| - 1]), es[|es| - 1])
  }

  lemma RunExtends(s: State, es: seq<Event>, e: Event)
    requires Runs(s, es) && Enabled(After(s, es), e)
    ensures Runs(s, es + [e]) && After(s, es + [e]) == Step(After(s, es), e)
  {
    assert (es + [e])[..|es|] == es;
  }

  // ---------- any network ----------

  predicate Below(vs: seq<u64>, bound: u64) {
    forall k :: 0 <= k < |vs| ==> vs[k] < bound
  }

  predicate Numbered(s: State) {
    && Below(s.wire, s.next) && Below(s.arrivals, s.next) && Below(s.lost, s.next)
    && forall w :: 0 <= w < |s.workers| && s.workers[w].Holding? ==> s.workers[w].seqno < s.next
  }

  lemma {:induction false} EveryRunNumbered(count: nat, es: seq<Event>)
    requires Runs(Initial(count), es)
    ensures Numbered(After(Initial(count), es)) && |After(Initial(count), es).workers| == count
  {
    if es != [] {
      EveryRunNumbered(count, es[..|es| - 1]);
    }
  }

  /**
   Whatever the network does, the receiver never reports more drops than there
   are numbers taken and not received in order.
   */
  lemma DropsBoundedByNumbersTaken(count: nat, es: seq<Event>)
    requires Runs(Initial(count), es)
    ensures var s := After(Initial(count), es);
            Receive(s.arrivals).drops + |Records(s.arrivals)| <= s.next
  {
    EveryRunNumbered(count, es);
    var s := After(Initial(count), es);
    if s.arrivals != [] {
      DropsAndRecordsFillTheSpan(s.arrivals);
    }
  }

  function Holders(workers: seq<Worker>, v: u64): nat {
    if workers == [] then 0
    else Holders(workers[..|workers| - 1], v) + if workers[|workers| - 1] == Holding(v) then 1 else 0
  }

  lemma {:induction false} HoldersUpdate(workers: seq<Worker>, w: nat, worker: Worker, v: u64)
    requires w < |workers|
    ensures Holders(workers[w := worker], v) + (if workers[w] == Holding(v) then 1 else 0)
            == Holders(workers, v) + if worker == Holding(v) then 1 else 0
  {
    var n := |workers| - 1;
    if w < n {
      HoldersUpdate(workers[..n], w, worker, v);
      assert workers[w := worker][..n] == workers[..n][w := worker];
    } else {
      assert workers[w := worker][..n] == workers[..n];
    }
  }

  /** How many copies of a number there are: received, in flight, lost or held. */
  function Copies(s: State, v: u64): nat {
    multiset(s.arrivals)[v] + multiset(s.wire)[v] + multiset(s.lost)[v] + Holders(s.workers, v)
  }

  /** How many copies of a number an event makes. */
  function Made(s: State, e: Event, v: u64): nat
    requires Enabled(s, e)
  {
    match e
    case Take(_) => if s.next == v then 1 else 0
    case Duplicate(k) => if s.wire[k] == v then 1 else 0
    case _ => 0
  }

  /** How many copies of a number the network made in a run. */
  function Duplicates(count: nat, es: seq<Event>, v: u64): nat
    requires Runs(Initial(count), es)
  {
    if es == [] then 0
    else
      var init, e := es[..|es| - 1], es[|es| - 1];
      Duplicates(count, init, v) + if e.Duplicate? then Made(After(Initial(count), init), e, v) else 0
  }

  lemma TakenOut(wire: seq<u64>, k: nat, v: u64)
    requires k < |wire|
    ensures multiset(Without(wire, k))[v] + (if wire[k] == v then 1 else 0) == multiset(wire)[v]
  {
    assert wire == wire[..k] + [wire[k]] + wire[k + 1..];
  }

  lemma CopiesStep(s: State, e: Event, v: u64)
    requires Enabled(s, e)
    ensures Copies(Step(s, e), v) == Copies(s, v) + Made(s, e, v)
  {
    hide Holders;
    match e
    case Take(w) => HoldersUpdate(s.workers, w, Holding(s.next), v);
    case Send(w) => HoldersUpdate(s.workers, w, Idle, v);
    case FailSend(w) => HoldersUpdate(s.workers, w, Idle, v);
    case Lose(k) => TakenOut(s.wire, k, v);
    case Duplicate(k) =>
    case Deliver(k) => TakenOut(s.wire, k, v);
  }

  lemma {:induction false} NoHolders(workers: seq<Worker>, v: u64)
    requires forall w :: 0 <= w < |workers| ==> workers[w].Idle?
    ensures Holders(workers, v) == 0
  {
    if workers != [] {
      NoHolders(workers[..|workers| - 1], v);
    }
  }

  /** On any network there is one copy of every number taken, and one more for each time it was duplicated. */
  lemma {:induction false} EveryNumberIsSomewhere(count: nat, es: seq<Event>, v: u64)
    requires Runs(Initial(count), es)
    ensures var s := After(Initial(count), es);
            Copies(s, v) == (if v < s.next then 1 else 0) + Duplicates(count, es, v)
  {
    hide Copies, Holders;
    if es == [] {
      NoCopies(count, v);
    } else {
      var init, e := es[..|es| - 1], es[|es| - 1];
      EveryNumberIsSomewhere(count, init, v);
      CopiesStep(After(Initial(count), init), e, v);
    }
  }

  lemma NoCopies(count: nat, v: u64)
    ensures Copies(Initial(count), v) == 0
  {
    NoHolders(Initial(count).workers, v);
  }

  datatype Tally = Tally(taken: nat, received: nat, lost: nat)

  function TallyOf(es: seq<Event>): Tally {
    if es == [] then Tally(0, 0, 0)
    else
      var t := TallyOf(es[..|es| - 1]);
      match es[|es| - 1]
      case Take(_) => t.(taken := t.taken + 1)
      case Deliver(_) => t.(received := t.received + 1)
      case Lose(_) => t.(lost := t.lost + 1)
      case FailSend(_) => t.(lost := t.lost + 1)
      case _ => t
  }

  /** The numbers taken, received and lost in a run are as many as the events that say so. */
  lemma {:induction false} EveryEventCounts(count: nat, es: seq<Event>)
    requires Runs(Initial(count), es)
    ensures var s := After(Initial(count), es); TallyOf(es) == Tally(s.next, |s.arrivals|, |s.lost|)
  {
    if es != [] {
      EveryEventCounts(count, es[..|es| - 1]);
    }
  }

  // ---------- an ordered network ----------

  /** No duplicates, and datagrams arrive in the order they were sent. */
  predicate InOrder(e: Event) {
    match e
    case Duplicate(k) => false
    case Deliver(k) => k == 0
    case _ => true
  }

  predicate AllInOrder(es: seq<Event>) {
    forall i :: 0 <= i < |es| ==> InOrder(es[i])
  }

  /** The numbers held by some workers. */
  function Held(workers: seq<Worker>): (held: set<int>)
    ensures |held| <= |workers|
    ensures forall w :: 0 <= w < |workers| && workers[w].Holding? ==> workers[w].seqno in held
    ensures forall v :: v in held ==> exists w :: 0 <= w < |workers| && workers[w].Holding? && workers[w].seqno == v
  {
    if workers == [] then {}
    else
      var init, last := workers[..|workers| - 1], workers[|workers| - 1];
      assert forall w :: 0 <= w < |init| ==> init[w] == workers[w];
      Held(init) + if last.Holding? then {last.seqno} else {}
  }

  function AsSet(vs: seq<u64>): (all: set<int>)
    ensures |all| <= |vs|
    ensures forall v :: v in all <==> v in vs
  {
    if vs == [] then {}
    else
      assert vs == vs[..|vs| - 1] + [vs[|vs| - 1]];
      AsSet(vs[..|vs| - 1]) + {vs[|vs| - 1]}
  }

  /** The smaller numbers that a datagram in flight will overtake. */
  function Overtaken(s: State, k: nat): set<int>
    requires k < |s.wire|
  {
    set v: int | v in Span(0, s.wire[k]) && v !in s.arrivals && v !in s.wire[..k]
  }

  predicate Somewhere(s: State, v: u64) {
    v in s.arrivals || v in s.wire || v in Held(s.workers) || v in s.lost
  }

  /** Every number taken is somewhere. */
  predicate Accounted(s: State) {
    forall v :: 0 <= v < s.next ==> Somewhere(s, v)
  }

  /** A datagram overtakes at most the numbers of the other workers and the lost ones. */
  predicate FewOvertaken(s: State) {
    forall k :: 0 <= k < |s.wire| ==> |Overtaken(s, k)| <= |s.workers| - 1 + |s.lost|
  }

  lemma SubsetSize(a: set<int>, b: set<int>)
    requires a <= b
    ensures |a| <= |b|
  {
    assert b == a + (b - a);
  }

  lemma UnionSize(a: set<int>, b: set<int>)
    ensures |a + b| <= |a| + |b|
  {
    assert a + b == a + (b - a);
    SubsetSize(b - a, b);
  }

  lemma HeldAfter(workers: seq<Worker>, w: nat, worker: Worker, v: u64)
    requires w < |workers| && v in Held(workers) && workers[w] != Holding(v)
    ensures v in Held(workers[w := worker])
  {
    var u :| 0 <= u < |workers| && workers[u] == Holding(v);
    assert workers[w := worker][u] == Holding(v);
  }

  lemma StillWithWorkers(s: State, e: Event, v: u64)
    requires Enabled(s, e) && (e.Take? || e.Send? || e.FailSend?)
    requires Somewhere(s, v) || (e.Take? && v == s.next)
    ensures Somewhere(Step(s, e), v)
  {
    hide Held;
    var t := Step(s, e);
    if e.Take? && v == s.next {
      assert t.workers[e.w] == Holding(v);
    } else if v in Held(s.workers) && s.workers[e.w] != Holding(v) {
      HeldAfter(s.workers, e.w, t.workers[e.w], v);
    }
  }

  lemma StillInNetwork(s: State, e: Event, v: u64)
    requires Enabled(s, e) && InOrder(e) && (e.Lose? || e.Deliver?) && Somewhere(s, v)
    ensures Somewhere(Step(s, e), v)
  {
    hide Held;
    var t := Step(s, e);
    if v in s.wire {
      assert s.wire == s.wire[..e.k] + [s.wire[e.k]] + s.wire[e.k + 1..];
      assert v == s.wire[e.k] || v in t.wire;
      assert v == s.wire[e.k] ==> v in t.lost || v in t.arrivals;
    }
  }

  lemma AccountedStep(s: State, e: Event)
    requires Accounted(s) && Enabled(s, e) && InOrder(e)
    ensures Accounted(Step(s, e))
  {
    hide Somewhere;
    forall v | 0 <= v < Step(s, e).next ensures Somewhere(Step(s, e), v) {
      if e.Lose? || e.Deliver? {
        StillInNetwork(s, e, v);
      } else {
        StillWithWorkers(s, e, v);
      }
    }
  }

  lemma HeldByOthers(workers: seq<Worker>, w: nat, v: int)
    requires w < |workers| && v in Held(workers) && !(workers[w].Holding? && workers[w].seqno == v)
    ensures v in Held(workers[..w]) || v in Held(workers[w + 1..])
  {
    hide Held;
    var u :| 0 <= u < |workers| && workers[u].Holding? && workers[u].seqno == v;
    if u < w {
      assert workers[..w][u] == workers[u];
    } else {
      assert workers[w + 1..][u - w - 1] == workers[u];
    }
  }

  /** A smaller number that is neither received nor in flight is held by another worker or lost. */
  lemma OvertakenElsewhere(s: State, w: nat, v: int)
    requires Accounted(s) && Numbered(s) && Enabled(s, Send(w)) && v in Overtaken(Step(s, Send(w)), |s.wire|)
    ensures v in Held(s.workers[..w]) || v in Held(s.workers[w + 1..]) || v in s.lost
  {
    hide Held;
    var t := Step(s, Send(w));
    assert t.wire[..|s.wire|] == s.wire && t.wire[|s.wire|] == s.workers[w].seqno;
    assert Somewhere(s, v);
    if v !in s.lost {
      HeldByOthers(s.workers, w, v);
    }
  }

  /** What a datagram can overtake at the moment it is sent. */
  lemma OvertakenWhenSent(s: State, w: nat)
    requires Accounted(s) && Numbered(s) && Enabled(s, Send(w))
    ensures var t := Step(s, Send(w)); |Overtaken(t, |s.wire|)| <= |s.workers| - 1 + |s.lost|
  {
    hide Accounted, Numbered, Overtaken, Held, AsSet;
    var t := Step(s, Send(w));
    var before, later, lost := Held(s.workers[..w]), Held(s.workers[w + 1..]), AsSet(s.lost);
    forall v | v in Overtaken(t, |s.wire|) ensures v in before + later + lost {
      OvertakenElsewhere(s, w, v);
    }
    SubsetSize(Overtaken(t, |s.wire|), before + later + lost);
    UnionSize(before + later, lost);
    UnionSize(before, later);
  }

  /** Datagrams already in flight overtake at most one more when one is lost, none otherwise. */
  lemma OvertakenInFlight(s: State, e: Event, j: nat)
    requires Enabled(s, e) && InOrder(e)
    requires j < |Step(s, e).wire| && (e.Send? ==> j < |s.wire|)
    ensures var i := if (e.Lose? || e.Deliver?) && j >= e.k then j + 1 else j;
            && i < |s.wire|
            && |Overtaken(Step(s, e), j)| <= |Overtaken(s, i)| + if e.Lose? then 1 else 0
  {
    var t := Step(s, e);
    var i := if (e.Lose? || e.Deliver?) && j >= e.k then j + 1 else j;
    var gone: set<int> := if e.Lose? then {s.wire[e.k]} else {};
    if e.Lose? || e.Deliver? {
      if j >= e.k {
        assert s.wire[..i] == s.wire[..e.k] + [s.wire[e.k]] + s.wire[e.k + 1..i];
        assert t.wire[..j] == s.wire[..e.k] + s.wire[e.k + 1..i];
      } else {
        assert t.wire[..j] == s.wire[..j];
      }
    } else {
      assert t.wire[..j] == s.wire[..j];
    }
    assert Overtaken(t, j) <= Overtaken(s, i) + gone;
    SubsetSize(Overtaken(t, j), Overtaken(s, i) + gone);
    UnionSize(Overtaken(s, i), gone);
  }

  lemma FewOvertakenStep(s: State, e: Event)
    requires Accounted(s) && Numbered(s) && FewOvertaken(s) && Enabled(s, e) && InOrder(e)
    ensures FewOvertaken(Step(s, e))
  {
    hide Overtaken, Accounted, Numbered;
    var t := Step(s, e);
    forall j | 0 <= j < |t.wire| ensures |Overtaken(t, j)| <= |t.workers| - 1 + |t.lost| {
      if e.Send? && j == |s.wire| {
        OvertakenWhenSent(s, e.w);
      } else {
        OvertakenInFlight(s, e, j);
      }
    }
  }

  lemma {:induction false} OrderedRun(count: nat, es: seq<Event>)
    requires Runs(Initial(count), es) && AllInOrder(es)
    ensures var s := After(Initial(count), es); Accounted(s) && FewOvertaken(s)
  {
    if es != [] {
      var init := es[..|es| - 1];
      OrderedRun(count, init);
      EveryRunNumbered(count, init);
      AccountedStep(After(Initial(count), init), es[|es| - 1]);
      FewOvertakenStep(After(Initial(count), init), es[|es| - 1]);
    }
  }

  /** The drops reported for the next datagram in flight. */
  function NextGap(s: State): u64
    requires s.wire != []
  {
    Note(Receive(s.arrivals).expected, s.wire[0]).1
  }

  lemma GapIsOvertaken(s: State)
    requires s.wire != [] && Numbered(s)
    ensures NextGap(s) <= |Overtaken(s, 0)|
  {
    if s.arrivals != [] {
      ExpectedFollowsMax(s.arrivals);
      var m := Max(s.arrivals);
      if s.wire[0] > m {
        assert Span(m + 1, s.wire[0]) <= Overtaken(s, 0);
        SubsetSize(Span(m + 1, s.wire[0]), Overtaken(s, 0));
      }
    }
  }

  /** On an ordered network a reported gap is at most the other workers plus the losses so far. */
  lemma GapBound(count: nat, es: seq<Event>)
    requires Runs(Initial(count), es) && AllInOrder(es)
    ensures var s := After(Initial(count), es); s.wire != [] ==> NextGap(s) <= count - 1 + |s.lost|
  {
    EveryRunNumbered(count, es);
    OrderedRun(count, es);
    var s := After(Initial(count), es);
    if s.wire != [] {
      GapIsOvertaken(s);
      assert |Overtaken(s, 0)| <= |s.workers| - 1 + |s.lost|;
    }
  }

  predicate Lossless(es: seq<Event>) {
    forall i :: 0 <= i < |es| ==> !es[i].FailSend? && !es[i].Lose?
  }

  lemma {:induction false} LosslessLosesNothing(count: nat, es: seq<Event>)
    requires Runs(Initial(count), es) && Lossless(es)
    ensures After(Initial(count), es).lost == []
  {
    if es != [] {
      LosslessLosesNothing(count, es[..|es| - 1]);
    }
  }

  /** With nothing lost, a single worker is never reported to have dropped anything. */
  lemma {:induction false} OneWorkerNeverDrops(es: seq<Event>)
    requires Runs(Initial(1), es) && AllInOrder(es) && Lossless(es)
    ensures Receive(After(Initial(1), es).arrivals).drops == 0
  {
    if es != [] {
      var init, last := es[..|es| - 1], es[|es| - 1];
      OneWorkerNeverDrops(init);
      LosslessLosesNothing(1, init);
      GapBound(1, init);
      var s := After(Initial(1), init);
      if last.Deliver? {
        assert (s.arrivals + [s.wire[0]])[..|s.arrivals|] == s.arrivals;
      }
    }
  }

  /** Nothing is on its way: no worker holds a number and no datagram is in flight. */
  predicate Settled(s: State) {
    s.wire == [] && forall w :: 0 <= w < |s.workers| ==> s.workers[w].Idle?
  }

  /**
   With nothing lost and nothing on its way, no number is missing: every drop reported on an
   ordered network was a late arrival, so none of them happened.
   */
  lemma EveryDropIsFalse(count: nat, es: seq<Event>)
    requires Runs(Initial(count), es) && AllInOrder(es) && Lossless(es)
    requires var s := After(Initial(count), es); Settled(s) && s.arrivals != []
    ensures var s := After(Initial(count), es);
            && Missing(s.arrivals) == {} && Receive(s.arrivals).drops == |Late(s.arrivals)|
  {
    hide Runs, After, AllInOrder, Lossless, Receive, Late;
    var s := After(Initial(count), es);
    OrderedRun(count, es);
    LosslessLosesNothing(count, es);
    EveryRunNumbered(count, es);
    NothingHeld(s.workers);
    forall v: int | 0 <= v <= Max(s.arrivals) ensures v in s.arrivals {
      assert Max(s.arrivals) in s.arrivals;
      assert Somewhere(s, v);
    }
    assert Missing(s.arrivals) == {};
    DropsAreMissingPlusLate(s.arrivals);
  }

  lemma {:induction false} NothingHeld(workers: seq<Worker>)
    requires forall w :: 0 <= w < |workers| ==> workers[w].Idle?
    ensures Held(workers) == {}
  {
    if workers != [] {
      NothingHeld(workers[..|workers| - 1]);
    }
  }

  // ---------- the bound is reached ----------

  /** One number goes through; then the first `hi` workers take the next ones. */
  function Opening(hi: nat): seq<Event> {
    if hi == 0 then [Take(0), Send(0), Deliver(0)] else Opening(hi - 1) + [Take(hi - 1)]
  }

  function Opened(count: nat, hi: nat): State
    requires hi <= count && hi + 1 < U64_MAX
  {
    State(hi + 1, seq(count, w requires 0 <= w < count => if w < hi then Holding(w + 1) else Idle), [], [0], [])
  }

  lemma {:induction false} OpeningRuns(count: nat, hi: nat)
    requires 0 < count && hi <= count && hi + 1 < U64_MAX
    ensures Runs(Initial(count), Opening(hi)) && AllInOrder(Opening(hi)) && Lossless(Opening(hi))
    ensures After(Initial(count), Opening(hi)) == Opened(count, hi)
  {
    hide Runs, After;
    if hi == 0 {
      OpeningHand(count);
    } else {
      OpeningRuns(count, hi - 1);
      assert Opened(count, hi).workers == Opened(count, hi - 1).workers[hi - 1 := Holding(hi)];
      RunExtends(Initial(count), Opening(hi - 1), Take(hi - 1));
    }
  }

  lemma OpeningHand(count: nat)
    requires 0 < count
    ensures Runs(Initial(count), Opening(0)) && After(Initial(count), Opening(0)) == Opened(count, 0)
  {
    var s := Initial(count);
    RunExtends(s, [], Take(0));
    RunExtends(s, [Take(0)], Send(0));
    RunExtends(s, [Take(0), Send(0)], Deliver(0));
    assert [Take(0)] + [Send(0)] + [Deliver(0)] == Opening(0);
    assert s.workers == Opened(count, 0).workers;
  }

  /** Any number of workers can produce a gap of that number less one, on a network that loses nothing. */
  lemma GapBoundIsReached(count: nat) returns (es: seq<Event>)
    requires 0 < count && count + 1 < U64_MAX
    ensures Runs(Initial(count), es) && AllInOrder(es) && Lossless(es)
    ensures var s := After(Initial(count), es); s.wire != [] && NextGap(s) == count - 1
  {
    OpeningRuns(count, count);
    es := Opening(count) + [Send(count - 1)];
    RunExtends(Initial(count), Opening(count), Send(count - 1));
    assert Receive([0]).expected == Some(1) by {
      assert [0][..0] == [];
    }
  }

  // ---------- drops that did not happen ----------

  /** More arrivals never take a drop back. */
  lemma {:induction false} DropsGrow(before: seq<u64>, arrivals: seq<u64>)
    requires before <= arrivals
    ensures Receive(before).drops <= Receive(arrivals).drops
  {
    if before != arrivals {
      DropsGrow(before, arrivals[..|arrivals| - 1]);
    } else {
      assert before == arrivals;
    }
  }

  /** Wherever a run is, the network can be emptied in order and without a loss. */
  lemma CanSettle(count: nat, es: seq<Event>) returns (more: seq<Event>)
    requires Runs(Initial(count), es)
    ensures es <= more && forall i :: |es| <= i < |more| ==> more[i].Send? || more[i] == Deliver(0)
    ensures Runs(Initial(count), more) && Settled(After(Initial(count), more))
    ensures After(Initial(count), es).arrivals <= After(Initial(count), more).arrivals
  {
    hide Runs, After;
    more := es;
    ghost var first, s, w := After(Initial(count), es), After(Initial(count), es), 0;
    while w < |s.workers|
      invariant es <= more && Runs(Initial(count), more) && After(Initial(count), more) == s
      invariant forall i :: |es| <= i < |more| ==> more[i].Send?
      invariant w <= |s.workers| && s.arrivals == first.arrivals
      invariant forall v :: 0 <= v < w ==> s.workers[v].Idle?
    {
      if s.workers[w].Holding? {
        RunExtends(Initial(count), more, Send(w));
        more, s := more + [Send(w)], Step(s, Send(w));
      }
      w := w + 1;
    }
    while s.wire != []
      invariant es <= more && Runs(Initial(count), more) && After(Initial(count), more) == s
      invariant forall i :: |es| <= i < |more| ==> more[i].Send? || more[i] == Deliver(0)
      invariant first.arrivals <= s.arrivals
      invariant forall v :: 0 <= v < |s.workers| ==> s.workers[v].Idle?
      decreases |s.wire|
    {
      RunExtends(Initial(count), more, Deliver(0));
      more, s := more + [Deliver(0)], Step(s, Deliver(0));
    }
  }

  /**
   For any number of workers some run on an ordered network loses nothing and delivers everything,
   and still has as many drops reported as there are other workers.
   */
  lemma FalseDropsReached(count: nat) returns (es: seq<Event>)
    requires 0 < count && count + 1 < U64_MAX
    ensures Runs(Initial(count), es) && AllInOrder(es) && Lossless(es) && Settled(After(Initial(count), es))
    ensures var s := After(Initial(count), es);
            s.arrivals != [] && Missing(s.arrivals) == {} && Receive(s.arrivals).drops >= count - 1
  {
    hide Runs, After, Receive, Missing;
    var gap := GapBoundIsReached(count);
    var s := After(Initial(count), gap);
    RunExtends(Initial(count), gap, Deliver(0));
    GapIsDropped(s);
    var late := gap + [Deliver(0)];
    es := CanSettle(count, late);
    var t := After(Initial(count), es);
    DropsGrow(Step(s, Deliver(0)).arrivals, t.arrivals);
    EveryDropIsFalse(count, es);
  }

  lemma GapIsDropped(s: State)
    requires s.wire != []
    ensures var arrivals := Step(s, Deliver(0)).arrivals; arrivals != [] && Receive(arrivals).drops >= NextGap(s)
  {
    assert (s.arrivals + [s.wire[0]])[..|s.arrivals|] == s.arrivals;
  }

  // ---------- what a network may do ----------

  /** The first datagram in flight is duplicated, delivered, and lost. */
  function Doubled(s: State): seq<Event>
    requires s.wire != []
  {
    [Duplicate(0), Deliver(0), Lose(|s.wire| - 1)]
  }

  lemma DoubledRuns(count: nat, es: seq<Event>)
    requires Runs(Initial(count), es) && After(Initial(count), es).wire != []
    ensures var s := After(Initial(count), es);
            && Runs(Initial(count), es + Doubled(s))
            && After(Initial(count), es + Doubled(s))
               == s.(wire := s.wire[1..], lost := s.lost + [s.wire[0]], arrivals := s.arrivals + [s.wire[0]])
  {
    hide Runs, After;
    var s := After(Initial(count), es);
    var t := Step(s, Duplicate(0));
    var u := Step(t, Deliver(0));
    RunExtends(Initial(count), es, Duplicate(0));
    RunExtends(Initial(count), es + [Duplicate(0)], Deliver(0));
    assert u.wire == s.wire[1..] + [s.wire[0]];
    RunExtends(Initial(count), es + [Duplicate(0)] + [Deliver(0)], Lose(|s.wire| - 1));
    assert Without(u.wire, |s.wire| - 1) == s.wire[1..];
    assert es + [Duplicate(0)] + [Deliver(0)] + [Lose(|s.wire| - 1)] == es + Doubled(s);
  }

  /** Whatever is in flight may all be lost, even after a copy of it was delivered. */
  lemma {:induction false} AnythingMayBeLost(count: nat, es: seq<Event>) returns (more: seq<Event>)
    requires Runs(Initial(count), es)
    ensures es <= more && Runs(Initial(count), more) && After(Initial(count), more).wire == []
    ensures var s, t := After(Initial(count), es), After(Initial(count), more);
            t.lost == s.lost + s.wire && t.arrivals == s.arrivals + s.wire
    decreases |After(Initial(count), es).wire|
  {
    hide Runs, After, Doubled;
    more := es;
    var s := After(Initial(count), es);
    if s.wire != [] {
      DoubledRuns(count, es);
      more := AnythingMayBeLost(count, es + Doubled(s));
      assert s.wire == [s.wire[0]] + s.wire[1..];
    }
  }

  /** A number taken may go to no datagram at all. */
  lemma SendMayFail(count: nat, es: seq<Event>, w: nat)
    requires Runs(Initial(count), es) && w < |After(Initial(count), es).workers|
    requires After(Initial(count), es).workers[w].Holding?
    ensures var s, more := After(Initial(count), es), es + [FailSend(w)];
            && Runs(Initial(count), more)
            && After(Initial(count), more).lost == s.lost + [s.workers[w].seqno]
            && After(Initial(count), more).wire == s.wire
  {
    RunExtends(Initial(count), es, FailSend(w));
  }
}
