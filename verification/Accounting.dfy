/**
 Traffic counters shared by all send and receive tasks.

 Every update of a task is several separate atomic additions: first to the
 total, then, when the traffic belongs to a peer, to that peer, and within each
 first bytes and then packets. The tasks interleave between any two additions.
 Counts are exact here; `StoredCounters` has the 64-bit counters that hold them.
 */
module Accounting {
  import opened Common
  import opened Metrics
  import opened UdpDatagram

  /** One atomic addition; an addition to the total knows whether a peer's will follow. */
  datatype Add =
    | ToTotal(f: Field, n: nat, attributed: bool)
    | ToPeer(peer: nat, f: Field, n: nat)

  // ---------- the updates the tasks make ----------

  /** The two additions of one update to the total; additions of zero are skipped. */
  function Totals(bf: Field, bytes: nat, pf: Field, packets: nat, attributed: bool): seq<Add> {
    (if bytes > 0 then [ToTotal(bf, bytes, attributed)] else [])
    + (if packets > 0 then [ToTotal(pf, packets, attributed)] else [])
  }

  function Peers(bf: Field, bytes: nat, pf: Field, packets: nat, peer: nat): seq<Add> {
    (if bytes > 0 then [ToPeer(peer, bf, bytes)] else []) + (if packets > 0 then [ToPeer(peer, pf, packets)] else [])
  }

  /** One update of the total, followed by the same update of the peer if there is one. */
  function Update(bf: Field, bytes: nat, pf: Field, packets: nat, peer: Option<nat>): seq<Add> {
    Totals(bf, bytes, pf, packets, peer.Some?) + if peer.Some? then Peers(bf, bytes, pf, packets, peer.value) else []
  }

  function Sent(bytes: nat, packets: nat, peer: Option<nat>): seq<Add> {
    Update(BytesSent, bytes, PacketsSent, packets, peer)
  }

  function Received(bytes: nat, packets: nat, peer: Option<nat>): seq<Add> {
    Update(BytesRecv, bytes, PacketsRecv, packets, peer)
  }

  function Dropped(n: nat, peer: Option<nat>): seq<Add> {
    Update(PacketsDropped, n, PacketsDropped, 0, peer)
  }

  datatype Network = Tcp | Udp

  /** What all tasks of a test share: the server's own id, the network, and the length of the payload. */
  datatype Env = Env(self: nat, network: Network, payload: nat)

  /**
   What a task does in one go: a TCP write of the payload, a UDP pass over it that sent some
   datagrams, or the receipt of some bytes. A failed send ends a write or a pass.
   */
  datatype Op =
    | TcpSend(failed: bool, peer: Option<nat>)
    | UdpPass(sent: nat, failed: bool, peer: Option<nat>)
    | TcpRecv(bytes: nat, peer: Option<nat>)
    | UdpRecv(bytes: nat, sender: nat, gap: nat)

  /** A datagram counts for its sender only when that is a known peer other than the receiver. */
  function KnownSender(peers: nat, self: nat, sender: nat): Option<nat> {
    if sender < peers && sender != self then Some(sender) else None
  }

  /** The bytes and packets that a send operation without a failure counts: none unless it completed. */
  function SentBy(env: Env, op: Op): (nat, nat)
    requires (op.TcpSend? || op.UdpPass?) && !op.failed
  {
    match op
    case TcpSend(_, _) => (env.payload, 1)
    case UdpPass(sent, _, _) => PassCounts(env.payload, sent)
  }

  function Program(peers: nat, env: Env, op: Op): seq<Add> {
    match op
    case TcpRecv(bytes, peer) => Received(bytes, 0, peer)
    case UdpRecv(bytes, sender, gap) =>
      var peer := KnownSender(peers, env.self, sender);
      Received(bytes, 1, peer) + if peer.Some? then Dropped(gap, peer) else []
    case _ =>
      if op.failed then Dropped(1, op.peer)
      else
        var (bytes, packets) := SentBy(env, op);
        Sent(bytes, packets, op.peer)
  }

  predicate ValidOp(peers: nat, env: Env, op: Op) {
    match op
    case TcpSend(_, peer) => env.network.Tcp? && (peer.Some? ==> peer.value < peers)
    case UdpPass(sent, failed, peer) =>
      env.network.Udp? && PassEnds(env.payload, sent, failed) && (peer.Some? ==> peer.value < peers)
    case TcpRecv(_, peer) => env.network.Tcp? && (peer.Some? ==> peer.value < peers)
    case UdpRecv(_, _, _) => env.network.Udp?
  }

  // ---------- the step system ----------

  /**
   `stray` records what was added to the total for no peer; the program does not
   keep it.
   */
  datatype State = State(total: Snap, peers: seq<Snap>, tasks: seq<seq<Add>>, stray: Snap)

  datatype Event = Begin(t: nat, op: Op) | Advance(t: nat)

  function Initial(peers: nat, tasks: nat): State {
    State(ZERO, seq(peers, i => ZERO), seq(tasks, t => []), ZERO)
  }

  predicate Enabled(s: State, env: Env, e: Event) {
    match e
    case Begin(t, op) => t < |s.tasks| && s.tasks[t] == [] && ValidOp(|s.peers|, env, op)
    case Advance(t) => t < |s.tasks| && s.tasks[t] != [] && (s.tasks[t][0].ToPeer? ==> s.tasks[t][0].peer < |s.peers|)
  }

  /** The counters after one addition. */
  function Applied(s: State, a: Add): State
    requires a.ToPeer? ==> a.peer < |s.peers|
  {
    match a
    case ToTotal(f, n, attributed) =>
      s.(total := s.total.Plus(f, n), stray := if attributed then s.stray else s.stray.Plus(f, n))
    case ToPeer(peer, f, n) => s.(peers := s.peers[peer := s.peers[peer].Plus(f, n)])
  }

  function Step(s: State, env: Env, e: Event): State
    requires Enabled(s, env, e)
  {
    match e
    case Begin(t, op) =>
      var p := Program(|s.peers|, env, op);
      s.(tasks := s.tasks[t := p])
    case Advance(t) => Applied(s, s.tasks[t][0]).(tasks := s.tasks[t := s.tasks[t][1..]])
  }

  predicate Runs(s: State, env: Env, es: seq<Event>)
    decreases es, 0
  {
    es == [] || (Runs(s, env, es[..|es| - 1]) && Enabled(After(s, env, es[..|es| - 1]), env, es[|es| - 1]))
  }

  function After(s: State, env: Env, es: seq<Event>): State
    requires Runs(s, env, es)
    decreases es, 1
  {
    if es == [] then s else Step(After(s, env, es[..|es| - 1]), env, es[|es| - 1])
  }

  // ---------- what pending additions amount to ----------

  /** What is summed up over pending additions. */
  datatype Kind = Amount | Stray | Debt | Due(peer: nat)

  /**
   Amount: what an addition brings to the total. Stray: what it brings to the
   total for no peer. Debt: what peers are owed, negative until the total has it.
   Due: what one peer is owed.
   */
  function Weight(a: Add, k: Kind, f: Field): int {
    if a.f != f then 0
    else
      match k
      case Amount => if a.ToTotal? then a.n else 0
      case Stray => if a.ToTotal? && !a.attributed then a.n else 0
      case Debt => if a.ToPeer? then a.n else if a.attributed then 0 - a.n else 0
      case Due(peer) => if a.ToPeer? && a.peer == peer then a.n else 0
  }

  function Sum(p: seq<Add>, k: Kind, f: Field): int {
    if p == [] then 0 else Sum(p[1..], k, f) + Weight(p[0], k, f)
  }

  /** No rest of the program owes a negative amount, and its peers exist. */
  predicate TotalsFirst(p: seq<Add>, peers: nat)
    decreases p
  {
    && (forall f: Field :: Sum(p, Debt, f) >= 0)
    && (p != [] ==> (p[0].ToPeer? ==> p[0].peer < peers) && TotalsFirst(p[1..], peers))
  }

  lemma {:induction false} SumConcat(p: seq<Add>, q: seq<Add>, k: Kind, f: Field)
    ensures Sum(p + q, k, f) == Sum(p, k, f) + Sum(q, k, f)
  {
    if p == [] {
      assert p + q == q;
    } else {
      SumConcat(p[1..], q, k, f);
      assert (p + q)[1..] == p[1..] + q;
    }
  }

  lemma {:induction false} TotalsFirstConcat(p: seq<Add>, q: seq<Add>, peers: nat)
    requires TotalsFirst(p, peers) && TotalsFirst(q, peers)
    ensures TotalsFirst(p + q, peers)
  {
    forall f: Field ensures Sum(p + q, Debt, f) >= 0 {
      SumConcat(p, q, Debt, f);
    }
    if p == [] {
      assert p + q == q;
    } else {
      TotalsFirstConcat(p[1..], q, peers);
      assert (p + q)[1..] == p[1..] + q;
    }
  }

  lemma {:induction false} UnattributedOwesNothing(p: seq<Add>, peers: nat)
    requires forall k :: 0 <= k < |p| ==> p[k].ToTotal? && !p[k].attributed
    ensures TotalsFirst(p, peers) && forall f: Field :: Sum(p, Debt, f) == 0
  {
    if p != [] {
      UnattributedOwesNothing(p[1..], peers);
    }
  }

  lemma {:induction false} PeersOwePositive(p: seq<Add>, peers: nat)
    requires forall k :: 0 <= k < |p| ==> p[k].ToPeer? && p[k].peer < peers
    ensures TotalsFirst(p, peers)
  {
    if p != [] {
      PeersOwePositive(p[1..], peers);
    }
  }

  lemma {:induction false} TotalsThenPeers(totals: seq<Add>, own: seq<Add>, peers: nat)
    requires forall k :: 0 <= k < |totals| ==> totals[k].ToTotal? && totals[k].attributed
    requires forall k :: 0 <= k < |own| ==> own[k].ToPeer? && own[k].peer < peers
    requires forall f: Field :: Sum(totals + own, Debt, f) >= 0
    ensures TotalsFirst(totals + own, peers)
  {
    if totals == [] {
      assert totals + own == own;
      PeersOwePositive(own, peers);
    } else {
      var all := totals + own;
      assert all[1..] == totals[1..] + own;
      forall f: Field ensures Sum(all[1..], Debt, f) >= 0 {
        assert Sum(all, Debt, f) == Sum(all[1..], Debt, f) + Weight(all[0], Debt, f);
      }
      TotalsThenPeers(totals[1..], own, peers);
    }
  }

  lemma SumOfTwo(a: Add, b: Add, k: Kind, f: Field)
    ensures Sum([a], k, f) == Weight(a, k, f) && Sum([a, b], k, f) == Weight(a, k, f) + Weight(b, k, f)
  {
    assert [a][1..] == [] && [b][1..] == [] && [a, b][1..] == [b];
    assert Sum([b], k, f) == Weight(b, k, f);
  }

  /** The sums over the two halves of an update. */
  lemma HalfSums(bf: Field, bytes: nat, pf: Field, packets: nat, attributed: bool, peer: nat, k: Kind, f: Field)
    ensures Sum(Totals(bf, bytes, pf, packets, attributed), k, f)
            == Weight(ToTotal(bf, bytes, attributed), k, f) + Weight(ToTotal(pf, packets, attributed), k, f)
    ensures Sum(Peers(bf, bytes, pf, packets, peer), k, f)
            == Weight(ToPeer(peer, bf, bytes), k, f) + Weight(ToPeer(peer, pf, packets), k, f)
  {
    var tb, tp := ToTotal(bf, bytes, attributed), ToTotal(pf, packets, attributed);
    var pb, pp := ToPeer(peer, bf, bytes), ToPeer(peer, pf, packets);
    SumOfTwo(tb, tp, k, f);
    SumOfTwo(tp, tp, k, f);
    SumOfTwo(pb, pp, k, f);
    SumOfTwo(pp, pp, k, f);
    assert [tb] + [tp] == [tb, tp] && [pb] + [pp] == [pb, pp];
    assert [tb] + [] == [tb] && [] + [tp] == [tp] && [pb] + [] == [pb] && [] + [pp] == [pp];
  }

  /** What an update brings for field f. */
  function Brings(bf: Field, bytes: nat, pf: Field, packets: nat, f: Field): nat {
    (if f == bf then bytes else 0) + if f == pf then packets else 0
  }

  /** An update brings its amounts to the total, for no peer if it has none, and settles its debts. */
  lemma UpdateSums(bf: Field, bytes: nat, pf: Field, packets: nat, peer: Option<nat>, f: Field)
    ensures var u := Update(bf, bytes, pf, packets, peer); var n := Brings(bf, bytes, pf, packets, f);
            && Sum(u, Amount, f) == n && Sum(u, Stray, f) == (if peer.None? then n else 0) && Sum(u, Debt, f) == 0
  {
    var totals := Totals(bf, bytes, pf, packets, peer.Some?);
    var id := if peer.Some? then peer.value else 0;
    var own := if peer.Some? then Peers(bf, bytes, pf, packets, id) else [];
    HalfSums(bf, bytes, pf, packets, peer.Some?, id, Amount, f);
    HalfSums(bf, bytes, pf, packets, peer.Some?, id, Stray, f);
    HalfSums(bf, bytes, pf, packets, peer.Some?, id, Debt, f);
    SumConcat(totals, own, Amount, f);
    SumConcat(totals, own, Stray, f);
    SumConcat(totals, own, Debt, f);
  }

  /** An update never owes a negative amount on the way. */
  lemma UpdateTotalsFirst(bf: Field, bytes: nat, pf: Field, packets: nat, peer: Option<nat>, peers: nat)
    requires peer.Some? ==> peer.value < peers
    ensures TotalsFirst(Update(bf, bytes, pf, packets, peer), peers)
  {
    hide TotalsFirst, Sum;
    var totals := Totals(bf, bytes, pf, packets, peer.Some?);
    if peer.None? {
      UnattributedOwesNothing(totals, peers);
      assert Update(bf, bytes, pf, packets, peer) == totals;
    } else {
      var own := Peers(bf, bytes, pf, packets, peer.value);
      forall f: Field ensures Sum(totals + own, Debt, f) >= 0 {
        UpdateSums(bf, bytes, pf, packets, peer, f);
        assert totals + own == Update(bf, bytes, pf, packets, peer);
      }
      TotalsThenPeers(totals, own, peers);
    }
  }

  lemma ProgramTotalsFirst(peers: nat, env: Env, op: Op)
    requires ValidOp(peers, env, op)
    ensures TotalsFirst(Program(peers, env, op), peers)
  {
    hide TotalsFirst, Update;
    match op
    case TcpRecv(bytes, peer) => UpdateTotalsFirst(BytesRecv, bytes, PacketsRecv, 0, peer, peers);
    case UdpRecv(bytes, sender, gap) =>
      var peer := KnownSender(peers, env.self, sender);
      UpdateTotalsFirst(BytesRecv, bytes, PacketsRecv, 1, peer, peers);
      if peer.Some? {
        UpdateTotalsFirst(PacketsDropped, gap, PacketsDropped, 0, peer, peers);
        TotalsFirstConcat(Received(bytes, 1, peer), Dropped(gap, peer), peers);
      } else {
        assert Received(bytes, 1, peer) + [] == Received(bytes, 1, peer);
      }
    case _ =>
      if op.failed {
        UpdateTotalsFirst(PacketsDropped, 1, PacketsDropped, 0, op.peer, peers);
      } else {
        var (bytes, packets) := SentBy(env, op);
        UpdateTotalsFirst(BytesSent, bytes, PacketsSent, packets, op.peer, peers);
      }
  }

  /** What one operation brings to the total. */
  function OpAmount(peers: nat, env: Env, op: Op, f: Field): nat {
    match op
    case TcpRecv(bytes, _) => Brings(BytesRecv, bytes, PacketsRecv, 0, f)
    case UdpRecv(bytes, sender, gap) =>
      Brings(BytesRecv, bytes, PacketsRecv, 1, f)
      + if sender < peers && sender != env.self then Brings(PacketsDropped, gap, PacketsDropped, 0, f) else 0
    case _ =>
      if op.failed then Brings(PacketsDropped, 1, PacketsDropped, 0, f)
      else
        var (bytes, packets) := SentBy(env, op);
        Brings(BytesSent, bytes, PacketsSent, packets, f)
  }

  /** Whether the traffic of an operation belongs to no peer. */
  predicate NoPeer(peers: nat, env: Env, op: Op) {
    match op
    case UdpRecv(_, sender, _) => sender >= peers || sender == env.self
    case _ => op.peer.None?
  }

  lemma ProgramSums(peers: nat, env: Env, op: Op, f: Field)
    ensures var p := Program(peers, env, op); var n := OpAmount(peers, env, op, f);
            && Sum(p, Amount, f) == n
            && Sum(p, Stray, f) == (if NoPeer(peers, env, op) then n else 0)
            && Sum(p, Debt, f) == 0
  {
    hide Update, Sum;
    match op
    case TcpRecv(bytes, peer) => UpdateSums(BytesRecv, bytes, PacketsRecv, 0, peer, f);
    case UdpRecv(bytes, sender, gap) =>
      var peer := KnownSender(peers, env.self, sender);
      UpdateSums(BytesRecv, bytes, PacketsRecv, 1, peer, f);
      if peer.Some? {
        UpdateSums(PacketsDropped, gap, PacketsDropped, 0, peer, f);
        SumConcat(Received(bytes, 1, peer), Dropped(gap, peer), Amount, f);
        SumConcat(Received(bytes, 1, peer), Dropped(gap, peer), Stray, f);
        SumConcat(Received(bytes, 1, peer), Dropped(gap, peer), Debt, f);
      } else {
        assert Received(bytes, 1, peer) + [] == Received(bytes, 1, peer);
      }
    case _ =>
      if op.failed {
        UpdateSums(PacketsDropped, 1, PacketsDropped, 0, op.peer, f);
      } else {
        var (bytes, packets) := SentBy(env, op);
        UpdateSums(BytesSent, bytes, PacketsSent, packets, op.peer, f);
      }
  }

  // ---------- sums ----------

  function PeerSum(peers: seq<Snap>, f: Field): nat {
    if peers == [] then 0 else PeerSum(peers[..|peers| - 1], f) + peers[|peers| - 1].Get(f)
  }

  function TaskSum(tasks: seq<seq<Add>>, k: Kind, f: Field): int {
    if tasks == [] then 0 else TaskSum(tasks[..|tasks| - 1], k, f) + Sum(tasks[|tasks| - 1], k, f)
  }

  lemma {:induction false} PeerSumUpdate(peers: seq<Snap>, i: nat, s: Snap, f: Field)
    requires i < |peers|
    ensures PeerSum(peers[i := s], f) == PeerSum(peers, f) - peers[i].Get(f) + s.Get(f)
  {
    var init := peers[..|peers| - 1];
    if i < |init| {
      PeerSumUpdate(init, i, s, f);
      assert peers[i := s][..|init|] == init[i := s];
    } else {
      assert peers[i := s][..|init|] == init;
    }
  }

  lemma {:induction false} TaskSumUpdate(tasks: seq<seq<Add>>, t: nat, p: seq<Add>, k: Kind, f: Field)
    requires t < |tasks|
    ensures TaskSum(tasks[t := p], k, f) == TaskSum(tasks, k, f) - Sum(tasks[t], k, f) + Sum(p, k, f)
  {
    hide Sum;
    var init := tasks[..|tasks| - 1];
    if t < |init| {
      TaskSumUpdate(init, t, p, k, f);
      assert tasks[t := p][..|init|] == init[t := p];
    } else {
      assert tasks[t := p][..|init|] == init;
    }
  }

  lemma {:induction false} NothingPending(tasks: seq<seq<Add>>, k: Kind, f: Field)
    requires forall t :: 0 <= t < |tasks| ==> tasks[t] == []
    ensures TaskSum(tasks, k, f) == 0
  {
    if tasks != [] {
      NothingPending(tasks[..|tasks| - 1], k, f);
    }
  }

  lemma {:induction false} NothingYet(peers: seq<Snap>, f: Field)
    requires forall i :: 0 <= i < |peers| ==> peers[i] == ZERO
    ensures PeerSum(peers, f) == 0
  {
    if peers != [] {
      NothingYet(peers[..|peers| - 1], f);
    }
  }

  lemma {:induction false} DebtNonNegative(tasks: seq<seq<Add>>, peers: nat, f: Field)
    requires forall t :: 0 <= t < |tasks| ==> TotalsFirst(tasks[t], peers)
    ensures TaskSum(tasks, Debt, f) >= 0
  {
    if tasks != [] {
      DebtNonNegative(tasks[..|tasks| - 1], peers, f);
      assert TotalsFirst(tasks[|tasks| - 1], peers);
    }
  }

  lemma {:induction false} AmountNonNegative(p: seq<Add>, f: Field)
    ensures Sum(p, Amount, f) >= 0
  {
    if p != [] {
      AmountNonNegative(p[1..], f);
    }
  }

  lemma {:induction false} PendingNonNegative(tasks: seq<seq<Add>>, f: Field)
    ensures TaskSum(tasks, Amount, f) >= 0
  {
    if tasks != [] {
      PendingNonNegative(tasks[..|tasks| - 1], f);
      AmountNonNegative(tasks[|tasks| - 1], f);
    }
  }

  // ---------- every run ----------

  predicate Orderly(s: State) {
    forall t :: 0 <= t < |s.tasks| ==> TotalsFirst(s.tasks[t], |s.peers|)
  }

  /** What the operations of a run bring to the total, all of them or those of no peer. */
  function Brought(peers: nat, env: Env, es: seq<Event>, strayOnly: bool, f: Field): nat {
    if es == [] then 0
    else
      var last := es[|es| - 1];
      Brought(peers, env, es[..|es| - 1], strayOnly, f)
      + if last.Begin? && (strayOnly ==> NoPeer(peers, env, last.op)) then OpAmount(peers, env, last.op, f) else 0
  }

  /** The total is the peers, the stray traffic and what is owed; and nothing begun is forgotten. */
  predicate Balanced(s: State, all: nat, stray: nat, f: Field) {
    && s.total.Get(f) == PeerSum(s.peers, f) + s.stray.Get(f) + TaskSum(s.tasks, Debt, f)
    && s.total.Get(f) + TaskSum(s.tasks, Amount, f) == all
    && s.stray.Get(f) + TaskSum(s.tasks, Stray, f) == stray
  }

  lemma BalancedBegin(s: State, env: Env, t: nat, op: Op, all: nat, stray: nat, f: Field)
    requires Balanced(s, all, stray, f) && Enabled(s, env, Begin(t, op))
    ensures var n := OpAmount(|s.peers|, env, op, f);
            Balanced(Step(s, env, Begin(t, op)), all + n, stray + if NoPeer(|s.peers|, env, op) then n else 0, f)
  {
    hide Program, PeerSum, TaskSum, OpAmount, NoPeer;
    var p := Program(|s.peers|, env, op);
    ProgramSums(|s.peers|, env, op, f);
    TaskSumUpdate(s.tasks, t, p, Amount, f);
    TaskSumUpdate(s.tasks, t, p, Stray, f);
    TaskSumUpdate(s.tasks, t, p, Debt, f);
  }

  lemma BalancedAdvance(s: State, env: Env, t: nat, all: nat, stray: nat, f: Field)
    requires Balanced(s, all, stray, f) && Enabled(s, env, Advance(t))
    ensures Balanced(Step(s, env, Advance(t)), all, stray, f)
  {
    hide PeerSum, TaskSum;
    var rest := s.tasks[t][1..];
    TaskSumUpdate(s.tasks, t, rest, Amount, f);
    TaskSumUpdate(s.tasks, t, rest, Stray, f);
    TaskSumUpdate(s.tasks, t, rest, Debt, f);
    match s.tasks[t][0]
    case ToTotal(g, n, attributed) =>
    case ToPeer(peer, g, n) => PeerSumUpdate(s.peers, peer, s.peers[peer].Plus(g, n), f);
  }

  lemma OrderlyStep(s: State, env: Env, e: Event)
    requires Orderly(s) && Enabled(s, env, e)
    ensures Orderly(Step(s, env, e)) && |Step(s, env, e).peers| == |s.peers|
  {
    if e.Begin? {
      ProgramTotalsFirst(|s.peers|, env, e.op);
    }
  }

  lemma {:induction false} EveryRunBalances(peers: nat, tasks: nat, env: Env, es: seq<Event>, f: Field)
    requires Runs(Initial(peers, tasks), env, es)
    ensures var s := After(Initial(peers, tasks), env, es);
            && Orderly(s) && |s.peers| == peers
            && Balanced(s, Brought(peers, env, es, false, f), Brought(peers, env, es, true, f), f)
  {
    hide Balanced, Orderly, OpAmount, NoPeer;
    if es == [] {
      InitiallyBalanced(peers, tasks, f);
    } else {
      var init, last := es[..|es| - 1], es[|es| - 1];
      var s := After(Initial(peers, tasks), env, init);
      EveryRunBalances(peers, tasks, env, init, f);
      OrderlyStep(s, env, last);
      var all, stray := Brought(peers, env, init, false, f), Brought(peers, env, init, true, f);
      match last
      case Begin(t, op) => BalancedBegin(s, env, t, op, all, stray, f);
      case Advance(t) => BalancedAdvance(s, env, t, all, stray, f);
    }
  }

  lemma InitiallyBalanced(peers: nat, tasks: nat, f: Field)
    ensures Orderly(Initial(peers, tasks)) && Balanced(Initial(peers, tasks), 0, 0, f)
  {
    var s := Initial(peers, tasks);
    NothingPending(s.tasks, Amount, f);
    NothingPending(s.tasks, Stray, f);
    NothingPending(s.tasks, Debt, f);
    NothingYet(s.peers, f);
  }

  /** At every step, for every counter, the total covers the peers and never exceeds what was begun. */
  lemma TotalCoversPeers(peers: nat, tasks: nat, env: Env, es: seq<Event>, f: Field)
    requires Runs(Initial(peers, tasks), env, es)
    ensures var s := After(Initial(peers, tasks), env, es);
            PeerSum(s.peers, f) <= s.total.Get(f) <= Brought(peers, env, es, false, f)
  {
    EveryRunBalances(peers, tasks, env, es, f);
    var s := After(Initial(peers, tasks), env, es);
    DebtNonNegative(s.tasks, |s.peers|, f);
    PendingNonNegative(s.tasks, f);
  }

  predicate Idle(s: State) {
    forall t :: 0 <= t < |s.tasks| ==> s.tasks[t] == []
  }

  /** Between updates the total exceeds the peers by exactly the traffic that belongs to none. */
  lemma IdleTotalsAreExact(peers: nat, tasks: nat, env: Env, es: seq<Event>, f: Field)
    requires Runs(Initial(peers, tasks), env, es)
    requires Idle(After(Initial(peers, tasks), env, es))
    ensures var s := After(Initial(peers, tasks), env, es);
            && s.total.Get(f) == PeerSum(s.peers, f) + Brought(peers, env, es, true, f)
            && s.total.Get(f) == Brought(peers, env, es, false, f)
  {
    EveryRunBalances(peers, tasks, env, es, f);
    var s := After(Initial(peers, tasks), env, es);
    NothingPending(s.tasks, Amount, f);
    NothingPending(s.tasks, Stray, f);
    NothingPending(s.tasks, Debt, f);
  }

  // ---------- which peer ----------

  /** Whether the traffic of an operation is a given peer's. */
  predicate Addressed(peers: nat, env: Env, op: Op, p: nat) {
    match op
    case UdpRecv(_, sender, _) => sender == p && p < peers && p != env.self
    case _ => op.peer == Some(p)
  }

  /** What the operations of a run that are addressed to a peer bring. */
  function BroughtTo(peers: nat, env: Env, es: seq<Event>, p: nat, f: Field): nat {
    if es == [] then 0
    else
      var last := es[|es| - 1];
      BroughtTo(peers, env, es[..|es| - 1], p, f)
      + if last.Begin? && Addressed(peers, env, last.op, p) then OpAmount(peers, env, last.op, f) else 0
  }

  lemma UpdateDue(bf: Field, bytes: nat, pf: Field, packets: nat, peer: Option<nat>, p: nat, f: Field)
    ensures Sum(Update(bf, bytes, pf, packets, peer), Due(p), f)
            == if peer == Some(p) then Brings(bf, bytes, pf, packets, f) else 0
  {
    var totals := Totals(bf, bytes, pf, packets, peer.Some?);
    var id := if peer.Some? then peer.value else 0;
    var own := if peer.Some? then Peers(bf, bytes, pf, packets, id) else [];
    HalfSums(bf, bytes, pf, packets, peer.Some?, id, Due(p), f);
    SumConcat(totals, own, Due(p), f);
  }

  /** The additions of an operation bring a peer just what is addressed to it. */
  lemma ProgramDue(peers: nat, env: Env, op: Op, p: nat, f: Field)
    ensures Sum(Program(peers, env, op), Due(p), f)
            == if Addressed(peers, env, op, p) then OpAmount(peers, env, op, f) else 0
  {
    hide Update, Sum;
    match op
    case TcpRecv(bytes, peer) => UpdateDue(BytesRecv, bytes, PacketsRecv, 0, peer, p, f);
    case UdpRecv(bytes, sender, gap) =>
      var peer := KnownSender(peers, env.self, sender);
      UpdateDue(BytesRecv, bytes, PacketsRecv, 1, peer, p, f);
      if peer.Some? {
        UpdateDue(PacketsDropped, gap, PacketsDropped, 0, peer, p, f);
        SumConcat(Received(bytes, 1, peer), Dropped(gap, peer), Due(p), f);
      } else {
        assert Received(bytes, 1, peer) + [] == Received(bytes, 1, peer);
      }
    case _ =>
      if op.failed {
        UpdateDue(PacketsDropped, 1, PacketsDropped, 0, op.peer, p, f);
      } else {
        var (bytes, packets) := SentBy(env, op);
        UpdateDue(BytesSent, bytes, PacketsSent, packets, op.peer, p, f);
      }
  }

  predicate Credited(s: State, p: nat, brought: nat, f: Field) {
    p < |s.peers| ==> s.peers[p].Get(f) + TaskSum(s.tasks, Due(p), f) == brought
  }

  lemma CreditedStep(s: State, env: Env, e: Event, p: nat, brought: nat, f: Field)
    requires Credited(s, p, brought, f) && Enabled(s, env, e)
    ensures var n := if e.Begin? && Addressed(|s.peers|, env, e.op, p) then OpAmount(|s.peers|, env, e.op, f) else 0;
            |Step(s, env, e).peers| == |s.peers| && Credited(Step(s, env, e), p, brought + n, f)
  {
    hide TaskSum, Program, OpAmount, Addressed;
    match e
    case Begin(t, op) =>
      ProgramDue(|s.peers|, env, op, p, f);
      TaskSumUpdate(s.tasks, t, Program(|s.peers|, env, op), Due(p), f);
    case Advance(t) => TaskSumUpdate(s.tasks, t, s.tasks[t][1..], Due(p), f);
  }

  /**
   In every run, for every peer and counter: what the peer has been credited with, and what is
   pending for it, is what the operations addressed to it brought.
   */
  lemma {:induction false} EveryPeerGetsItsOwn(peers: nat, tasks: nat, env: Env, es: seq<Event>, p: nat, f: Field)
    requires Runs(Initial(peers, tasks), env, es) && p < peers
    ensures var s := After(Initial(peers, tasks), env, es);
            && |s.peers| == peers
            && s.peers[p].Get(f) + TaskSum(s.tasks, Due(p), f) == BroughtTo(peers, env, es, p, f)
  {
    hide OpAmount, Addressed, TaskSum;
    if es == [] {
      NothingPending(Initial(peers, tasks).tasks, Due(p), f);
    } else {
      var init := es[..|es| - 1];
      EveryPeerGetsItsOwn(peers, tasks, env, init, p, f);
      CreditedStep(
        After(Initial(peers, tasks), env, init), env, es[|es| - 1], p, BroughtTo(peers, env, init, p, f), f);
    }
  }

  /** Between updates each peer has exactly what was addressed to it. */
  lemma IdlePeersAreExact(peers: nat, tasks: nat, env: Env, es: seq<Event>, p: nat, f: Field)
    requires Runs(Initial(peers, tasks), env, es) && Idle(After(Initial(peers, tasks), env, es)) && p < peers
    ensures var s := After(Initial(peers, tasks), env, es);
            |s.peers| == peers && s.peers[p].Get(f) == BroughtTo(peers, env, es, p, f)
  {
    EveryPeerGetsItsOwn(peers, tasks, env, es, p, f);
    NothingPending(After(Initial(peers, tasks), env, es).tasks, Due(p), f);
  }

  predicate TargetsKnown(es: seq<Event>) {
    forall i :: 0 <= i < |es| && es[i].Begin? && (es[i].op.TcpSend? || es[i].op.UdpPass?) ==> es[i].op.peer.Some?
  }

  /** With valid targets no sent or dropped traffic is without a peer, so those counters add up exactly. */
  lemma {:induction false} SentAndDroppedHavePeers(peers: nat, env: Env, es: seq<Event>, f: Field)
    requires TargetsKnown(es) && (f == BytesSent || f == PacketsSent || f == PacketsDropped)
    ensures Brought(peers, env, es, true, f) == 0
  {
    if es != [] {
      SentAndDroppedHavePeers(peers, env, es[..|es| - 1], f);
    }
  }

  /** Between updates the sent and dropped counters of the peers add up to the total. */
  lemma SentAndDroppedAgree(peers: nat, tasks: nat, env: Env, es: seq<Event>, f: Field)
    requires Runs(Initial(peers, tasks), env, es) && Idle(After(Initial(peers, tasks), env, es))
    requires TargetsKnown(es) && (f == BytesSent || f == PacketsSent || f == PacketsDropped)
    ensures var s := After(Initial(peers, tasks), env, es); s.total.Get(f) == PeerSum(s.peers, f)
  {
    IdleTotalsAreExact(peers, tasks, env, es, f);
    SentAndDroppedHavePeers(peers, env, es, f);
  }
}
