/**
 The counters as they are stored: 64 bits each, so that an addition can wrap around. They always
 hold the exact counts of `Accounting` modulo 2^64.
 */
module StoredCounters {
  import opened Common
  import opened Metrics
  import opened Accounting

  datatype Stored = Stored(total: Snap, peers: seq<Snap>)

  function Wrap(n: nat): u64 {
    n % U64_SPAN
  }

  /** One atomic addition to a counter. */
  function AddWrapping(s: Snap, f: Field, n: nat): (r: Snap)
    ensures forall g: Field :: r.Get(g) == if g == f then Wrap(s.Get(g) + n) else s.Get(g)
  {
    match f
    case BytesSent => s.(bytesSent := Wrap(s.bytesSent + n))
    case BytesRecv => s.(bytesRecv := Wrap(s.bytesRecv + n))
    case PacketsSent => s.(packetsSent := Wrap(s.packetsSent + n))
    case PacketsRecv => s.(packetsRecv := Wrap(s.packetsRecv + n))
    case PacketsDropped => s.(packetsDropped := Wrap(s.packetsDropped + n))
  }

  function Apply(c: Stored, a: Add): (r: Stored)
    ensures |r.peers| == |c.peers|
  {
    match a
    case ToTotal(f, n, _) => c.(total := AddWrapping(c.total, f, n))
    case ToPeer(peer, f, n) =>
      if peer < |c.peers| then c.(peers := c.peers[peer := AddWrapping(c.peers[peer], f, n)]) else c
  }

  /** What the counters hold after a run. */
  function StoredAfter(peers: nat, tasks: nat, env: Env, es: seq<Event>): (c: Stored)
    requires Runs(Initial(peers, tasks), env, es)
    ensures |c.peers| == peers
  {
    if es == [] then Stored(ZERO, seq(peers, i => ZERO))
    else
      var init, last := es[..|es| - 1], es[|es| - 1];
      var before := StoredAfter(peers, tasks, env, init);
      if last.Begin? then before
      else Apply(before, After(Initial(peers, tasks), env, init).tasks[last.t][0])
  }

  predicate IsWrapped(c: Snap, s: Snap) {
    forall f: Field :: c.Get(f) == Wrap(s.Get(f))
  }

  predicate AllWrapped(c: Stored, s: State) {
    && |c.peers| == |s.peers| && IsWrapped(c.total, s.total)
    && forall i :: 0 <= i < |s.peers| ==> IsWrapped(c.peers[i], s.peers[i])
  }

  lemma WrapAdd(x: nat, n: nat)
    ensures Wrap(Wrap(x) + n) == Wrap(x + n)
  {
    var q := x / U64_SPAN;
    assert x == q * U64_SPAN + Wrap(x);
    WrapMore(Wrap(x) + n, q);
  }

  lemma WrapMore(x: nat, q: nat)
    ensures Wrap(x + q * U64_SPAN) == Wrap(x)
  {
  }

  lemma AddIsWrapped(c: Snap, s: Snap, f: Field, n: nat)
    requires IsWrapped(c, s)
    ensures IsWrapped(AddWrapping(c, f, n), s.Plus(f, n))
  {
    hide Wrap;
    WrapAdd(s.Get(f), n);
  }

  lemma ZeroIsWrapped()
    ensures IsWrapped(ZERO, ZERO)
  {
  }

  lemma ApplyIsWrapped(c: Stored, s: State, env: Env, t: nat)
    requires AllWrapped(c, s) && Enabled(s, env, Advance(t))
    ensures AllWrapped(Apply(c, s.tasks[t][0]), Step(s, env, Advance(t)))
  {
    hide IsWrapped, AddWrapping;
    match s.tasks[t][0]
    case ToTotal(f, n, _) => AddIsWrapped(c.total, s.total, f, n);
    case ToPeer(peer, f, n) => AddIsWrapped(c.peers[peer], s.peers[peer], f, n);
  }

  /** In every run every stored counter is the exact count modulo 2^64. */
  lemma {:induction false} EveryRunIsWrapped(peers: nat, tasks: nat, env: Env, es: seq<Event>)
    requires Runs(Initial(peers, tasks), env, es)
    ensures AllWrapped(StoredAfter(peers, tasks, env, es), After(Initial(peers, tasks), env, es))
  {
    hide Apply, IsWrapped;
    if es == [] {
      ZeroIsWrapped();
    } else {
      var init, last := es[..|es| - 1], es[|es| - 1];
      EveryRunIsWrapped(peers, tasks, env, init);
      if last.Advance? {
        ApplyIsWrapped(StoredAfter(peers, tasks, env, init), After(Initial(peers, tasks), env, init), env, last.t);
      }
    }
  }

  predicate PeersFit(peers: seq<Snap>, f: Field) {
    forall i :: 0 <= i < |peers| ==> peers[i].Get(f) <= U64_MAX
  }

  lemma {:induction false} SumOfUnwrapped(c: seq<Snap>, s: seq<Snap>, f: Field)
    requires |c| == |s| && PeersFit(s, f)
    requires forall i :: 0 <= i < |s| ==> IsWrapped(c[i], s[i])
    ensures PeerSum(c, f) == PeerSum(s, f)
  {
    hide IsWrapped;
    if s != [] {
      var n := |s| - 1;
      SumOfUnwrapped(c[..n], s[..n], f);
      FitsUnwrapped(c[n], s[n], f);
    }
  }

  lemma FitsUnwrapped(c: Snap, s: Snap, f: Field)
    requires IsWrapped(c, s) && s.Get(f) <= U64_MAX
    ensures c.Get(f) == s.Get(f)
  {
  }

  lemma {:induction false} PeersWithinSum(peers: seq<Snap>, f: Field)
    requires PeerSum(peers, f) <= U64_MAX
    ensures PeersFit(peers, f)
  {
    if peers != [] {
      PeersWithinSum(peers[..|peers| - 1], f);
    }
  }

  /**
   As long as what the operations of a run bring fits 64 bits, the stored total covers the stored
   counters of the peers at every step.
   */
  lemma StoredTotalCoversPeers(peers: nat, tasks: nat, env: Env, es: seq<Event>, f: Field)
    requires Runs(Initial(peers, tasks), env, es) && Brought(peers, env, es, false, f) <= U64_MAX
    ensures var c := StoredAfter(peers, tasks, env, es);
            PeerSum(c.peers, f) <= c.total.Get(f) <= Brought(peers, env, es, false, f)
  {
    hide Runs, After, StoredAfter, Brought, IsWrapped;
    TotalCoversPeers(peers, tasks, env, es, f);
    EveryRunIsWrapped(peers, tasks, env, es);
    var c, s := StoredAfter(peers, tasks, env, es), After(Initial(peers, tasks), env, es);
    PeersWithinSum(s.peers, f);
    SumOfUnwrapped(c.peers, s.peers, f);
    FitsUnwrapped(c.total, s.total, f);
  }

  lemma {:induction false} SumIsWrapped(c: seq<Snap>, s: seq<Snap>, f: Field)
    requires |c| == |s| && forall i :: 0 <= i < |s| ==> IsWrapped(c[i], s[i])
    ensures PeerSum(c, f) == WrappedSum(s, f) && Wrap(PeerSum(c, f)) == Wrap(PeerSum(s, f))
  {
    hide IsWrapped, Wrap;
    if s != [] {
      var n := |s| - 1;
      SumIsWrapped(c[..n], s[..n], f);
      StoredIs(c[n], s[n], f);
      WrapSum(PeerSum(c[..n], f), PeerSum(s[..n], f), s[n].Get(f));
    }
  }

  /** Each peer's count modulo 2^64, added up. */
  function WrappedSum(peers: seq<Snap>, f: Field): nat {
    if peers == [] then 0 else WrappedSum(peers[..|peers| - 1], f) + Wrap(peers[|peers| - 1].Get(f))
  }

  lemma WrapSum(x: nat, y: nat, n: nat)
    requires Wrap(x) == Wrap(y)
    ensures Wrap(x + Wrap(n)) == Wrap(y + n)
  {
    hide Wrap;
    WrapAdd(n, x);
    WrapAdd(x, n);
    WrapAdd(y, n);
  }

  /** A wrapped sum stays at or above one of its parts exactly if the part and the rest of the other fit. */
  lemma WrapKeeps(part: nat, rest: nat)
    ensures part <= Wrap(part + rest) <==> part + Wrap(rest) <= U64_MAX
  {
    hide Wrap;
    WrapAdd(rest, part);
    WrapBelow(rest);
    WrapOnce(part, Wrap(rest));
  }

  lemma WrapBelow(n: nat)
    ensures Wrap(n) <= U64_MAX
  {
  }

  lemma WrapOnce(part: nat, rest: nat)
    requires rest <= U64_MAX
    ensures part <= Wrap(part + rest) <==> part + rest <= U64_MAX
  {
  }

  /** What the exact total has beyond the peers: traffic of no peer, and what the peers are still owed. */
  function Surplus(s: State, f: Field): int {
    s.total.Get(f) - PeerSum(s.peers, f)
  }

  /**
   At every step of every run, and for every counter, the stored total covers the stored peers
   exactly if the peers' stored counters and the wrapped surplus fit 64 bits together.
   */
  lemma CoversIffFits(peers: nat, tasks: nat, env: Env, es: seq<Event>, f: Field)
    requires Runs(Initial(peers, tasks), env, es)
    ensures var c, s := StoredAfter(peers, tasks, env, es), After(Initial(peers, tasks), env, es);
            && PeerSum(c.peers, f) == WrappedSum(s.peers, f) && Surplus(s, f) >= 0
            && (PeerSum(c.peers, f) <= c.total.Get(f) <==> WrappedSum(s.peers, f) + Wrap(Surplus(s, f)) <= U64_MAX)
  {
    hide Runs, After, StoredAfter, Brought, IsWrapped, Wrap;
    TotalCoversPeers(peers, tasks, env, es, f);
    EveryRunIsWrapped(peers, tasks, env, es);
    var c, s := StoredAfter(peers, tasks, env, es), After(Initial(peers, tasks), env, es);
    var part, rest := PeerSum(c.peers, f), Surplus(s, f);
    SumIsWrapped(c.peers, s.peers, f);
    StoredIs(c.total, s.total, f);
    WrapAdd(part, rest);
    WrapAdd(PeerSum(s.peers, f), rest);
    WrapKeeps(part, rest);
  }

  /** Between updates the stored sent and dropped totals cover the peers exactly if those fit 64 bits together. */
  lemma CoversIffPeersFit(peers: nat, tasks: nat, env: Env, es: seq<Event>, f: Field)
    requires Runs(Initial(peers, tasks), env, es) && Idle(After(Initial(peers, tasks), env, es))
    requires TargetsKnown(es) && (f == BytesSent || f == PacketsSent || f == PacketsDropped)
    ensures var c, s := StoredAfter(peers, tasks, env, es), After(Initial(peers, tasks), env, es);
            PeerSum(c.peers, f) <= c.total.Get(f) <==> WrappedSum(s.peers, f) <= U64_MAX
  {
    hide Runs, After, StoredAfter, Idle, WrappedSum, PeerSum;
    SentAndDroppedAgree(peers, tasks, env, es, f);
    CoversIffFits(peers, tasks, env, es, f);
    NothingWrapped();
  }

  /** Only peer p, if any, has a count. */
  predicate OnlyPeer(peers: seq<Snap>, f: Field, p: nat) {
    forall i :: 0 <= i < |peers| && i != p ==> peers[i].Get(f) == 0
  }

  /** With a single target the total and that peer wrap together, so the total always covers. */
  lemma SingleTargetIsCovered(peers: nat, tasks: nat, env: Env, es: seq<Event>, f: Field, p: nat)
    requires Runs(Initial(peers, tasks), env, es) && Idle(After(Initial(peers, tasks), env, es))
    requires TargetsKnown(es) && (f == BytesSent || f == PacketsSent || f == PacketsDropped)
    requires OnlyPeer(After(Initial(peers, tasks), env, es).peers, f, p)
    ensures var c := StoredAfter(peers, tasks, env, es); PeerSum(c.peers, f) <= c.total.Get(f)
  {
    hide Runs, After, StoredAfter, Idle, WrappedSum, PeerSum, OnlyPeer;
    CoversIffPeersFit(peers, tasks, env, es, f);
    OnePeerFits(After(Initial(peers, tasks), env, es).peers, f, p);
  }

  lemma NothingWrapped()
    ensures Wrap(0) == 0
  {
  }

  lemma {:induction false} OnePeerFits(peers: seq<Snap>, f: Field, p: nat)
    requires OnlyPeer(peers, f, p)
    ensures WrappedSum(peers, f) <= if p < |peers| then U64_MAX else 0
  {
    hide Wrap;
    if peers != [] {
      var n := |peers| - 1;
      OnePeerFits(peers[..n], f, p);
      WrapBelow(peers[n].Get(f));
      NothingWrapped();
    }
  }

  /** While no peer's own counter has wrapped, that is the case exactly if the total has not wrapped either. */
  lemma CoversIffUnwrapped(peers: nat, tasks: nat, env: Env, es: seq<Event>, f: Field)
    requires Runs(Initial(peers, tasks), env, es) && Idle(After(Initial(peers, tasks), env, es))
    requires TargetsKnown(es) && (f == BytesSent || f == PacketsSent || f == PacketsDropped)
    requires PeersFit(After(Initial(peers, tasks), env, es).peers, f)
    ensures var c := StoredAfter(peers, tasks, env, es);
            PeerSum(c.peers, f) <= c.total.Get(f) <==> Brought(peers, env, es, false, f) <= U64_MAX
  {
    hide Runs, After, StoredAfter, Brought, Idle;
    SentAndDroppedAgree(peers, tasks, env, es, f);
    IdleTotalsAreExact(peers, tasks, env, es, f);
    CoversIffPeersFit(peers, tasks, env, es, f);
    FittingSum(After(Initial(peers, tasks), env, es).peers, f);
  }

  lemma {:induction false} FittingSum(peers: seq<Snap>, f: Field)
    requires PeersFit(peers, f)
    ensures WrappedSum(peers, f) == PeerSum(peers, f)
  {
    if peers != [] {
      FittingSum(peers[..|peers| - 1], f);
    }
  }

  lemma StoredIs(c: Snap, s: Snap, f: Field)
    requires IsWrapped(c, s)
    ensures c.Get(f) == Wrap(s.Get(f))
  {
  }

  // ---------- a total that does not cover ----------

  const HALF: nat := U64_SPAN / 2

  /** A server that writes 2^63 bytes at a time. */
  const BULK: Env := Env(0, Tcp, HALF)

  lemma Then(es: seq<Event>, s: State, e: Event) returns (es': seq<Event>, t: State)
    requires Runs(Initial(3, 1), BULK, es) && After(Initial(3, 1), BULK, es) == s && Enabled(s, BULK, e)
    ensures Runs(Initial(3, 1), BULK, es') && After(Initial(3, 1), BULK, es') == t
    ensures t == Step(s, BULK, e) && es' == es + [e]
  {
    assert (es + [e])[..|es|] == es;
    es', t := es + [e], Step(s, BULK, e);
  }

  /** The only task makes its next addition. */
  lemma Advanced(es: seq<Event>, s: State, a: Add, rest: seq<Add>) returns (es': seq<Event>, t: State)
    requires Runs(Initial(3, 1), BULK, es) && After(Initial(3, 1), BULK, es) == s
    requires s.tasks == [[a] + rest] && (a.ToPeer? ==> a.peer < |s.peers|)
    ensures Runs(Initial(3, 1), BULK, es') && After(Initial(3, 1), BULK, es') == t
    ensures t == Applied(s, a).(tasks := [rest]) && es' == es + [Advance(0)]
  {
    hide Runs, After;
    es', t := Then(es, s, Advance(0));
    assert ([a] + rest)[1..] == rest;
    assert s.tasks[0 := rest] == [rest];
  }

  lemma WriteProgram(peer: nat)
    ensures Program(3, BULK, TcpSend(false, Some(peer))) ==
            [ToTotal(BytesSent, HALF, true)] + ([ToTotal(PacketsSent, 1, true)]
            + ([ToPeer(peer, BytesSent, HALF)] + ([ToPeer(peer, PacketsSent, 1)] + [])))
  {
  }

  /** One completed write to a peer. */
  lemma WriteTo(es: seq<Event>, s: State, peer: nat) returns (es': seq<Event>, t: State)
    requires Runs(Initial(3, 1), BULK, es) && After(Initial(3, 1), BULK, es) == s
    requires |s.peers| == 3 && peer < 3 && s.tasks == [[]]
    ensures Runs(Initial(3, 1), BULK, es') && After(Initial(3, 1), BULK, es') == t
    ensures TargetsKnown(es) ==> TargetsKnown(es')
    ensures t.tasks == [[]] && |t.peers| == 3 && t.total.Get(BytesSent) == s.total.Get(BytesSent) + HALF
    ensures forall i :: 0 <= i < 3 ==>
              t.peers[i].Get(BytesSent) == s.peers[i].Get(BytesSent) + if i == peer then HALF else 0
  {
    hide Runs, After, Program;
    WriteProgram(peer);
    var last := [ToPeer(peer, PacketsSent, 1)] + [];
    var third := [ToPeer(peer, BytesSent, HALF)] + last;
    var second := [ToTotal(PacketsSent, 1, true)] + third;
    es', t := Then(es, s, Begin(0, TcpSend(false, Some(peer))));
    assert t.tasks == [[ToTotal(BytesSent, HALF, true)] + second];
    es', t := Advanced(es', t, ToTotal(BytesSent, HALF, true), second);
    es', t := Advanced(es', t, ToTotal(PacketsSent, 1, true), third);
    es', t := Advanced(es', t, ToPeer(peer, BytesSent, HALF), last);
    es', t := Advanced(es', t, ToPeer(peer, PacketsSent, 1), []);
  }

  /** With 2^63 bytes sent to each of two peers the stored total is back at zero, and the peers are not. */
  lemma WrapLosesCover() returns (es: seq<Event>)
    ensures Runs(Initial(3, 1), BULK, es) && Idle(After(Initial(3, 1), BULK, es)) && TargetsKnown(es)
    ensures var c := StoredAfter(3, 1, BULK, es);
            c.total.Get(BytesSent) == 0 && PeerSum(c.peers, BytesSent) == U64_SPAN
  {
    hide Runs, After, StoredAfter;
    var s := Initial(3, 1);
    es := [];
    NothingYet(s);
    es, s := WriteTo(es, s, 1);
    es, s := WriteTo(es, s, 2);
    EveryRunIsWrapped(3, 1, BULK, es);
    var c := StoredAfter(3, 1, BULK, es);
    assert c.total.Get(BytesSent) == Wrap(s.total.Get(BytesSent));
    forall i | 0 <= i < 3 ensures c.peers[i].Get(BytesSent) == if i == 0 then 0 else HALF {
      StoredIs(c.peers[i], s.peers[i], BytesSent);
    }
    SumOfThree(c.peers);
  }

  lemma SumOfThree(peers: seq<Snap>)
    requires |peers| == 3
    ensures var f := BytesSent; PeerSum(peers, f) == peers[0].Get(f) + peers[1].Get(f) + peers[2].Get(f)
  {
    assert peers[..2][..1] == peers[..1] && peers[..1][..0] == [];
    assert PeerSum(peers[..1], BytesSent) == peers[0].Get(BytesSent);
    assert PeerSum(peers[..2], BytesSent) == PeerSum(peers[..1], BytesSent) + peers[1].Get(BytesSent);
  }

  lemma NothingYet(s: State)
    ensures Runs(s, BULK, []) && After(s, BULK, []) == s
  {
  }
}
