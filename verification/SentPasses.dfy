/**
 What has been sent is whole: the sent counters are those of completed TCP
 writes, or completed UDP passes, over the payload.
 */
module SentPasses {
  import opened Common
  import opened Metrics
  import opened UdpDatagram
  import opened Accounting

  /** A write of the payload, or a pass that sent all its datagrams. */
  predicate Completes(env: Env, op: Op) {
    match op
    case TcpSend(failed, _) => !failed
    case UdpPass(sent, _, _) => sent == DatagramCount(env.payload)
    case _ => false
  }

  /** The completed writes or passes of a run. */
  function Passes(env: Env, es: seq<Event>): nat {
    if es == [] then 0
    else
      var last := es[|es| - 1];
      Passes(env, es[..|es| - 1]) + if last.Begin? && Completes(env, last.op) then 1 else 0
  }

  /** The packets of one: a TCP write counts as one, a UDP pass as its datagrams. */
  function PacketsEach(env: Env): nat {
    if env.network.Tcp? then 1 else Max(DatagramCount(env.payload), 1)
  }

  lemma OpSends(peers: nat, env: Env, op: Op)
    requires ValidOp(peers, env, op)
    ensures OpAmount(peers, env, op, BytesSent) == if Completes(env, op) then env.payload else 0
    ensures OpAmount(peers, env, op, PacketsSent) == if Completes(env, op) then PacketsEach(env) else 0
  {
    hide DatagramCount, Max;
  }

  lemma {:induction false} BroughtIsPasses(peers: nat, tasks: nat, env: Env, es: seq<Event>)
    requires Runs(Initial(peers, tasks), env, es)
    ensures Brought(peers, env, es, false, BytesSent) == Passes(env, es) * env.payload
    ensures Brought(peers, env, es, false, PacketsSent) == Passes(env, es) * PacketsEach(env)
  {
    hide OpAmount, Completes, PacketsEach, ValidOp, Orderly, Balanced;
    if es != [] {
      var init, last := es[..|es| - 1], es[|es| - 1];
      BroughtIsPasses(peers, tasks, env, init);
      EveryRunBalances(peers, tasks, env, init, BytesSent);
      if last.Begin? {
        OpSends(peers, env, last.op);
        TimesOneMore(Passes(env, init), env.payload);
        TimesOneMore(Passes(env, init), PacketsEach(env));
      }
    }
  }

  /**
   What has been sent is whole passes: the bytes and packets counted so far and
   those still pending make up exactly the completed ones, whatever failed or was cancelled.
   */
  lemma SentIsWholePasses(peers: nat, tasks: nat, env: Env, es: seq<Event>)
    requires Runs(Initial(peers, tasks), env, es)
    ensures var s := After(Initial(peers, tasks), env, es);
            && s.total.bytesSent + TaskSum(s.tasks, Amount, BytesSent) == Passes(env, es) * env.payload
            && s.total.packetsSent + TaskSum(s.tasks, Amount, PacketsSent) == Passes(env, es) * PacketsEach(env)
            && (Idle(s) ==>
                  && s.total.bytesSent == Passes(env, es) * env.payload
                  && s.total.packetsSent == Passes(env, es) * PacketsEach(env))
  {
    hide Passes, PacketsEach, TaskSum, Runs, After, Brought;
    EveryRunBalances(peers, tasks, env, es, BytesSent);
    EveryRunBalances(peers, tasks, env, es, PacketsSent);
    BroughtIsPasses(peers, tasks, env, es);
    var s := After(Initial(peers, tasks), env, es);
    assert s.total.Get(BytesSent) == s.total.bytesSent && s.total.Get(PacketsSent) == s.total.packetsSent;
    if Idle(s) {
      NothingPending(s.tasks, Amount, BytesSent);
      NothingPending(s.tasks, Amount, PacketsSent);
    }
  }

  /** For UDP workers the packets counted are the datagrams of the completed passes, none of them empty. */
  lemma UdpSentIsWholePasses(peers: nat, tasks: nat, env: Env, es: seq<Event>)
    requires Runs(Initial(peers, tasks), env, es) && Idle(After(Initial(peers, tasks), env, es))
    requires env.network.Udp? && env.payload > 0
    ensures var s := After(Initial(peers, tasks), env, es);
            && s.total.bytesSent == Passes(env, es) * env.payload
            && s.total.packetsSent == Passes(env, es) * DatagramCount(env.payload)
            && s.total.packetsSent <= s.total.bytesSent <= s.total.packetsSent * CHUNK
  {
    hide Passes, Runs, After, Idle;
    DatagramCountBounds(env.payload);
    SentIsWholePasses(peers, tasks, env, es);
    ScaleBounds(Passes(env, es), DatagramCount(env.payload), env.payload);
  }

  /** For TCP each completed write counts the payload and one packet. */
  lemma TcpSentIsWholeWrites(peers: nat, tasks: nat, env: Env, es: seq<Event>)
    requires Runs(Initial(peers, tasks), env, es) && Idle(After(Initial(peers, tasks), env, es)) && env.network.Tcp?
    ensures var s := After(Initial(peers, tasks), env, es);
            s.total.bytesSent == Passes(env, es) * env.payload && s.total.packetsSent == Passes(env, es)
  {
    hide Passes, Runs, After, Idle;
    SentIsWholePasses(peers, tasks, env, es);
  }

  lemma ScaleBounds(passes: nat, packets: nat, len: nat)
    requires packets <= len <= packets * CHUNK
    ensures passes * packets <= passes * len <= passes * packets * CHUNK
  {
    assert passes * packets * CHUNK == passes * (packets * CHUNK);
  }
}
