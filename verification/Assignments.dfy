/**
 What each server is told to do in a test: itself, its targets, and the
 addresses of both. A pairs round gives every host at most one target; a whole
 tournament gives it exactly the targets of the mesh.
 */
module Assignments {
  import opened Common
  import opened RoundRobin

  /** An address is None while it is still the empty string. */
  datatype Target = Target(name: Host, id: u32, addr: Option<string>)

  datatype Assignment = Assignment(selfName: Host, selfId: u32, bind: Option<string>, targets: seq<Target>)

  /** The cast of a list index to 32 bits. */
  function Id(i: nat): u32 {
    i % U32_SPAN
  }

  function Idle(hosts: seq<Host>, i: nat): Assignment
    requires i < |hosts|
  {
    Assignment(hosts[i], Id(i), None, [])
  }

  function TargetFor(hosts: seq<Host>, j: nat): Target
    requires j < |hosts|
  {
    Target(hosts[j], Id(j), None)
  }

  // ---------- mesh ----------

  /** Every host but the i-th, among the first k. */
  function MeshTargets(hosts: seq<Host>, i: nat, k: nat): seq<Target>
    requires k <= |hosts|
  {
    if k == 0 then []
    else MeshTargets(hosts, i, k - 1) + if k - 1 != i then [TargetFor(hosts, k - 1)] else []
  }

  function AssignmentsMesh(hosts: seq<Host>): seq<Assignment> {
    seq(|hosts|, i requires 0 <= i < |hosts| => Idle(hosts, i).(targets := MeshTargets(hosts, i, |hosts|)))
  }

  lemma {:induction false} MeshTargetsAt(hosts: seq<Host>, i: nat, k: nat)
    requires k <= |hosts|
    ensures |MeshTargets(hosts, i, k)| == if i < k then k - 1 else k
    ensures forall j :: 0 <= j < |MeshTargets(hosts, i, k)| ==>
              var h := if j < i then j else j + 1;
              h < k && MeshTargets(hosts, i, k)[j] == Target(hosts[h], h % U32_SPAN, None)
  {
    if k > 0 {
      MeshTargetsAt(hosts, i, k - 1);
    }
  }

  /** In the mesh host i is itself, with the list of all the others in order as its targets. */
  lemma MeshAssignmentIs(hosts: seq<Host>, i: nat)
    requires i < |hosts|
    ensures |AssignmentsMesh(hosts)| == |hosts|
    ensures var a := AssignmentsMesh(hosts)[i];
            && a.selfName == hosts[i] && a.selfId == i % U32_SPAN && a.bind == None && |a.targets| == |hosts| - 1
            && forall j :: 0 <= j < |hosts| - 1 ==>
                 var h := if j < i then j else j + 1; a.targets[j] == Target(hosts[h], h % U32_SPAN, None)
  {
    MeshTargetsAt(hosts, i, |hosts|);
  }

  // ---------- pairs ----------

  predicate PairsFrom(hosts: seq<Host>, pairs: Round) {
    forall k :: 0 <= k < |pairs| ==> pairs[k].0 in hosts && pairs[k].1 in hosts
  }

  /** The first index of h, as `position` finds it; the length when there is none. */
  function IndexOf(hosts: seq<Host>, h: Host): (i: nat)
    ensures h in hosts ==> i < |hosts| && hosts[i] == h && h !in hosts[..i]
    ensures h !in hosts ==> i == |hosts|
  {
    if hosts == [] || hosts[0] == h then 0 else 1 + IndexOf(hosts[1..], h)
  }

  /** What one pair adds to the targets of host i. */
  function Gain(hosts: seq<Host>, pair: (Host, Host), i: nat): seq<Target> {
    var ia, ib := IndexOf(hosts, pair.0), IndexOf(hosts, pair.1);
    (if ia == i then [Target(pair.1, Id(ib), None)] else []) + (if ib == i then [Target(pair.0, Id(ia), None)] else [])
  }

  function PairTargets(hosts: seq<Host>, pairs: Round, i: nat, k: nat): seq<Target>
    requires k <= |pairs|
  {
    if k == 0 then [] else PairTargets(hosts, pairs, i, k - 1) + Gain(hosts, pairs[k - 1], i)
  }

  function HostTargets(hosts: seq<Host>, pairs: Round, i: nat): seq<Target> {
    PairTargets(hosts, pairs, i, |pairs|)
  }

  function AssignmentsFor(hosts: seq<Host>, pairs: Round): seq<Assignment> {
    seq(|hosts|, i requires 0 <= i < |hosts| => Idle(hosts, i).(targets := HostTargets(hosts, pairs, i)))
  }

  function WithTarget(out: seq<Assignment>, i: nat, t: Target): seq<Assignment>
    requires i < |out|
  {
    out[i := out[i].(targets := out[i].targets + [t])]
  }

  lemma PushedPair(hosts: seq<Host>, out: seq<Assignment>, pair: (Host, Host))
    requires |out| == |hosts| && pair.0 in hosts && pair.1 in hosts
    ensures var ia, ib := IndexOf(hosts, pair.0), IndexOf(hosts, pair.1);
            var next := WithTarget(WithTarget(out, ia, Target(pair.1, Id(ib), None)), ib, Target(pair.0, Id(ia), None));
            && |next| == |out|
            && forall i :: 0 <= i < |out| ==> next[i] == out[i].(targets := out[i].targets + Gain(hosts, pair, i))
  {
    var ia, ib := IndexOf(hosts, pair.0), IndexOf(hosts, pair.1);
    var ta, tb := Target(pair.0, Id(ia), None), Target(pair.1, Id(ib), None);
    var next := WithTarget(WithTarget(out, ia, tb), ib, ta);
    forall i | 0 <= i < |out| ensures next[i] == out[i].(targets := out[i].targets + Gain(hosts, pair, i)) {
      assert next[i].targets == out[i].targets + Gain(hosts, pair, i);
    }
  }

  /** Pushes each side of every pair onto the targets of the other. */
  method AssignmentsForPairs(hosts: seq<Host>, pairs: Round) returns (out: seq<Assignment>)
    requires PairsFrom(hosts, pairs)
    ensures out == AssignmentsFor(hosts, pairs)
  {
    out := seq(|hosts|, i requires 0 <= i < |hosts| => Idle(hosts, i));
    for k := 0 to |pairs|
      invariant |out| == |hosts|
      invariant forall i :: 0 <= i < |hosts| ==> out[i] == Idle(hosts, i).(targets := PairTargets(hosts, pairs, i, k))
    {
      var (a, b) := pairs[k];
      var ia, ib := IndexOf(hosts, a), IndexOf(hosts, b);
      PushedPair(hosts, out, pairs[k]);
      out := WithTarget(out, ia, Target(b, Id(ib), None));
      out := WithTarget(out, ib, Target(a, Id(ia), None));
    }
  }

  lemma IndexOfAt(hosts: seq<Host>, x: nat)
    requires Distinct(hosts) && x < |hosts|
    ensures IndexOf(hosts, hosts[x]) == x
  {
    assert hosts[x] in hosts;
    DistinctAt(hosts, IndexOf(hosts, hosts[x]), x);
  }

  predicate Paired(pairs: Round, k: nat, a: Host, b: Host)
    requires k <= |pairs|
  {
    exists l :: 0 <= l < k && Plays(pairs[l], a, b)
  }

  lemma PairedStep(pairs: Round, k: nat, a: Host, b: Host)
    requires k <= |pairs|
    ensures Paired(pairs, k, a, b) <==> k > 0 && (Paired(pairs, k - 1, a, b) || Plays(pairs[k - 1], a, b))
  {
  }

  lemma GainIffPlays(hosts: seq<Host>, pair: (Host, Host), i: nat, j: nat)
    requires Distinct(hosts) && i < |hosts| && j < |hosts|
    ensures TargetFor(hosts, j) in Gain(hosts, pair, i) <==> Plays(pair, hosts[i], hosts[j])
  {
    IndexOfAt(hosts, i);
    IndexOfAt(hosts, j);
    var ia, ib := IndexOf(hosts, pair.0), IndexOf(hosts, pair.1);
    var ta, tb := Target(pair.0, Id(ia), None), Target(pair.1, Id(ib), None);
    assert TargetFor(hosts, j) == ta <==> ia == j;
    assert TargetFor(hosts, j) == tb <==> ib == j;
  }

  /** Host i is told to target host j exactly when some pair joins them. */
  lemma {:induction false} TargetsIffPaired(hosts: seq<Host>, pairs: Round, i: nat, j: nat, k: nat)
    requires Distinct(hosts) && k <= |pairs|
    requires i < |hosts| && j < |hosts|
    ensures TargetFor(hosts, j) in PairTargets(hosts, pairs, i, k) <==> Paired(pairs, k, hosts[i], hosts[j])
  {
    hide Gain, Paired, Plays, Distinct, TargetFor;
    PairedStep(pairs, k, hosts[i], hosts[j]);
    if k > 0 {
      TargetsIffPaired(hosts, pairs, i, j, k - 1);
      GainIffPlays(hosts, pairs[k - 1], i, j);
      var before, gain := PairTargets(hosts, pairs, i, k - 1), Gain(hosts, pairs[k - 1], i);
      assert TargetFor(hosts, j) in before + gain <==> TargetFor(hosts, j) in before || TargetFor(hosts, j) in gain;
    }
  }

  /** Traffic runs both ways: j is a target of i exactly when i is a target of j. */
  lemma RoundIsSymmetric(hosts: seq<Host>, pairs: Round, i: nat, j: nat)
    requires Distinct(hosts) && i < |hosts| && j < |hosts|
    ensures TargetFor(hosts, j) in AssignmentsFor(hosts, pairs)[i].targets
            <==> TargetFor(hosts, i) in AssignmentsFor(hosts, pairs)[j].targets
  {
    TargetsIffPaired(hosts, pairs, i, j, |pairs|);
    TargetsIffPaired(hosts, pairs, j, i, |pairs|);
    assert forall l :: 0 <= l < |pairs| ==>
        (Plays(pairs[l], hosts[i], hosts[j]) <==> Plays(pairs[l], hosts[j], hosts[i]));
  }

  // ---------- a tournament is a mesh ----------

  lemma NoGain(hosts: seq<Host>, pair: (Host, Host), i: nat)
    requires i < |hosts| && !Sits(pair, hosts[i])
    ensures Gain(hosts, pair, i) == []
  {
  }

  lemma {:induction false} UnpairedHasNoTarget(hosts: seq<Host>, pairs: Round, i: nat, k: nat)
    requires Distinct(hosts) && k <= |pairs| && i < |hosts|
    requires forall l :: 0 <= l < k ==> !Sits(pairs[l], hosts[i])
    ensures PairTargets(hosts, pairs, i, k) == []
  {
    hide Gain;
    if k > 0 {
      UnpairedHasNoTarget(hosts, pairs, i, k - 1);
      NoGain(hosts, pairs[k - 1], i);
    }
  }

  lemma GainOfPlay(hosts: seq<Host>, pair: (Host, Host), i: nat, j: nat)
    requires Distinct(hosts) && i < |hosts| && j < |hosts| && i != j && Plays(pair, hosts[i], hosts[j])
    ensures Gain(hosts, pair, i) == [TargetFor(hosts, j)]
  {
    IndexOfAt(hosts, i);
    IndexOfAt(hosts, j);
  }

  lemma {:induction false} PairedHasOneTarget(hosts: seq<Host>, pairs: Round, i: nat, j: nat, l: nat, k: nat)
    requires Distinct(hosts) && DisjointPairs(hosts, pairs) && l < k <= |pairs|
    requires i < |hosts| && j < |hosts| && i != j && Plays(pairs[l], hosts[i], hosts[j])
    ensures PairTargets(hosts, pairs, i, k) == [TargetFor(hosts, j)]
  {
    hide Gain, TargetFor;
    assert Sits(pairs[l], hosts[i]);
    if l == k - 1 {
      GainOfPlay(hosts, pairs[l], i, j);
      UnpairedHasNoTarget(hosts, pairs, i, k - 1);
    } else {
      PairedHasOneTarget(hosts, pairs, i, j, l, k - 1);
      NoGain(hosts, pairs[k - 1], i);
    }
  }

  /** The entry that entry i faces in round r. */
  function Opponent(hosts: seq<Host>, r: nat, i: nat): (o: nat)
    requires i < Size(hosts) && r < Size(hosts)
    ensures o < Size(hosts)
  {
    EntryAt(Size(hosts), r, Size(hosts) - 1 - SeatOf(Size(hosts), r, i))
  }

  lemma OpponentIff(hosts: seq<Host>, r: nat, i: nat, j: nat)
    requires i < Size(hosts) && j < Size(hosts) && i != j && r < Size(hosts) - 1
    ensures Opponent(hosts, r, i) == j <==> r == RoundOf(Size(hosts), i, j)
    ensures Opponent(hosts, r, i) != i
  {
    FaceIffRoundOf(Size(hosts), r, i, j);
    EntryAtSeatOf(Size(hosts), r, i);
    EntryAtSeatOf(Size(hosts), r, j);
  }

  /** What round r tells host i. */
  function MetTarget(hosts: seq<Host>, r: nat, i: nat): seq<Target>
    requires i < |hosts| && r < Size(hosts)
  {
    var o := Opponent(hosts, r, i);
    if o < |hosts| then [TargetFor(hosts, o)] else []
  }

  lemma RoundTargets(hosts: seq<Host>, r: nat, i: nat) returns (ts: seq<Target>)
    requires |hosts| >= 2 && Distinct(hosts) && i < |hosts| && r < Size(hosts) - 1
    ensures ts == HostTargets(hosts, RoundAt(hosts, r), i)
    ensures ts == MetTarget(hosts, r, i)
  {
    var o, round := Opponent(hosts, r, i), RoundAt(hosts, r);
    RoundsDisjoint(hosts, r);
    ActiveIff(hosts, i, r);
    if o < |hosts| {
      OpponentIff(hosts, r, i, if i == 0 then 1 else 0);
      OpponentIff(hosts, r, i, o);
      var k := MeetInRoundOf(hosts, i, o);
      PairedHasOneTarget(hosts, round, i, o, k, |round|);
    } else {
      UnpairedHasNoTarget(hosts, round, i, |round|);
    }
    ts := HostTargets(hosts, round, i);
  }

  /** Every target host i is given in the first k rounds, one after the other. */
  function TargetsOver(hosts: seq<Host>, rounds: seq<Round>, i: nat, k: nat): seq<Target>
    requires k <= |rounds|
  {
    if k == 0 then [] else TargetsOver(hosts, rounds, i, k - 1) + HostTargets(hosts, rounds[k - 1], i)
  }

  predicate DistinctIds(js: seq<nat>) {
    forall a, b :: 0 <= a < b < |js| ==> js[a] != js[b]
  }

  predicate IdsBelow(js: seq<nat>, n: nat) {
    forall a :: 0 <= a < |js| ==> js[a] < n
  }

  ghost predicate SameIds(js: seq<nat>, ks: seq<nat>) {
    forall j: nat :: j in js <==> j in ks
  }

  /** The hosts that host i faces in the first k rounds, in order. */
  function OpponentsOver(hosts: seq<Host>, i: nat, k: nat): (js: seq<nat>)
    requires i < |hosts| && k < Size(hosts)
    ensures IdsBelow(js, |hosts|)
  {
    if k == 0 then []
    else
      var o := Opponent(hosts, k - 1, i);
      OpponentsOver(hosts, i, k - 1) + if o < |hosts| then [o] else []
  }

  /** The indices other than i below k, in order. */
  function Others(i: nat, k: nat): (js: seq<nat>)
    ensures IdsBelow(js, k)
  {
    if k == 0 then [] else Others(i, k - 1) + if k - 1 != i then [k - 1] else []
  }

  lemma {:induction false} OthersIff(i: nat, k: nat, j: nat)
    ensures j in Others(i, k) <==> j < k && j != i
    ensures DistinctIds(Others(i, k))
  {
    if k > 0 {
      OthersIff(i, k - 1, j);
    }
  }

  /** After k rounds host i has met exactly the hosts whose round with i is below k. */
  lemma {:induction false} OpponentsMet(hosts: seq<Host>, i: nat, k: nat, j: nat)
    requires |hosts| >= 2 && i < |hosts| && k < Size(hosts)
    ensures j in OpponentsOver(hosts, i, k) <==> j < |hosts| && j != i && RoundOf(Size(hosts), i, j) < k
  {
    hide Opponent, RoundOf;
    if k > 0 {
      OpponentsMet(hosts, i, k - 1, j);
      OpponentIff(hosts, k - 1, i, if i == 0 then 1 else 0);
      if j < |hosts| && j != i {
        OpponentIff(hosts, k - 1, i, j);
      }
    }
  }

  /** Nobody is met twice. */
  lemma {:induction false} OpponentsDistinct(hosts: seq<Host>, i: nat, k: nat)
    requires |hosts| >= 2 && i < |hosts| && k < Size(hosts)
    ensures DistinctIds(OpponentsOver(hosts, i, k))
  {
    hide Opponent, RoundOf;
    if k > 0 {
      OpponentsDistinct(hosts, i, k - 1);
      var o := Opponent(hosts, k - 1, i);
      OpponentsMet(hosts, i, k - 1, o);
      OpponentIff(hosts, k - 1, i, if i == 0 then 1 else 0);
      OpponentIff(hosts, k - 1, i, o);
    }
  }

  lemma MeetsEveryoneElse(hosts: seq<Host>, i: nat)
    requires |hosts| >= 2 && i < |hosts|
    ensures DistinctIds(OpponentsOver(hosts, i, Size(hosts) - 1)) && DistinctIds(Others(i, |hosts|))
    ensures SameIds(OpponentsOver(hosts, i, Size(hosts) - 1), Others(i, |hosts|))
  {
    var m := Size(hosts) - 1;
    OpponentsDistinct(hosts, i, m);
    OthersIff(i, |hosts|, 0);
    forall j: nat ensures j in OpponentsOver(hosts, i, m) <==> j in Others(i, |hosts|) {
      OpponentsMet(hosts, i, m, j);
      OthersIff(i, |hosts|, j);
    }
  }

  function TargetList(hosts: seq<Host>, js: seq<nat>): (ts: seq<Target>)
    requires IdsBelow(js, |hosts|)
    ensures |ts| == |js|
    ensures forall k :: 0 <= k < |js| ==> ts[k] == TargetFor(hosts, js[k])
  {
    if js == [] then [] else TargetList(hosts, js[..|js| - 1]) + [TargetFor(hosts, js[|js| - 1])]
  }

  lemma {:induction false} TargetsOverIsOpponents(hosts: seq<Host>, rounds: seq<Round>, i: nat, k: nat)
    requires i < |hosts| && k <= |rounds| < Size(hosts)
    requires forall r :: 0 <= r < |rounds| ==> HostTargets(hosts, rounds[r], i) == MetTarget(hosts, r, i)
    ensures TargetsOver(hosts, rounds, i, k) == TargetList(hosts, OpponentsOver(hosts, i, k))
  {
    hide TargetList, HostTargets, MetTarget;
    if k > 0 {
      TargetsOverIsOpponents(hosts, rounds, i, k - 1);
      OpponentsStep(hosts, i, k);
    }
  }

  lemma OpponentsStep(hosts: seq<Host>, i: nat, k: nat)
    requires i < |hosts| && 0 < k < Size(hosts)
    ensures TargetList(hosts, OpponentsOver(hosts, i, k))
            == TargetList(hosts, OpponentsOver(hosts, i, k - 1)) + MetTarget(hosts, k - 1, i)
  {
    var o := Opponent(hosts, k - 1, i);
    if o < |hosts| {
      AppendTarget(hosts, OpponentsOver(hosts, i, k - 1), o);
    }
  }

  lemma AppendTarget(hosts: seq<Host>, js: seq<nat>, o: nat)
    requires IdsBelow(js, |hosts|) && o < |hosts|
    ensures IdsBelow(js + [o], |hosts|)
    ensures TargetList(hosts, js + [o]) == TargetList(hosts, js) + [TargetFor(hosts, o)]
  {
    assert (js + [o])[..|js|] == js;
  }

  lemma {:induction false} MeshIsEveryoneElse(hosts: seq<Host>, i: nat, k: nat)
    requires k <= |hosts|
    ensures MeshTargets(hosts, i, k) == TargetList(hosts, Others(i, k))
  {
    hide TargetList, TargetFor;
    if k > 0 {
      MeshIsEveryoneElse(hosts, i, k - 1);
      assert IdsBelow(Others(i, k - 1), |hosts|);
      AppendTarget(hosts, Others(i, k - 1), k - 1);
    }
  }

  lemma {:induction false} CountInDistinct(s: seq<Target>, x: Target)
    requires Distinct(s)
    ensures multiset(s)[x] == if x in s then 1 else 0
  {
    if s != [] {
      var init := s[..|s| - 1];
      CountInDistinct(init, x);
      assert s == init + [s[|s| - 1]];
    }
  }

  lemma ListedIff(hosts: seq<Host>, js: seq<nat>, x: Target)
    requires Distinct(hosts) && DistinctIds(js) && IdsBelow(js, |hosts|)
    ensures Distinct(TargetList(hosts, js))
    ensures x in TargetList(hosts, js) <==> exists j :: j in js && j < |hosts| && x == TargetFor(hosts, j)
  {
    var ts := TargetList(hosts, js);
    forall a, b | 0 <= a < b < |ts| ensures ts[a] != ts[b] {
      DistinctAt(hosts, js[a], js[b]);
    }
    if k :| 0 <= k < |ts| && ts[k] == x {
      assert js[k] in js;
    }
    if j :| j in js && j < |hosts| && x == TargetFor(hosts, j) {
      var k :| 0 <= k < |js| && js[k] == j;
      assert ts[k] == x;
    }
  }

  lemma SameIndicesSameTargets(hosts: seq<Host>, js: seq<nat>, ks: seq<nat>, s: seq<Target>, t: seq<Target>)
    requires Distinct(hosts) && DistinctIds(js) && DistinctIds(ks)
    requires SameIds(js, ks)
    requires IdsBelow(js, |hosts|) && IdsBelow(ks, |hosts|)
    requires s == TargetList(hosts, js) && t == TargetList(hosts, ks)
    ensures multiset(s) == multiset(t)
  {
    forall x ensures multiset(s)[x] == multiset(t)[x] {
      ListedIff(hosts, js, x);
      ListedIff(hosts, ks, x);
      CountInDistinct(s, x);
      CountInDistinct(t, x);
    }
  }

  lemma TournamentTargets(hosts: seq<Host>, i: nat)
    requires |hosts| >= 2 && Distinct(hosts) && i < |hosts|
    ensures TargetsOver(hosts, Rounds(hosts), i, |Rounds(hosts)|)
            == TargetList(hosts, OpponentsOver(hosts, i, Size(hosts) - 1))
  {
    hide Distinct, HostTargets, MetTarget, RoundAt, TargetList, OpponentsOver, TargetsOver;
    var rounds := Rounds(hosts);
    forall r | 0 <= r < |rounds| ensures HostTargets(hosts, rounds[r], i) == MetTarget(hosts, r, i) {
      var ts := RoundTargets(hosts, r, i);
    }
    TargetsOverIsOpponents(hosts, rounds, i, |rounds|);
  }

  /** Over one tournament a host is given exactly its mesh targets, each once. */
  lemma TournamentIsMesh(hosts: seq<Host>, i: nat)
    requires |hosts| >= 2 && Distinct(hosts) && i < |hosts|
    ensures multiset(TargetsOver(hosts, Rounds(hosts), i, |Rounds(hosts)|))
            == multiset(AssignmentsMesh(hosts)[i].targets)
  {
    hide TargetsOver, TargetList, OpponentsOver, Others, MeshTargets, Distinct, DistinctIds, SameIds, IdsBelow, Rounds;
    TournamentTargets(hosts, i);
    MeshIsEveryoneElse(hosts, i, |hosts|);
    MeetsEveryoneElse(hosts, i);
    SameIndicesSameTargets(
      hosts, OpponentsOver(hosts, i, Size(hosts) - 1), Others(i, |hosts|),
      TargetsOver(hosts, Rounds(hosts), i, |Rounds(hosts)|), AssignmentsMesh(hosts)[i].targets);
  }

  // ---------- addresses ----------

  predicate Resolvable(a: Assignment, n: nat) {
    a.selfId < n && forall t :: t in a.targets ==> t.id < n
  }

  function FilledTargets(ts: seq<Target>, resolved: seq<string>): (r: seq<Target>)
    requires forall t :: t in ts ==> t.id < |resolved|
  {
    seq(|ts|, k requires 0 <= k < |ts| => ts[k].(addr := Some(resolved[ts[k].id])))
  }

  function Filled(a: Assignment, resolved: seq<string>): (r: Assignment)
    requires Resolvable(a, |resolved|)
    ensures r.selfName == a.selfName && r.selfId == a.selfId && r.bind == Some(resolved[a.selfId])
    ensures |r.targets| == |a.targets|
    ensures forall k :: 0 <= k < |a.targets| ==>
              var t := a.targets[k];
              t.id < |resolved| && r.targets[k] == Target(t.name, t.id, Some(resolved[t.id]))
  {
    a.(bind := Some(resolved[a.selfId]), targets := FilledTargets(a.targets, resolved))
  }

  lemma FilledIs(a: Assignment, r: Assignment, resolved: seq<string>)
    requires Resolvable(a, |resolved|)
    requires r.selfName == a.selfName && r.selfId == a.selfId && r.bind == Some(resolved[a.selfId])
    requires |r.targets| == |a.targets|
    requires forall k :: 0 <= k < |a.targets| ==>
               a.targets[k].id < |resolved|
               && r.targets[k] == a.targets[k].(addr := Some(resolved[a.targets[k].id]))
    ensures r == Filled(a, resolved)
  {
    hide FilledTargets;
    assert r.targets == Filled(a, resolved).targets;
  }

  /** Writes the resolved addresses into every assignment, in place. */
  method FillResolved(asg: array<Assignment>, resolved: seq<string>)
    requires forall i :: 0 <= i < asg.Length ==> Resolvable(asg[i], |resolved|)
    modifies asg
    ensures forall i :: 0 <= i < asg.Length ==> asg[i] == Filled(old(asg[i]), resolved)
    ensures forall i :: 0 <= i < asg.Length ==>
              var a, r := old(asg[i]), asg[i];
              && r.selfName == a.selfName && r.selfId == a.selfId
              && a.selfId < |resolved| && r.bind == Some(resolved[a.selfId])
              && |r.targets| == |a.targets|
              && forall k :: 0 <= k < |a.targets| ==>
                   var t := a.targets[k];
                   t.id < |resolved| && r.targets[k] == Target(t.name, t.id, Some(resolved[t.id]))
  {
    hide FilledTargets;
    for i := 0 to asg.Length
      invariant forall l :: 0 <= l < i ==> asg[l] == Filled(old(asg[l]), resolved)
      invariant forall l :: i <= l < asg.Length ==> asg[l] == old(asg[l])
    {
      asg[i] := asg[i].(bind := Some(resolved[asg[i].selfId]));
      var ts := asg[i].targets;
      for k := 0 to |ts|
        invariant |ts| == |old(asg[i]).targets|
        invariant forall l :: 0 <= l < k ==>
            ts[l] == old(asg[i]).targets[l].(addr := Some(resolved[old(asg[i]).targets[l].id]))
        invariant forall l :: k <= l < |ts| ==> ts[l] == old(asg[i]).targets[l]
      {
        assert ts[k] in old(asg[i]).targets;
        ts := ts[k := ts[k].(addr := Some(resolved[ts[k].id]))];
      }
      asg[i] := asg[i].(targets := ts);
      FilledIs(old(asg[i]), asg[i], resolved);
    }
  }

  lemma GainIds(hosts: seq<Host>, pair: (Host, Host), i: nat, t: Target)
    requires pair.0 in hosts && pair.1 in hosts && |hosts| <= U32_SPAN
    requires t in Gain(hosts, pair, i)
    ensures t.id < |hosts| && t == TargetFor(hosts, t.id)
  {
    var ia, ib := IndexOf(hosts, pair.0), IndexOf(hosts, pair.1);
    assert Id(ia) == ia && Id(ib) == ib;
    assert t == Target(pair.0, ia, None) || t == Target(pair.1, ib, None);
  }

  lemma {:induction false} PairTargetIds(hosts: seq<Host>, pairs: Round, i: nat, k: nat, t: Target)
    requires PairsFrom(hosts, pairs) && k <= |pairs| && |hosts| <= U32_SPAN
    requires t in PairTargets(hosts, pairs, i, k)
    ensures t.id < |hosts| && t == TargetFor(hosts, t.id)
  {
    hide Gain, TargetFor;
    var before, gain := PairTargets(hosts, pairs, i, k - 1), Gain(hosts, pairs[k - 1], i);
    assert t in before + gain ==> t in before || t in gain;
    if t in before {
      PairTargetIds(hosts, pairs, i, k - 1, t);
    } else {
      GainIds(hosts, pairs[k - 1], i, t);
    }
  }

  lemma AllResolvable(hosts: seq<Host>, pairs: Round)
    requires PairsFrom(hosts, pairs) && |hosts| <= U32_SPAN
    ensures forall x :: 0 <= x < |hosts| ==> Resolvable(AssignmentsFor(hosts, pairs)[x], |hosts|)
  {
    forall x, u | 0 <= x < |hosts| && u in AssignmentsFor(hosts, pairs)[x].targets ensures u.id < |hosts| {
      PairTargetIds(hosts, pairs, x, |pairs|, u);
    }
  }

  /** After filling, each side of a pair sends to the address the other side binds. */
  lemma TargetsReachBinds(
    hosts: seq<Host>, pairs: Round, filled: seq<Assignment>, resolved: seq<string>, i: nat, k: nat)
    requires PairsFrom(hosts, pairs) && |resolved| == |hosts| <= U32_SPAN
    requires |filled| == |hosts|
    requires forall x :: 0 <= x < |hosts| ==>
               var a := AssignmentsFor(hosts, pairs)[x];
               Resolvable(a, |resolved|) && filled[x] == Filled(a, resolved)
    requires i < |hosts| && k < |filled[i].targets|
    ensures var t := filled[i].targets[k];
            t.id < |hosts| && t.name == filled[t.id].selfName && t.addr == filled[t.id].bind
  {
    var u := AssignmentsFor(hosts, pairs)[i].targets[k];
    assert u in AssignmentsFor(hosts, pairs)[i].targets;
    PairTargetIds(hosts, pairs, i, |pairs|, u);
  }
}
