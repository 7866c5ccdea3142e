/**
 The client's repeating schedule: tournament after tournament, one round at a
 time, until it is cancelled or a send fails. At every point the schedule is
 fair to within one round.
 */
module PairRounds {
  import opened Common
  import opened RoundRobin
  import opened Assignments

  /** How often a and b play each other among the first k pairs of a round. */
  function PlaysIn(round: Round, k: nat, a: Host, b: Host): nat
    requires k <= |round|
  {
    if k == 0 then 0 else PlaysIn(round, k - 1, a, b) + if Plays(round[k - 1], a, b) then 1 else 0
  }

  function TimesPlayed(played: seq<Round>, a: Host, b: Host): nat {
    if played == [] then 0
    else
      var last := played[|played| - 1];
      TimesPlayed(played[..|played| - 1], a, b) + PlaysIn(last, |last|, a, b)
  }

  /** The first i rounds of the tournament after t complete ones. */
  function Scheduled(rounds: seq<Round>, t: nat, i: nat): seq<Round>
    requires i <= |rounds|
    decreases t, i
  {
    if i > 0 then Scheduled(rounds, t, i - 1) + [rounds[i - 1]]
    else if t > 0 then Scheduled(rounds, t - 1, |rounds|)
    else []
  }

  lemma {:induction false} PlaysInOnce(round: Round, k: nat, l: nat, a: Host, b: Host)
    requires k <= |round| && l < |round| && Plays(round[l], a, b)
    requires forall j :: 0 <= j < |round| && Plays(round[j], a, b) ==> j == l
    ensures PlaysIn(round, k, a, b) == if l < k then 1 else 0
  {
    if k > 0 {
      PlaysInOnce(round, k - 1, l, a, b);
    }
  }

  lemma {:induction false} PlaysInNever(round: Round, k: nat, a: Host, b: Host)
    requires k <= |round|
    requires forall j :: 0 <= j < |round| ==> !Plays(round[j], a, b)
    ensures PlaysIn(round, k, a, b) == 0
  {
    if k > 0 {
      PlaysInNever(round, k - 1, a, b);
    }
  }

  /** The round in which a tournament has a and b play each other. */
  ghost function MeetingRound(hosts: seq<Host>, rounds: seq<Round>, a: Host, b: Host): (r: nat)
    requires IsTournament(hosts, rounds) && a in hosts && b in hosts && a != b
    ensures exists k :: PlaysAt(rounds, r, k, a, b)
  {
    assert MeetExactlyOnce(rounds, a, b);
    var r, k :| PlaysAt(rounds, r, k, a, b);
    r
  }

  lemma RoundPlays(hosts: seq<Host>, rounds: seq<Round>, a: Host, b: Host, r: nat)
    requires IsTournament(hosts, rounds) && a in hosts && b in hosts && a != b && r < |rounds|
    ensures PlaysIn(rounds[r], |rounds[r]|, a, b) == if r == MeetingRound(hosts, rounds, a, b) then 1 else 0
  {
    assert MeetExactlyOnce(rounds, a, b);
    var m := MeetingRound(hosts, rounds, a, b);
    var l :| PlaysAt(rounds, m, l, a, b);
    forall j | 0 <= j < |rounds[r]| && Plays(rounds[r][j], a, b) ensures r == m && j == l {
      assert PlaysAt(rounds, r, j, a, b);
    }
    if r == m {
      PlaysInOnce(rounds[r], |rounds[r]|, l, a, b);
    } else {
      PlaysInNever(rounds[r], |rounds[r]|, a, b);
    }
  }

  /** After t tournaments and i rounds a pair has played t times, and once more if its round is over. */
  lemma {:induction false} ScheduledPlays(hosts: seq<Host>, rounds: seq<Round>, t: nat, i: nat, a: Host, b: Host)
    requires IsTournament(hosts, rounds) && a in hosts && b in hosts && a != b && i <= |rounds|
    ensures TimesPlayed(Scheduled(rounds, t, i), a, b)
            == t + if MeetingRound(hosts, rounds, a, b) < i then 1 else 0
    decreases t, i
  {
    hide IsTournament, PlaysIn, MeetingRound;
    if i > 0 {
      ScheduledPlays(hosts, rounds, t, i - 1, a, b);
      RoundPlays(hosts, rounds, a, b, i - 1);
      var before := Scheduled(rounds, t, i - 1);
      assert (before + [rounds[i - 1]])[..|before|] == before;
    } else if t > 0 {
      ScheduledPlays(hosts, rounds, t - 1, |rounds|, a, b);
    }
  }

  /** No two pairs of hosts are ever more than one game apart, and none after a complete tournament. */
  lemma ScheduleIsFair(hosts: seq<Host>, t: nat, i: nat, a: Host, b: Host, c: Host, d: Host)
    requires |hosts| >= 2 && Distinct(hosts) && i < Size(hosts)
    requires a in hosts && b in hosts && a != b && c in hosts && d in hosts && c != d
    ensures var played := Scheduled(Rounds(hosts), t, i);
            && t <= TimesPlayed(played, a, b) <= t + 1
            && TimesPlayed(played, a, b) - TimesPlayed(played, c, d) <= 1
            && (i == 0 ==> TimesPlayed(played, a, b) == t)
            && (i == Size(hosts) - 1 ==> TimesPlayed(played, a, b) == t + 1)
  {
    hide IsTournament, MeetingRound, TimesPlayed, Scheduled, Rounds, Distinct;
    CircleMethodIsTournament(hosts, Rounds(hosts));
    ScheduledPlays(hosts, Rounds(hosts), t, i, a, b);
    ScheduledPlays(hosts, Rounds(hosts), t, i, c, d);
  }

  /**
   How many rounds some cancellation checks allow when m make a tournament: one check before
   each tournament, and one before each round.
   */
  function RoundsAllowed(m: nat, checks: nat): nat
    decreases checks, 0
  {
    if checks == 0 then 0 else RoundsLeft(m, m, checks - 1)
  }

  /** The same within a tournament that has some rounds left. */
  function RoundsLeft(m: nat, left: nat, checks: nat): nat
    decreases checks, 1
  {
    if checks == 0 then 0
    else if left == 0 then RoundsAllowed(m, checks)
    else 1 + RoundsLeft(m, left - 1, checks - 1)
  }

  lemma RoundsAllowedStep(m: nat, checks: nat)
    ensures RoundsAllowed(m, checks) ==
            if checks <= m + 1 then (if checks == 0 then 0 else checks - 1) else m + RoundsAllowed(m, checks - m - 1)
  {
    if checks > 0 {
      RoundsLeftIs(m, m, checks - 1);
    }
  }

  lemma DivideLess(x: nat, d: nat)
    requires d > 0
    ensures x < d ==> x / d == 0 && x % d == x
    ensures x >= d ==> x / d == (x - d) / d + 1 && x % d == (x - d) % d
  {
    if x >= d {
      var q, r := (x - d) / d, (x - d) % d;
      assert x - d == q * d + r;
      TimesOneMore(q, d);
      DivideIs(x, d, q + 1, r);
    }
  }

  lemma DivideIs(x: nat, d: nat, q: nat, r: nat)
    requires d > 0 && r < d && x == q * d + r
    ensures x / d == q && x % d == r
  {
    var q', r' := x / d, x % d;
    assert x == q' * d + r' && r' < d;
    if q' < q {
      TimesFewer(q', q, d);
    } else if q < q' {
      TimesFewer(q, q', d);
    }
  }

  function Quota(m: nat, checks: nat): int {
    m * (checks / (m + 1)) + if checks % (m + 1) == 0 then 0 else checks % (m + 1) - 1
  }

  lemma QuotaStep(m: nat, checks: nat)
    ensures checks <= m ==> Quota(m, checks) == if checks == 0 then 0 else checks - 1
    ensures checks >= m + 1 ==> Quota(m, checks) == m + Quota(m, checks - m - 1)
  {
    DivideLess(checks, m + 1);
    if checks >= m + 1 {
      TimesOneMore((checks - m - 1) / (m + 1), m);
    }
  }

  lemma {:induction false} RoundsAllowedQuota(m: nat, checks: nat)
    ensures RoundsAllowed(m, checks) == Quota(m, checks)
    decreases checks
  {
    hide RoundsAllowed, Quota;
    RoundsAllowedStep(m, checks);
    QuotaStep(m, checks);
    if checks >= m + 1 {
      RoundsAllowedStep(m, checks - m - 1);
      RoundsAllowedQuota(m, checks - m - 1);
    }
  }

  /** Every m + 1 checks allow the m rounds of a tournament, and what is left of them one round less. */
  lemma RoundsAllowedIs(m: nat, checks: nat)
    ensures var rest := checks % (m + 1);
            RoundsAllowed(m, checks) == m * (checks / (m + 1)) + if rest == 0 then 0 else rest - 1
  {
    RoundsAllowedQuota(m, checks);
  }

  lemma {:induction false} RoundsLeftIs(m: nat, left: nat, checks: nat)
    ensures RoundsLeft(m, left, checks) == if checks <= left then checks else left + RoundsAllowed(m, checks - left)
    decreases left
  {
    if checks > 0 && left > 0 {
      RoundsLeftIs(m, left - 1, checks - 1);
    }
  }

  /**
   Runs tournaments until cancelled or until a round cannot be sent. `polls` is the number of
   cancellation checks that find the token unset, `sends` the number of rounds whose Starts can all
   be written. `sent` records the assignments of each round, t and i the complete tournaments and
   the rounds of the last one that were sent.
   */
  method RunPairRounds(hosts: seq<Host>, resolved: seq<string>, polls: nat, sends: nat)
    returns (sent: seq<seq<Assignment>>, ghost played: seq<Round>, t: nat, i: nat, ok: bool)
    requires Distinct(hosts) && |resolved| == |hosts| <= U32_SPAN
    ensures (i == 0 || i < |Rounds(hosts)|) && played == Scheduled(Rounds(hosts), t, i)
    ensures |sent| == |played|
    ensures forall k :: 0 <= k < |sent| ==> RoundSent(hosts, resolved, played[k], sent[k])
    ensures var allowed := RoundsAllowed(|Rounds(hosts)|, polls);
            |sent| == (if allowed <= sends then allowed else sends) && (ok <==> allowed <= sends)
  {
    hide RoundSent, Distinct, Rounds, IsTournament;
    var rounds := RoundRobinRounds(hosts);
    var pollsLeft := polls;
    sent, played, t, i, ok := [], [], 0, 0, true;
    while pollsLeft > 0
      invariant i == 0 && played == Scheduled(rounds, t, 0) && rounds == Rounds(hosts)
      invariant |sent| == |played| <= sends
      invariant RoundsAllowed(|rounds|, polls) == |sent| + RoundsAllowed(|rounds|, pollsLeft)
      invariant forall k :: 0 <= k < |sent| ==> RoundSent(hosts, resolved, played[k], sent[k])
      decreases pollsLeft
    {
      ghost var before := pollsLeft;
      pollsLeft := pollsLeft - 1;
      while i < |rounds|
        invariant i <= |rounds| && played == Scheduled(rounds, t, i)
        invariant |sent| == |played| <= sends && pollsLeft < before
        invariant RoundsAllowed(|rounds|, polls) == |sent| + RoundsLeft(|rounds|, |rounds| - i, pollsLeft)
        invariant forall k :: 0 <= k < |sent| ==> RoundSent(hosts, resolved, played[k], sent[k])
      {
        if pollsLeft == 0 {
          return;
        }
        pollsLeft := pollsLeft - 1;
        var asg := StartsOfRound(hosts, rounds, i, resolved);
        if |sent| == sends {
          ok := false;
          return;
        }
        sent := sent + [asg];
        played := played + [rounds[i]];
        i := i + 1;
      }
      t, i := t + 1, 0;
    }
  }

  ghost predicate RoundSent(hosts: seq<Host>, resolved: seq<string>, round: Round, asg: seq<Assignment>) {
    && |asg| == |hosts|
    && forall x :: 0 <= x < |hosts| ==>
        var a := AssignmentsFor(hosts, round)[x];
        Resolvable(a, |resolved|) && asg[x] == Filled(a, resolved)
  }

  /**
   What is sent in a round: each host is told its own name, id and address, and for each host it is
   paired with that host's, and nothing else.
   */
  lemma StartsAreRight(hosts: seq<Host>, resolved: seq<string>, round: Round, asg: seq<Assignment>, x: nat)
    requires Distinct(hosts) && |resolved| == |hosts| <= U32_SPAN && PairsFrom(hosts, round)
    requires RoundSent(hosts, resolved, round, asg) && x < |hosts|
    ensures |asg| == |hosts|
    ensures asg[x].selfName == hosts[x] && asg[x].selfId == x && asg[x].bind == Some(resolved[x])
    ensures forall k :: 0 <= k < |asg[x].targets| ==>
              var t := asg[x].targets[k]; t.id < |hosts| && t == Target(hosts[t.id], t.id, Some(resolved[t.id]))
    ensures forall j :: 0 <= j < |hosts| ==>
              (Target(hosts[j], j, Some(resolved[j])) in asg[x].targets <==> Paired(round, |round|, hosts[x], hosts[j]))
  {
    hide Filled, Paired, PairTargets;
    var a, r := AssignmentsFor(hosts, round)[x], asg[x];
    assert r == Filled(a, resolved);
    forall k | 0 <= k < |r.targets|
      ensures a.targets[k].id < |hosts| && a.targets[k] == TargetFor(hosts, a.targets[k].id)
    {
      assert a.targets[k] in a.targets;
      PairTargetIds(hosts, round, x, |round|, a.targets[k]);
    }
    forall j | 0 <= j < |hosts|
      ensures Target(hosts[j], j, Some(resolved[j])) in r.targets <==> Paired(round, |round|, hosts[x], hosts[j])
    {
      TargetsIffPaired(hosts, round, x, j, |round|);
      TargetFilled(hosts, resolved, a.targets, r.targets, j);
    }
  }

  lemma TargetFilled(hosts: seq<Host>, resolved: seq<string>, ts: seq<Target>, filled: seq<Target>, j: nat)
    requires |resolved| == |hosts| <= U32_SPAN && |filled| == |ts| && j < |hosts|
    requires forall k :: 0 <= k < |ts| ==>
               ts[k].id < |hosts| && ts[k] == TargetFor(hosts, ts[k].id)
               && filled[k] == Target(ts[k].name, ts[k].id, Some(resolved[ts[k].id]))
    ensures Target(hosts[j], j, Some(resolved[j])) in filled <==> TargetFor(hosts, j) in ts
  {
    var full, bare := Target(hosts[j], j, Some(resolved[j])), TargetFor(hosts, j);
    if k :| 0 <= k < |filled| && filled[k] == full {
      assert ts[k] == bare;
    }
    if k :| 0 <= k < |ts| && ts[k] == bare {
      assert filled[k] == full;
    }
  }

  /** The assignments of one round, with their addresses. */
  method StartsOfRound(hosts: seq<Host>, rounds: seq<Round>, i: nat, resolved: seq<string>)
    returns (asg: seq<Assignment>)
    requires Distinct(hosts) && |resolved| == |hosts| <= U32_SPAN
    requires rounds == Rounds(hosts) && i < |rounds|
    ensures RoundSent(hosts, resolved, rounds[i], asg)
  {
    assert PairsFrom(hosts, rounds[i]) by {
      RoundsDisjoint(hosts, i);
    }
    AllResolvable(hosts, rounds[i]);
    asg := AssignmentsForPairs(hosts, rounds[i]);
    var slots := new Assignment[|asg|](x requires 0 <= x < |asg| => asg[x]);
    FillResolved(slots, resolved);
    asg := slots[..];
  }
}
