/**
 The pairs schedule: a round-robin tournament built by the circle method.

 An entry is an index into the padded host list. Entry 0 keeps seat 0; the
 others move one seat clockwise per round. `EntryAt` and `SeatOf` describe the
 circle after r rotations, `RoundOf` is the closed form of the round in which
 two entries face each other.
 */
module RoundRobin {
  import opened Common

  type Host = string
  type Round = seq<(Host, Host)>

  // ---------- what a tournament is, independently of how it is built ----------

  predicate Plays(pair: (Host, Host), a: Host, b: Host) {
    pair == (a, b) || pair == (b, a)
  }

  predicate Sits(pair: (Host, Host), h: Host) {
    pair.0 == h || pair.1 == h
  }

  predicate Active(round: Round, h: Host) {
    exists k :: 0 <= k < |round| && Sits(round[k], h)
  }

  ghost predicate DisjointPairs(hosts: seq<Host>, round: Round) {
    && (forall k :: 0 <= k < |round| ==>
          round[k].0 in hosts && round[k].1 in hosts && round[k].0 != round[k].1)
    && (forall k, l, h :: 0 <= k < |round| && 0 <= l < |round| && Sits(round[k], h) && Sits(round[l], h) ==> k == l)
  }

  predicate PlaysAt(rounds: seq<Round>, r: nat, k: nat, a: Host, b: Host) {
    r < |rounds| && k < |rounds[r]| && Plays(rounds[r][k], a, b)
  }

  predicate Bye(rounds: seq<Round>, r: nat, h: Host) {
    r < |rounds| && !Active(rounds[r], h)
  }

  ghost predicate MeetExactlyOnce(rounds: seq<Round>, a: Host, b: Host) {
    && (exists r, k :: PlaysAt(rounds, r, k, a, b))
    && (forall r, k, r', k' :: PlaysAt(rounds, r, k, a, b) && PlaysAt(rounds, r', k', a, b) ==> r == r' && k == k')
  }

  ghost predicate OneBye(rounds: seq<Round>, h: Host) {
    && (exists r :: Bye(rounds, r, h))
    && (forall r, r' :: Bye(rounds, r, h) && Bye(rounds, r', h) ==> r == r')
  }

  ghost predicate NoBye(rounds: seq<Round>, h: Host) {
    forall r :: !Bye(rounds, r, h)
  }

  /** Every host meets every other exactly once, in full rounds of disjoint pairs. */
  ghost predicate IsTournament(hosts: seq<Host>, rounds: seq<Round>) {
    && |rounds| == (if |hosts| % 2 == 0 then |hosts| - 1 else |hosts|)
    && (forall r :: 0 <= r < |rounds| ==> |rounds[r]| == |hosts| / 2 && DisjointPairs(hosts, rounds[r]))
    && (forall a, b :: a in hosts && b in hosts && a != b ==> MeetExactlyOnce(rounds, a, b))
    && (forall h :: h in hosts ==> if |hosts| % 2 == 0 then NoBye(rounds, h) else OneBye(rounds, h))
  }

  // ---------- the circle ----------

  /** The entry sitting at seat p of an n-seat circle after r rotations. */
  function EntryAt(n: nat, r: nat, p: nat): (x: nat)
    requires p < n && r < n
    ensures x < n && SeatOf(n, r, x) == p
  {
    if p == 0 then 0 else if p > r then p - r else p - r + (n - 1)
  }

  /** The seat of entry x after r rotations. */
  function SeatOf(n: nat, r: nat, x: nat): (p: nat)
    requires x < n && r < n
    ensures p < n
  {
    if x == 0 then 0 else if x + r <= n - 1 then x + r else x + r - (n - 1)
  }

  lemma EntryAtSeatOf(n: nat, r: nat, x: nat)
    requires x < n && r < n
    ensures EntryAt(n, r, SeatOf(n, r, x)) == x
  {
  }

  predicate Face(n: nat, r: nat, x: nat, y: nat)
    requires x < n && y < n && r < n
  {
    SeatOf(n, r, x) + SeatOf(n, r, y) == n - 1
  }

  /** Solves x + y + 2r = 0 modulo the odd number n - 1, for 0 <= r < n - 1. */
  function RoundOf(n: nat, x: nat, y: nat): (r: nat)
    requires n % 2 == 0 && x < n && y < n && x != y
    ensures r < n - 1
  {
    var m, s := n - 1, x + y;
    if x == 0 || y == 0 then m - s
    else if s % 2 == 0 then m - s / 2
    else if s <= m then (m - s) / 2
    else (3 * m - s) / 2
  }

  /** The condition x + y + 2r = 0 modulo m, for the values that occur. */
  predicate SumsToMultiple(m: nat, t: nat) {
    t == m || t == 2 * m || t == 3 * m
  }

  lemma FaceIffMultiple(n: nat, r: nat, x: nat, y: nat)
    requires 0 < x < n && 0 < y < n && x != y && r < n - 1
    ensures Face(n, r, x, y) <==> SumsToMultiple(n - 1, x + y + 2 * r)
  {
  }

  lemma MultipleIffRoundOf(n: nat, r: nat, x: nat, y: nat)
    requires n % 2 == 0 && 0 < x < n && 0 < y < n && x != y && r < n - 1
    ensures SumsToMultiple(n - 1, x + y + 2 * r) <==> r == RoundOf(n, x, y)
  {
    var m, s, q := n - 1, x + y, RoundOf(n, x, y);
    var g, h := m / 2, s / 2;
    assert m == 2 * g + 1;
    if s % 2 == 0 {
      assert s == 2 * h && q == m - h;
    } else if s <= m {
      assert s == 2 * h + 1 && q == g - h;
    } else {
      assert s == 2 * h + 1 && q == 3 * g + 1 - h;
    }
  }

  /** Two entries face each other in exactly one of the n - 1 rounds. */
  lemma FaceIffRoundOf(n: nat, r: nat, x: nat, y: nat)
    requires n % 2 == 0 && x < n && y < n && x != y && r < n - 1
    ensures Face(n, r, x, y) <==> r == RoundOf(n, x, y)
  {
    if x > 0 && y > 0 {
      hide RoundOf, Face;
      FaceIffMultiple(n, r, x, y);
      MultipleIffRoundOf(n, r, x, y);
    }
  }

  // ---------- the rounds the circle produces ----------

  /** The number of entries: the hosts, and an empty entry when their number is odd. */
  function Size(hosts: seq<Host>): nat {
    |hosts| + |hosts| % 2
  }

  function Entry(hosts: seq<Host>, x: nat): Option<Host> {
    if x < |hosts| then Some(hosts[x]) else None
  }

  function CircleAfter(hosts: seq<Host>, r: nat): (arr: seq<Option<Host>>)
    requires r < Size(hosts)
  {
    seq(Size(hosts), p requires 0 <= p < Size(hosts) => Entry(hosts, EntryAt(Size(hosts), r, p)))
  }

  predicate BothSeated(arr: seq<Option<Host>>, i: nat)
    requires i < |arr|
  {
    arr[i].Some? && arr[|arr| - 1 - i].Some?
  }

  /** The folds below i that hold two hosts, in order. */
  function KeptFolds(arr: seq<Option<Host>>, i: nat): (ks: seq<nat>)
    requires i <= |arr| / 2
    ensures forall k :: 0 <= k < |ks| ==> ks[k] < i && BothSeated(arr, ks[k])
  {
    if i == 0 then []
    else KeptFolds(arr, i - 1) + (if BothSeated(arr, i - 1) then [i - 1] else [])
  }

  lemma {:induction false} KeptFoldsIncrease(arr: seq<Option<Host>>, i: nat, k: nat, l: nat)
    requires i <= |arr| / 2 && k < l < |KeptFolds(arr, i)|
    ensures KeptFolds(arr, i)[k] < KeptFolds(arr, i)[l]
  {
    if l < |KeptFolds(arr, i - 1)| {
      KeptFoldsIncrease(arr, i - 1, k, l);
    }
  }

  lemma {:induction false} KeptFoldsComplete(arr: seq<Option<Host>>, i: nat, j: nat)
    requires j < i <= |arr| / 2 && BothSeated(arr, j)
    ensures j in KeptFolds(arr, i)
  {
    if j < i - 1 {
      KeptFoldsComplete(arr, i - 1, j);
    }
  }

  /** The pairs of the first i folds; a fold with the empty entry yields none. */
  function FoldPairs(arr: seq<Option<Host>>, i: nat): (round: Round)
    requires i <= |arr| / 2
  {
    if i == 0 then []
    else FoldPairs(arr, i - 1) + if BothSeated(arr, i - 1) then [PairOf(arr, i - 1)] else []
  }

  function PairOf(arr: seq<Option<Host>>, i: nat): (Host, Host)
    requires i < |arr| && BothSeated(arr, i)
  {
    (arr[i].value, arr[|arr| - 1 - i].value)
  }

  lemma {:induction false} FoldPairsAt(arr: seq<Option<Host>>, i: nat)
    requires i <= |arr| / 2
    ensures |FoldPairs(arr, i)| == |KeptFolds(arr, i)|
    ensures forall k :: 0 <= k < |FoldPairs(arr, i)| ==> FoldPairs(arr, i)[k] == PairOf(arr, KeptFolds(arr, i)[k])
  {
    if i > 0 {
      FoldPairsAt(arr, i - 1);
    }
  }

  function RoundAt(hosts: seq<Host>, r: nat): Round
    requires r < Size(hosts)
  {
    var arr := CircleAfter(hosts, r);
    FoldPairs(arr, |arr| / 2)
  }

  function Rounds(hosts: seq<Host>): (rounds: seq<Round>)
    ensures |rounds| == if |hosts| < 2 then 0 else Size(hosts) - 1
  {
    if |hosts| < 2 then []
    else seq(Size(hosts) - 1, r requires 0 <= r < Size(hosts) - 1 => RoundAt(hosts, r))
  }

  // ---------- the circle method is a tournament ----------

  /** The fold index of the k-th pair of round r. */
  function FoldOf(hosts: seq<Host>, r: nat, k: nat): (j: nat)
    requires r < Size(hosts) && k < |RoundAt(hosts, r)|
    ensures j < Size(hosts) / 2
    ensures var n := Size(hosts);
            && EntryAt(n, r, j) < |hosts| && EntryAt(n, r, n - 1 - j) < |hosts|
            && RoundAt(hosts, r)[k] == (hosts[EntryAt(n, r, j)], hosts[EntryAt(n, r, n - 1 - j)])
  {
    var arr := CircleAfter(hosts, r);
    FoldPairsAt(arr, |arr| / 2);
    var j := KeptFolds(arr, |arr| / 2)[k];
    assert BothSeated(arr, j);
    j
  }

  lemma FoldOfInjective(hosts: seq<Host>, r: nat, k: nat, l: nat)
    requires r < Size(hosts) && k < |RoundAt(hosts, r)| && l < |RoundAt(hosts, r)|
    requires FoldOf(hosts, r, k) == FoldOf(hosts, r, l)
    ensures k == l
  {
    var arr := CircleAfter(hosts, r);
    FoldPairsAt(arr, |arr| / 2);
    if k < l {
      KeptFoldsIncrease(arr, |arr| / 2, k, l);
    } else if l < k {
      KeptFoldsIncrease(arr, |arr| / 2, l, k);
    }
  }

  /** A host of entry x takes part in the k-th pair exactly when the fold is its own. */
  lemma SitsIff(hosts: seq<Host>, r: nat, k: nat, x: nat)
    requires Distinct(hosts) && x < |hosts|
    requires r < Size(hosts) && k < |RoundAt(hosts, r)|
    ensures var n := Size(hosts); var j := FoldOf(hosts, r, k);
            Sits(RoundAt(hosts, r)[k], hosts[x]) <==> SeatOf(n, r, x) == j || SeatOf(n, r, x) == n - 1 - j
  {
    hide EntryAt, SeatOf, RoundAt, FoldOf, Distinct;
    var n, j := Size(hosts), FoldOf(hosts, r, k);
    EntryAtSeatOf(n, r, x);
    DistinctAt(hosts, EntryAt(n, r, j), x);
    DistinctAt(hosts, EntryAt(n, r, n - 1 - j), x);
  }

  lemma FoldIsKept(hosts: seq<Host>, r: nat, j: nat) returns (k: nat)
    requires r < Size(hosts) && j < Size(hosts) / 2
    requires var n := Size(hosts); EntryAt(n, r, j) < |hosts| && EntryAt(n, r, n - 1 - j) < |hosts|
    ensures k < |RoundAt(hosts, r)| && FoldOf(hosts, r, k) == j
  {
    var arr := CircleAfter(hosts, r);
    FoldPairsAt(arr, |arr| / 2);
    KeptFoldsComplete(arr, |arr| / 2, j);
    var ks := KeptFolds(arr, |arr| / 2);
    k :| 0 <= k < |ks| && ks[k] == j;
  }

  lemma FacingFold(hosts: seq<Host>, r: nat, x: nat) returns (k: nat)
    requires x < |hosts| && r < Size(hosts)
    requires var n := Size(hosts); EntryAt(n, r, n - 1 - SeatOf(n, r, x)) < |hosts|
    ensures k < |RoundAt(hosts, r)|
    ensures var n := Size(hosts); var j := FoldOf(hosts, r, k);
            SeatOf(n, r, x) == j || SeatOf(n, r, x) == n - 1 - j
  {
    var n := Size(hosts);
    var p := SeatOf(n, r, x);
    EntryAtSeatOf(n, r, x);
    k := FoldIsKept(hosts, r, if p < n / 2 then p else n - 1 - p);
  }

  lemma RoundsDisjoint(hosts: seq<Host>, r: nat)
    requires Distinct(hosts) && r < Size(hosts)
    ensures DisjointPairs(hosts, RoundAt(hosts, r))
  {
    var n := Size(hosts);
    var round := RoundAt(hosts, r);
    forall k | 0 <= k < |round|
      ensures round[k].0 in hosts && round[k].1 in hosts && round[k].0 != round[k].1
    {
      var j := FoldOf(hosts, r, k);
      DistinctAt(hosts, EntryAt(n, r, j), EntryAt(n, r, n - 1 - j));
    }
    forall k, l, h | 0 <= k < |round| && 0 <= l < |round| && Sits(round[k], h) && Sits(round[l], h)
      ensures k == l
    {
      assert h in hosts;
      var x :| 0 <= x < |hosts| && hosts[x] == h;
      SitsIff(hosts, r, k, x);
      SitsIff(hosts, r, l, x);
      FoldOfInjective(hosts, r, k, l);
    }
  }

  /** Two hosts play each other in a pair exactly when that pair is the fold that joins their seats. */
  lemma PlaysIffFace(hosts: seq<Host>, r: nat, k: nat, x: nat, y: nat)
    requires Distinct(hosts) && x < |hosts| && y < |hosts| && x != y
    requires r < Size(hosts) && k < |RoundAt(hosts, r)|
    ensures Plays(RoundAt(hosts, r)[k], hosts[x], hosts[y])
            <==> Face(Size(hosts), r, x, y) && Sits(RoundAt(hosts, r)[k], hosts[x])
  {
    hide EntryAt, SeatOf, RoundAt, FoldOf, Distinct;
    var n, j := Size(hosts), FoldOf(hosts, r, k);
    var p, q := EntryAt(n, r, j), EntryAt(n, r, n - 1 - j);
    EntryAtSeatOf(n, r, x);
    EntryAtSeatOf(n, r, y);
    DistinctAt(hosts, p, x);
    DistinctAt(hosts, q, x);
    DistinctAt(hosts, p, y);
    DistinctAt(hosts, q, y);
  }

  lemma MeetInRoundOf(hosts: seq<Host>, x: nat, y: nat) returns (k: nat)
    requires Distinct(hosts) && x < |hosts| && y < |hosts| && x != y
    ensures var r := RoundOf(Size(hosts), x, y);
            k < |RoundAt(hosts, r)| && Plays(RoundAt(hosts, r)[k], hosts[x], hosts[y])
  {
    var n := Size(hosts);
    var r := RoundOf(n, x, y);
    FaceIffRoundOf(n, r, x, y);
    EntryAtSeatOf(n, r, y);
    k := FacingFold(hosts, r, x);
    SitsIff(hosts, r, k, x);
    PlaysIffFace(hosts, r, k, x, y);
  }

  lemma MeetOnce(hosts: seq<Host>, x: nat, y: nat)
    requires |hosts| >= 2 && Distinct(hosts) && x < |hosts| && y < |hosts| && x != y
    ensures MeetExactlyOnce(Rounds(hosts), hosts[x], hosts[y])
  {
    var n, rounds := Size(hosts), Rounds(hosts);
    var a, b := hosts[x], hosts[y];
    var r := RoundOf(n, x, y);
    var k := MeetInRoundOf(hosts, x, y);
    assert PlaysAt(rounds, r, k, a, b);
    RoundsDisjoint(hosts, r);
    forall r': nat, k': nat | PlaysAt(rounds, r', k', a, b) ensures r' == r && k' == k {
      PlaysIffFace(hosts, r', k', x, y);
      FaceIffRoundOf(n, r', x, y);
      assert Sits(rounds[r][k'], a) && Sits(rounds[r][k], a);
    }
  }

  lemma ActiveIff(hosts: seq<Host>, x: nat, r: nat)
    requires Distinct(hosts) && x < |hosts| && r < Size(hosts)
    ensures var n := Size(hosts);
            Active(RoundAt(hosts, r), hosts[x]) <==> EntryAt(n, r, n - 1 - SeatOf(n, r, x)) < |hosts|
  {
    var n := Size(hosts);
    var round := RoundAt(hosts, r);
    EntryAtSeatOf(n, r, x);
    if EntryAt(n, r, n - 1 - SeatOf(n, r, x)) < |hosts| {
      var k := FacingFold(hosts, r, x);
      SitsIff(hosts, r, k, x);
    }
    if k :| 0 <= k < |round| && Sits(round[k], hosts[x]) {
      SitsIff(hosts, r, k, x);
    }
  }

  /** The host of entry x sits out exactly when it faces the empty entry. */
  lemma ByeIff(hosts: seq<Host>, x: nat, r: nat)
    requires |hosts| >= 2 && Distinct(hosts) && x < |hosts| && r < Size(hosts) - 1
    ensures Bye(Rounds(hosts), r, hosts[x])
            <==> |hosts| % 2 == 1 && r == RoundOf(Size(hosts), x, |hosts|)
  {
    hide RoundAt, EntryAt, SeatOf, RoundOf, Active, Distinct;
    var n := Size(hosts);
    assert Rounds(hosts)[r] == RoundAt(hosts, r);
    ActiveIff(hosts, x, r);
    if |hosts| % 2 == 1 {
      FaceIffRoundOf(n, r, x, |hosts|);
      EntryAtSeatOf(n, r, |hosts|);
    }
  }

  /** With at most one empty seat, at most one fold is skipped. */
  lemma {:induction false} KeptCount(arr: seq<Option<Host>>, i: nat, gap: nat)
    requires |arr| % 2 == 0 && i <= |arr| / 2 && gap <= |arr|
    requires forall p :: 0 <= p < |arr| && p != gap ==> arr[p].Some?
    requires gap < |arr| ==> arr[gap] == None
    ensures var fold := if gap < |arr| / 2 then gap else |arr| - 1 - gap;
            |KeptFolds(arr, i)| == if 0 <= fold < i then i - 1 else i
  {
    if i > 0 {
      KeptCount(arr, i - 1, gap);
      var fold := if gap < |arr| / 2 then gap else |arr| - 1 - gap;
      assert BothSeated(arr, i - 1) <==> fold != i - 1;
    }
  }

  lemma RoundSize(hosts: seq<Host>, r: nat)
    requires r < Size(hosts)
    ensures |RoundAt(hosts, r)| == |hosts| / 2
  {
    var n := Size(hosts);
    var arr := CircleAfter(hosts, r);
    var gap := if |hosts| % 2 == 1 then SeatOf(n, r, |hosts|) else n;
    if |hosts| % 2 == 1 {
      EntryAtSeatOf(n, r, |hosts|);
    }
    KeptCount(arr, n / 2, gap);
    FoldPairsAt(arr, n / 2);
  }

  /** The promise of the schedule, for every list of two or more distinct hosts. */
  lemma CircleMethodIsTournament(hosts: seq<Host>, rounds: seq<Round>)
    requires |hosts| >= 2 && Distinct(hosts) && rounds == Rounds(hosts)
    ensures IsTournament(hosts, rounds)
  {
    forall r | 0 <= r < |rounds| ensures |rounds[r]| == |hosts| / 2 && DisjointPairs(hosts, rounds[r]) {
      RoundSize(hosts, r);
      RoundsDisjoint(hosts, r);
    }
    forall a, b | a in hosts && b in hosts && a != b ensures MeetExactlyOnce(rounds, a, b) {
      var x :| 0 <= x < |hosts| && hosts[x] == a;
      var y :| 0 <= y < |hosts| && hosts[y] == b;
      MeetOnce(hosts, x, y);
    }
    forall h | h in hosts ensures if |hosts| % 2 == 0 then NoBye(rounds, h) else OneBye(rounds, h) {
      var x :| 0 <= x < |hosts| && hosts[x] == h;
      forall r | 0 <= r < |rounds|
        ensures Bye(rounds, r, h) <==> |hosts| % 2 == 1 && r == RoundOf(Size(hosts), x, |hosts|)
      {
        ByeIff(hosts, x, r);
      }
      if |hosts| % 2 == 1 {
        assert Bye(rounds, RoundOf(Size(hosts), x, |hosts|), h);
      }
    }
  }

  /** The order in which the rounds of four hosts are played. */
  lemma FourHosts(a: Host, b: Host, c: Host, d: Host)
    ensures Rounds([a, b, c, d]) == [[(a, d), (b, c)], [(a, c), (d, b)], [(a, b), (c, d)]]
  {
    var hosts := [a, b, c, d];
    FourSeats(hosts, 0, [a, b, c, d]);
    FourSeats(hosts, 1, [a, d, b, c]);
    FourSeats(hosts, 2, [a, c, d, b]);
  }

  lemma FourSeats(hosts: seq<Host>, r: nat, seats: seq<Host>)
    requires |hosts| == |seats| == 4 && r < 3
    requires forall p :: 0 <= p < 4 ==> seats[p] == hosts[EntryAt(4, r, p)]
    ensures RoundAt(hosts, r) == [(seats[0], seats[3]), (seats[1], seats[2])]
  {
    var arr := CircleAfter(hosts, r);
    assert arr == [Some(seats[0]), Some(seats[1]), Some(seats[2]), Some(seats[3])];
    assert FoldPairs(arr, 0) == [];
    assert FoldPairs(arr, 1) == [(seats[0], seats[3])];
  }

  // ---------- the program ----------

  lemma CircleAtRest(hosts: seq<Host>, arr: seq<Option<Host>>)
    requires |hosts| > 0 && |arr| == Size(hosts)
    requires forall x :: 0 <= x < |arr| ==> arr[x] == Entry(hosts, x)
    ensures arr == CircleAfter(hosts, 0)
  {
  }

  ghost predicate RoundsSoFar(hosts: seq<Host>, rounds: seq<Round>, r: nat) {
    |rounds| == r < Size(hosts) && forall i :: 0 <= i < r ==> rounds[i] == RoundAt(hosts, i)
  }

  /** One clockwise turn: the last entry moves in behind entry 0; two entries have nowhere to move. */
  function Rotate(arr: seq<Option<Host>>): seq<Option<Host>>
    requires |arr| >= 2
  {
    if |arr| > 2 then arr[..|arr| - 1][..1] + [arr[|arr| - 1]] + arr[..|arr| - 1][1..] else arr
  }

  lemma RotateOnce(hosts: seq<Host>, r: nat, arr: seq<Option<Host>>)
    requires r + 1 < Size(hosts) && arr == CircleAfter(hosts, r)
    ensures Rotate(arr) == CircleAfter(hosts, r + 1)
  {
    var n, next := |arr|, CircleAfter(hosts, r + 1);
    if n > 2 {
      var turned := Rotate(arr);
      forall p | 0 <= p < n ensures turned[p] == next[p] {
        assert turned[p] == if p == 0 then arr[0] else if p == 1 then arr[n - 1] else arr[p - 1];
      }
    }
  }

  /** One round: seat i plays the seat opposite, skipping the empty entry. */
  method Fold(arr: seq<Option<Host>>) returns (pairs: Round)
    ensures pairs == FoldPairs(arr, |arr| / 2)
  {
    var n := |arr|;
    pairs := [];
    for i := 0 to n / 2
      invariant pairs == FoldPairs(arr, i)
    {
      if arr[i].Some? && arr[n - 1 - i].Some? {
        pairs := pairs + [(arr[i].value, arr[n - 1 - i].value)];
      }
    }
  }

  lemma NoRoundsYet(hosts: seq<Host>)
    requires |hosts| >= 2
    ensures RoundsSoFar(hosts, [], 0)
  {
  }

  lemma OneMoreRound(hosts: seq<Host>, rounds: seq<Round>, r: nat)
    requires r + 1 < Size(hosts) && RoundsSoFar(hosts, rounds, r)
    ensures var arr := CircleAfter(hosts, r); RoundsSoFar(hosts, rounds + [FoldPairs(arr, |arr| / 2)], r + 1)
  {
    hide CircleAfter, FoldPairs;
  }

  lemma SoFarIsAll(hosts: seq<Host>, rounds: seq<Round>)
    requires |hosts| >= 2 && RoundsSoFar(hosts, rounds, Size(hosts) - 1)
    ensures rounds == Rounds(hosts)
  {
    hide RoundAt;
  }

  /** Builds the schedule by folding a list in two and rotating it in place. */
  method RoundRobinRounds(hosts: seq<Host>) returns (rounds: seq<Round>)
    ensures |hosts| < 2 ==> rounds == []
    ensures |hosts| >= 2 && Distinct(hosts) ==> IsTournament(hosts, rounds)
    ensures rounds == Rounds(hosts)
  {
    hide CircleAfter, FoldPairs, RoundsSoFar, Rounds, IsTournament, Distinct;
    if |hosts| < 2 {
      return [];
    }
    var arr := seq(|hosts|, i requires 0 <= i < |hosts| => Some(hosts[i]));
    if |arr| % 2 == 1 {
      arr := arr + [None];
    }
    var n := |arr|;
    rounds := [];
    CircleAtRest(hosts, arr);
    NoRoundsYet(hosts);
    for r := 0 to n - 1
      invariant |arr| == n && arr == CircleAfter(hosts, r)
      invariant RoundsSoFar(hosts, rounds, r)
    {
      var pairs := Fold(arr);
      OneMoreRound(hosts, rounds, r);
      rounds := rounds + [pairs];
      RotateOnce(hosts, r, arr);
      if n > 2 {
        var last := arr[n - 1];
        arr := arr[..n - 1];
        arr := arr[..1] + [last] + arr[1..];
      }
    }
    SoFarIsAll(hosts, rounds);
    if Distinct(hosts) {
      CircleMethodIsTournament(hosts, rounds);
    }
  }
}
