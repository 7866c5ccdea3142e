/**
 Metric windows over counters that other tasks keep adding to.

 The counters are laid out in the order a snapshot loads them: the five of the
 total, then the five of each peer. A snapshot loads them one at a time, with
 additions in between; a window is the field-wise saturating difference of two
 successive snapshots.
 */
module Windows {
  import opened Common
  import opened Metrics

  /** `reading` is what the current snapshot has loaded; `windows` holds the differences emitted so far. */
  datatype State = State(vals: seq<u64>, reading: seq<u64>, started: bool, first: seq<u64>, prev: seq<u64>,
                         windows: seq<seq<nat>>)

  datatype Event = Bump(i: nat, n: u64) | Load | Close

  function Initial(count: nat): State {
    State(seq(count, i => 0), [], false, [], [], [])
  }

  function SaturatingSub(a: u64, b: u64): u64 {
    if a > b then a - b else 0
  }

  function Delta(before: seq<u64>, later: seq<u64>): (delta: seq<nat>)
    requires |before| == |later|
    ensures |delta| == |later|
    ensures forall i :: 0 <= i < |later| ==> delta[i] == SaturatingSub(later[i], before[i])
  {
    seq(|later|, i requires 0 <= i < |later| => SaturatingSub(later[i], before[i]))
  }

  predicate Enabled(s: State, e: Event) {
    match e
    case Bump(i, n) => i < |s.vals|
    case Load => |s.reading| < |s.vals|
    case Close => |s.reading| == |s.vals| && (s.started ==> |s.prev| == |s.vals|)
  }

  function Step(s: State, e: Event): State
    requires Enabled(s, e)
  {
    match e
    case Bump(i, n) => s.(vals := s.vals[i := (s.vals[i] + n) % U64_SPAN])
    case Load => s.(reading := s.reading + [s.vals[|s.reading|]])
    case Close =>
      if !s.started then s.(reading := [], started := true, first := s.reading, prev := s.reading)
      else
        s.(reading := [], prev := s.reading, windows := s.windows + [Delta(s.prev, s.reading)])
  }

  predicate Runs(s: State, es: seq<Event>)
    decreases es, 0
  {
    es == [] || (Runs(s, es[..|es| - 1]) && Enabled(After(s, es[..|es| - 1]), es[|es| - 1]))
  }

  function After(s: State, es: seq<Event>): State
    requires Runs(s, es)
    decreases es, 1
  {
    if es == [] then s else Step(After(s, es[..|es| - 1]), es[|es| - 1])
  }

  /** No addition of the run takes a counter past its 64 bits. */
  predicate NeverWraps(s: State, es: seq<Event>)
    requires Runs(s, es)
  {
    es == [] ||
    (var last := es[|es| - 1];
     NeverWraps(s, es[..|es| - 1])
     && (last.Bump? ==> After(s, es[..|es| - 1]).vals[last.i] + last.n <= U64_MAX))
  }

  /** The i-th entries of all windows. */
  function Total(windows: seq<seq<nat>>, i: nat): nat {
    if windows == [] then 0
    else
      var last := windows[|windows| - 1];
      Total(windows[..|windows| - 1], i) + if i < |last| then last[i] else 0
  }

  /** Each counter is at least what was last loaded of it, and loads never fall. */
  predicate Growing(s: State, i: nat)
    requires i < |s.vals|
  {
    && |s.reading| <= |s.vals|
    && (i < |s.reading| ==> s.reading[i] <= s.vals[i])
    && (s.started ==>
          && |s.first| == |s.prev| == |s.vals|
          && s.prev[i] <= s.vals[i]
          && (i < |s.reading| ==> s.prev[i] <= s.reading[i]))
  }

  predicate Telescoped(s: State, i: nat)
    requires i < |s.vals|
  {
    && Growing(s, i)
    && (s.started ==> s.first[i] + Total(s.windows, i) == s.prev[i])
    && (!s.started ==> s.windows == [])
    && (s.windows != [] ==> |s.windows[|s.windows| - 1]| == |s.vals|)
  }

  lemma TotalAppend(windows: seq<seq<nat>>, delta: seq<nat>, i: nat)
    requires i < |delta|
    ensures Total(windows + [delta], i) == Total(windows, i) + delta[i]
  {
    assert (windows + [delta])[..|windows|] == windows;
  }

  lemma TotalNone(i: nat)
    ensures Total([], i) == 0
  {
  }

  lemma TelescopedStep(s: State, e: Event, i: nat)
    requires i < |s.vals| && Telescoped(s, i) && Enabled(s, e)
    requires e.Bump? ==> s.vals[e.i] + e.n <= U64_MAX
    ensures |Step(s, e).vals| == |s.vals| && Telescoped(Step(s, e), i)
  {
    hide Delta, Total, Step, Telescoped;
    match e
    case Bump(_, _) => TelescopedRead(s, e, i);
    case Load => TelescopedRead(s, e, i);
    case Close => TelescopedClose(s, i);
  }

  /** An addition or a load, neither of which emits a window. */
  lemma TelescopedRead(s: State, e: Event, i: nat)
    requires i < |s.vals| && Telescoped(s, i) && Enabled(s, e) && !e.Close?
    requires e.Bump? ==> s.vals[e.i] + e.n <= U64_MAX
    ensures |Step(s, e).vals| == |s.vals| && Telescoped(Step(s, e), i)
  {
    hide Delta, Total;
  }

  lemma TelescopedClose(s: State, i: nat)
    requires i < |s.vals| && Telescoped(s, i) && Enabled(s, Close)
    ensures |Step(s, Close).vals| == |s.vals| && Telescoped(Step(s, Close), i)
  {
    hide Delta, Total;
    if s.started {
      TotalAppend(s.windows, Delta(s.prev, s.reading), i);
    } else {
      TotalNone(i);
    }
  }

  lemma {:induction false} EveryRunTelescopes(count: nat, es: seq<Event>, i: nat)
    requires i < count && Runs(Initial(count), es) && NeverWraps(Initial(count), es)
    ensures var s := After(Initial(count), es); |s.vals| == count && Telescoped(s, i)
  {
    hide Telescoped;
    if es == [] {
      StartsTelescoped(count, i);
    } else {
      var init := es[..|es| - 1];
      EveryRunTelescopes(count, init, i);
      TelescopedStep(After(Initial(count), init), es[|es| - 1], i);
    }
  }

  lemma StartsTelescoped(count: nat, i: nat)
    requires i < count
    ensures Telescoped(Initial(count), i)
  {
  }

  // ---------- windows as they are sent ----------

  function FieldIndex(f: Field): nat {
    match f
    case BytesSent => 0
    case BytesRecv => 1
    case PacketsSent => 2
    case PacketsRecv => 3
    case PacketsDropped => 4
  }

  /** Counter layout: block 0 is the total, block p + 1 is peer p. */
  function SnapAt(flat: seq<nat>, block: nat): (s: Snap)
    requires 5 * block + 5 <= |flat|
    ensures forall f: Field :: s.Get(f) == flat[5 * block + FieldIndex(f)]
  {
    var b := 5 * block;
    Snap(flat[b], flat[b + 1], flat[b + 2], flat[b + 3], flat[b + 4])
  }

  function PeerSnaps(flat: seq<nat>, peers: nat): (snaps: seq<Snap>)
    requires |flat| == 5 * (peers + 1)
    ensures |snaps| == peers && forall p :: 0 <= p < peers ==> snaps[p] == SnapAt(flat, p + 1)
  {
    seq(peers, p requires 0 <= p < peers => SnapAt(flat, p + 1))
  }

  function WindowOf(server: string, names: seq<string>, durationNs: u64, delta: seq<nat>): MetricWindow
    requires |delta| == 5 * (|names| + 1)
  {
    BuildWindow(server, durationNs, SnapAt(delta, 0), PeerSnaps(delta, |names|), names)
  }

  /** What all the windows of a run report for a host, or for the total when there is no host. */
  function TotalReported(names: seq<string>, windows: seq<seq<nat>>, host: Option<string>, f: Field): nat
    requires forall w :: 0 <= w < |windows| ==> |windows[w]| == 5 * (|names| + 1)
  {
    if windows == [] then 0
    else
      var last := WindowOf("", names, 1, windows[|windows| - 1]);
      TotalReported(names, windows[..|windows| - 1], host, f)
      + (if host.Some? then Reported(last.peers, host.value) else last.total).Get(f)
  }

  lemma {:induction false} ReportedIsTotal(names: seq<string>, windows: seq<seq<nat>>, p: nat, f: Field)
    requires Distinct(names) && p < |names|
    requires forall w :: 0 <= w < |windows| ==> |windows[w]| == 5 * (|names| + 1)
    ensures TotalReported(names, windows, Some(names[p]), f) == Total(windows, 5 * (p + 1) + FieldIndex(f))
    ensures TotalReported(names, windows, None, f) == Total(windows, FieldIndex(f))
  {
    hide Distinct, SnapAt, PeerSnaps, BuildWindow, Reported;
    if windows != [] {
      var delta := windows[|windows| - 1];
      ReportedIsTotal(names, windows[..|windows| - 1], p, f);
      WindowReadsBack("", 1, SnapAt(delta, 0), PeerSnaps(delta, |names|), names, p);
      WindowCarries("", 1, SnapAt(delta, 0), PeerSnaps(delta, |names|), names);
    }
  }

  lemma {:induction false} WindowWidths(count: nat, es: seq<Event>)
    requires Runs(Initial(count), es)
    ensures var s := After(Initial(count), es);
            |s.vals| == count && forall w :: 0 <= w < |s.windows| ==> |s.windows[w]| == count
  {
    if es != [] {
      WindowWidths(count, es[..|es| - 1]);
    }
  }

  /**
   Whatever the interleaving, what the windows report for a peer and field adds
   up to the last snapshot minus the first.
   */
  lemma WindowsTelescope(names: seq<string>, es: seq<Event>, p: nat, f: Field)
    requires Distinct(names) && p < |names|
    requires var count := 5 * (|names| + 1); Runs(Initial(count), es) && NeverWraps(Initial(count), es)
    ensures var s := After(Initial(5 * (|names| + 1)), es);
            && (forall w :: 0 <= w < |s.windows| ==> |s.windows[w]| == 5 * (|names| + 1))
            && |s.vals| == 5 * (|names| + 1)
            && (s.started ==>
                  && |s.prev| == |s.first| == |s.vals|
                  && SnapAt(s.first, p + 1).Get(f) + TotalReported(names, s.windows, Some(names[p]), f)
                     == SnapAt(s.prev, p + 1).Get(f)
                  && SnapAt(s.first, 0).Get(f) + TotalReported(names, s.windows, None, f) == SnapAt(s.prev, 0).Get(f))
  {
    hide TotalReported, Total, Distinct, Runs, After, NeverWraps, SnapAt;
    var count := 5 * (|names| + 1);
    WindowWidths(count, es);
    EveryRunTelescopes(count, es, 5 * (p + 1) + FieldIndex(f));
    EveryRunTelescopes(count, es, FieldIndex(f));
    ReportedIsTotal(names, After(Initial(count), es).windows, p, f);
  }

  // ---------- without the hypothesis ----------

  /** The differences of successive loads of one counter, added up. */
  function SumOfDeltas(loads: seq<u64>): nat {
    if |loads| <= 1 then 0
    else SumOfDeltas(loads[..|loads| - 1]) + SaturatingSub(loads[|loads| - 1], loads[|loads| - 2])
  }

  predicate NeverFalls(loads: seq<u64>) {
    forall i :: 0 < i < |loads| ==> loads[i - 1] <= loads[i]
  }

  /** The differences add up to last minus first exactly when no difference clips; otherwise they add up to more. */
  lemma {:induction false} TelescopesIffNoClip(loads: seq<u64>)
    requires loads != []
    ensures loads[0] + SumOfDeltas(loads) >= loads[|loads| - 1]
    ensures loads[0] + SumOfDeltas(loads) == loads[|loads| - 1] <==> NeverFalls(loads)
  {
    if |loads| > 1 {
      var init := loads[..|loads| - 1];
      TelescopesIffNoClip(init);
      assert NeverFalls(loads) <==> NeverFalls(init) && loads[|loads| - 2] <= loads[|loads| - 1] by {
        assert forall i :: 0 <= i < |init| ==> init[i] == loads[i];
      }
    }
  }

  /** The snapshots a run has completed. */
  function Snapshots(s: State, es: seq<Event>): seq<seq<u64>>
    requires Runs(s, es)
  {
    if es == [] then []
    else
      var init := es[..|es| - 1];
      Snapshots(s, init) + if es[|es| - 1].Close? then [After(s, init).reading] else []
  }

  /** What successive snapshots loaded of counter i. */
  function Loads(snaps: seq<seq<u64>>, i: nat): (loads: seq<u64>)
    requires forall k :: 0 <= k < |snaps| ==> i < |snaps[k]|
    ensures |loads| == |snaps| && forall k :: 0 <= k < |snaps| ==> loads[k] == snaps[k][i]
  {
    seq(|snaps|, k requires 0 <= k < |snaps| => snaps[k][i])
  }

  ghost predicate FullSnapshots(snaps: seq<seq<u64>>, count: nat) {
    forall k :: 0 <= k < |snaps| ==> |snaps[k]| == count
  }

  /** The windows of a run are the differences of its snapshots, wrapped counters or not. */
  ghost predicate FromSnapshots(s: State, snaps: seq<seq<u64>>, count: nat, i: nat)
    requires i < count
  {
    && |s.vals| == count && |s.reading| <= count && FullSnapshots(snaps, count)
    && (s.started <==> snaps != []) && (!s.started ==> s.windows == [])
    && (s.started ==>
          && |s.first| == |s.prev| == count && s.first == snaps[0] && s.prev == snaps[|snaps| - 1]
          && Total(s.windows, i) == SumOfDeltas(Loads(snaps, i)))
  }

  lemma OneMoreLoad(snaps: seq<seq<u64>>, reading: seq<u64>, i: nat)
    requires snaps != [] && i < |reading| && forall k :: 0 <= k < |snaps| ==> i < |snaps[k]|
    ensures SumOfDeltas(Loads(snaps + [reading], i)) ==
            SumOfDeltas(Loads(snaps, i)) + SaturatingSub(reading[i], snaps[|snaps| - 1][i])
  {
    var loads := Loads(snaps + [reading], i);
    assert loads[..|loads| - 1] == Loads(snaps, i);
  }

  lemma CloseFromSnapshots(s: State, snaps: seq<seq<u64>>, count: nat, i: nat)
    requires i < count && FromSnapshots(s, snaps, count, i) && Enabled(s, Close)
    ensures FromSnapshots(Step(s, Close), snaps + [s.reading], count, i)
  {
    hide Delta, Total, SumOfDeltas;
    if s.started {
      TotalAppend(s.windows, Delta(s.prev, s.reading), i);
      OneMoreLoad(snaps, s.reading, i);
    } else {
      TotalNone(i);
      OneLoad(Loads([s.reading], i));
      assert snaps + [s.reading] == [s.reading];
    }
  }

  lemma OneLoad(loads: seq<u64>)
    requires |loads| == 1
    ensures SumOfDeltas(loads) == 0
  {
  }

  lemma {:induction false} EveryRunFromSnapshots(count: nat, es: seq<Event>, i: nat)
    requires i < count && Runs(Initial(count), es)
    ensures FromSnapshots(After(Initial(count), es), Snapshots(Initial(count), es), count, i)
  {
    hide Total, SumOfDeltas, Loads;
    if es != [] {
      var init, last := es[..|es| - 1], es[|es| - 1];
      EveryRunFromSnapshots(count, init, i);
      if last.Close? {
        CloseFromSnapshots(After(Initial(count), init), Snapshots(Initial(count), init), count, i);
      } else {
        assert Snapshots(Initial(count), es) == Snapshots(Initial(count), init);
      }
    }
  }

  /**
   Without any hypothesis on wrapping: what the windows of a run report of a counter is at least the
   last snapshot minus the first, and exactly that if and only if no snapshot loaded less than the one before.
   */
  lemma RunTelescopesIffNoFall(count: nat, es: seq<Event>, i: nat)
    requires i < count && Runs(Initial(count), es) && After(Initial(count), es).started
    ensures var s, snaps := After(Initial(count), es), Snapshots(Initial(count), es);
            && |s.first| == |s.prev| == count && FullSnapshots(snaps, count)
            && s.first[i] + Total(s.windows, i) >= s.prev[i]
            && (s.first[i] + Total(s.windows, i) == s.prev[i] <==> NeverFalls(Loads(snaps, i)))
  {
    hide Runs, After, Snapshots, Total, SumOfDeltas, NeverFalls;
    EveryRunFromSnapshots(count, es, i);
    TelescopesIffNoClip(Loads(Snapshots(Initial(count), es), i));
  }

  // ---------- what a counter really gained ----------

  /** What has been added to a counter up to some moment, and how often it has wrapped around. */
  datatype Mark = Mark(added: nat, wraps: nat)

  /** The marks of now, of the load in the snapshot under way, and of the loads in the first and the last one. */
  datatype Marks = Marks(now: Mark, reading: Mark, first: Mark, prev: Mark)

  function NextMarks(s: State, e: Event, m: Marks, i: nat): Marks
    requires Enabled(s, e)
  {
    match e
    case Bump(j, n) =>
      if j != i then m
      else m.(now := Mark(m.now.added + n, m.now.wraps + if s.vals[j] + n > U64_MAX then 1 else 0))
    case Load => if |s.reading| == i then m.(reading := m.now) else m
    case Close => if s.started then m.(prev := m.reading) else m.(first := m.reading, prev := m.reading)
  }

  function MarksAfter(count: nat, es: seq<Event>, i: nat): Marks
    requires Runs(Initial(count), es)
  {
    if es == [] then Marks(Mark(0, 0), Mark(0, 0), Mark(0, 0), Mark(0, 0))
    else
      var init := es[..|es| - 1];
      NextMarks(After(Initial(count), init), es[|es| - 1], MarksAfter(count, init, i), i)
  }

  predicate Holds(m: Mark, v: u64) {
    m.added == m.wraps * U64_SPAN + v
  }

  predicate NotAfter(a: Mark, b: Mark) {
    a.added <= b.added && a.wraps <= b.wraps
  }

  /** The windows of a counter never add up to more than it gained, and to just that while it has not wrapped. */
  predicate Gained(s: State, m: Marks, i: nat) {
    && m.first.added + Total(s.windows, i) <= m.prev.added
    && (m.first.added + Total(s.windows, i) == m.prev.added <==> m.first.wraps == m.prev.wraps)
  }

  predicate Marked(s: State, m: Marks, i: nat)
    requires i < |s.vals|
  {
    && |s.reading| <= |s.vals| && Holds(m.now, s.vals[i])
    && (i < |s.reading| ==> Holds(m.reading, s.reading[i]) && NotAfter(m.reading, m.now))
    && (!s.started ==> s.windows == [])
    && (s.started ==>
          && |s.first| == |s.prev| == |s.vals| && Holds(m.first, s.first[i]) && Holds(m.prev, s.prev[i])
          && NotAfter(m.first, m.prev) && NotAfter(m.prev, m.now)
          && (i < |s.reading| ==> NotAfter(m.prev, m.reading))
          && Gained(s, m, i))
  }

  lemma DeltaGain(a: Mark, b: Mark, before: u64, later: u64)
    requires Holds(a, before) && Holds(b, later) && NotAfter(a, b)
    ensures a.added + SaturatingSub(later, before) <= b.added
    ensures a.added + SaturatingSub(later, before) == b.added <==> a.wraps == b.wraps
  {
  }

  lemma MarkedRead(s: State, e: Event, m: Marks, i: nat)
    requires i < |s.vals| && Marked(s, m, i) && Enabled(s, e) && !e.Close?
    ensures |Step(s, e).vals| == |s.vals| && Marked(Step(s, e), NextMarks(s, e, m, i), i)
  {
    hide Total;
  }

  lemma MarkedClose(s: State, m: Marks, i: nat)
    requires i < |s.vals| && Marked(s, m, i) && Enabled(s, Close)
    ensures |Step(s, Close).vals| == |s.vals| && Marked(Step(s, Close), NextMarks(s, Close, m, i), i)
  {
    hide Delta, Total, Holds;
    if s.started {
      DeltaGain(m.prev, m.reading, s.prev[i], s.reading[i]);
      TotalAppend(s.windows, Delta(s.prev, s.reading), i);
    } else {
      TotalNone(i);
    }
  }

  lemma {:induction false} EveryRunMarked(count: nat, es: seq<Event>, i: nat)
    requires i < count && Runs(Initial(count), es)
    ensures var s := After(Initial(count), es); |s.vals| == count && Marked(s, MarksAfter(count, es, i), i)
  {
    hide Marked, NextMarks, Step, Enabled;
    if es == [] {
      StartsMarked(count, i);
    } else {
      var init, e := es[..|es| - 1], es[|es| - 1];
      EveryRunMarked(count, init, i);
      var s, m := After(Initial(count), init), MarksAfter(count, init, i);
      if e.Close? {
        MarkedClose(s, m, i);
      } else {
        MarkedRead(s, e, m, i);
      }
    }
  }

  lemma StartsMarked(count: nat, i: nat)
    requires i < count
    ensures Marked(Initial(count), MarksAfter(count, [], i), i)
  {
  }

  /**
   In every run, wraps included, the windows of a counter never report more than was added to it
   between its first and its last load, and exactly that if and only if it did not wrap in between.
   */
  lemma WindowsNeverOverstate(count: nat, es: seq<Event>, i: nat)
    requires i < count && Runs(Initial(count), es) && After(Initial(count), es).started
    ensures var s, m := After(Initial(count), es), MarksAfter(count, es, i);
            && Total(s.windows, i) <= m.prev.added - m.first.added
            && (Total(s.windows, i) == m.prev.added - m.first.added <==> m.prev.wraps == m.first.wraps)
  {
    hide Runs, After, MarksAfter, Total;
    EveryRunMarked(count, es, i);
  }

  /** The same for what the windows report of a peer. */
  lemma ReportsNeverOverstate(names: seq<string>, es: seq<Event>, p: nat, f: Field)
    requires Distinct(names) && p < |names|
    requires var start := Initial(5 * (|names| + 1)); Runs(start, es) && After(start, es).started
    ensures var count := 5 * (|names| + 1);
            var s, m := After(Initial(count), es), MarksAfter(count, es, 5 * (p + 1) + FieldIndex(f));
            && (forall w :: 0 <= w < |s.windows| ==> |s.windows[w]| == count)
            && TotalReported(names, s.windows, Some(names[p]), f) <= m.prev.added - m.first.added
            && (TotalReported(names, s.windows, Some(names[p]), f) == m.prev.added - m.first.added
                <==> m.prev.wraps == m.first.wraps)
  {
    hide TotalReported, Total, Distinct, Runs, After, MarksAfter;
    var count := 5 * (|names| + 1);
    WindowWidths(count, es);
    WindowsNeverOverstate(count, es, 5 * (p + 1) + FieldIndex(f));
    ReportedIsTotal(names, After(Initial(count), es).windows, p, f);
  }

  // ---------- a counter that wraps ----------

  /** One more event of a run of a single counter that has reached s, with its marks. */
  lemma Then(es: seq<Event>, s: State, m: Marks, e: Event) returns (es': seq<Event>, t: State, m': Marks)
    requires Runs(Initial(1), es) && After(Initial(1), es) == s && MarksAfter(1, es, 0) == m && Enabled(s, e)
    ensures Runs(Initial(1), es') && After(Initial(1), es') == t && MarksAfter(1, es', 0) == m'
    ensures t == Step(s, e) && m' == NextMarks(s, e, m, 0)
  {
    assert (es + [e])[..|es|] == es;
    es', t, m' := es + [e], Step(s, e), NextMarks(s, e, m, 0);
  }

  /** One snapshot of a single counter. */
  lemma TakeSnapshot(es: seq<Event>, s: State, m: Marks) returns (es': seq<Event>, t: State, m': Marks)
    requires Runs(Initial(1), es) && After(Initial(1), es) == s && MarksAfter(1, es, 0) == m
    requires |s.vals| == 1 && s.reading == [] && (s.started ==> |s.prev| == 1)
    ensures Runs(Initial(1), es') && After(Initial(1), es') == t && MarksAfter(1, es', 0) == m'
    ensures t == Step(s.(reading := [s.vals[0]]), Close)
    ensures m' == Marks(m.now, m.now, if s.started then m.first else m.now, m.now)
  {
    hide Runs, After, MarksAfter, Delta;
    assert s.reading + [s.vals[0]] == [s.vals[0]];
    es', t, m' := Then(es, s, m, Load);
    es', t, m' := Then(es', t, m', Close);
  }

  /**
   A counter that wraps between snapshots: the windows add up to more than the last stored snapshot
   minus the first, and to less than the 2^64 the counter gained.
   */
  lemma WrapExceedsSnapshots() returns (es: seq<Event>)
    ensures Runs(Initial(1), es)
    ensures var s, m := After(Initial(1), es), MarksAfter(1, es, 0);
            && s.started && s.first == [0] && s.prev == [0] && Total(s.windows, 0) == U64_MAX
            && m.prev.added - m.first.added == U64_SPAN && m.prev.wraps - m.first.wraps == 1
  {
    hide Runs, After, MarksAfter;
    var s, m := Initial(1), Marks(Mark(0, 0), Mark(0, 0), Mark(0, 0), Mark(0, 0));
    es := [];
    NothingYet(s);
    es, s, m := TakeSnapshot(es, s, m);
    es, s, m := Then(es, s, m, Bump(0, U64_MAX));
    es, s, m := TakeSnapshot(es, s, m);
    assert s.windows == [] + [[U64_MAX]] by {
      assert Delta([0], [U64_MAX]) == [U64_MAX];
    }
    es, s, m := Then(es, s, m, Bump(0, 1));
    es, s, m := TakeSnapshot(es, s, m);
    assert s.windows == [] + [[U64_MAX]] + [[0]] by {
      assert Delta([U64_MAX], [0]) == [0];
    }
    TotalNone(0);
    TotalAppend([], [U64_MAX], 0);
    TotalAppend([] + [[U64_MAX]], [0], 0);
  }

  lemma NothingYet(s: State)
    ensures Runs(s, []) && After(s, []) == s
    ensures MarksAfter(1, [], 0) == Marks(Mark(0, 0), Mark(0, 0), Mark(0, 0), Mark(0, 0))
  {
  }
}
