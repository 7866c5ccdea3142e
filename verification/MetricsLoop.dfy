/**
 The loop that closes metric windows on a fixed one-second grid.

 The monotonic clock and the cancellation token are read through a stream of
 observations, one per read: the clock never runs backwards and a cancelled
 token stays cancelled. A stream that ends early stands for a run cut short.
 */
module MetricsLoop {
  import opened Common

  const WINDOW_NS: nat := 1_000_000_000
  const WINDOW_SPIN_NS: nat := 200_000

  /** `woken` settles which side of a sleep wins when both the token and the timer are ready. */
  datatype Obs = Obs(now: u64, cancelled: bool, woken: bool)

  ghost predicate Steady(obs: seq<Obs>) {
    forall i, j :: 0 <= i <= j < |obs| ==> obs[i].now <= obs[j].now && (obs[i].cancelled ==> obs[j].cancelled)
  }

  function Saturated(n: nat): u64 {
    if n > U64_MAX then U64_MAX else n
  }

  /** The grid mark that closes window number i, counting from 1. */
  function Deadline(origin: u64, i: u64): u64 {
    Saturated(origin + Saturated(i * WINDOW_NS))
  }

  datatype Wait = Reached | CancelledFirst | RanOut

  /** The deadline was not passed more than three observations before `next`. */
  ghost predicate NotYet(obs: seq<Obs>, from: nat, next: nat, deadline: u64)
    requires next <= |obs|
  {
    forall i :: from <= i && i + 3 < next ==> obs[i].now < deadline
  }

  /** No observation before the bound was cancelled. */
  ghost predicate Unset(obs: seq<Obs>, from: nat, bound: int) {
    forall i :: from <= i < bound && i < |obs| ==> !obs[i].cancelled
  }

  /** No sleep before the bound was ended by the token. */
  ghost predicate Unwoken(obs: seq<Obs>, from: nat, bound: int) {
    forall i :: from <= i < bound && i < |obs| ==> !(obs[i].cancelled && obs[i].woken)
  }

  /** A sleep: the observation that ended it, and the time it was set to end at. */
  datatype Sleep = Sleep(at: nat, until: u64)

  /** Every sleep aims at the beginning of the spin, from a reading before that. */
  ghost predicate WellAimed(obs: seq<Obs>, from: nat, next: nat, deadline: u64, slept: seq<Sleep>) {
    forall k :: 0 <= k < |slept| ==>
      && from + 2 <= slept[k].at < next && next <= |obs|
      && obs[slept[k].at - 2].now < slept[k].until == deadline - WINDOW_SPIN_NS
  }

  /** Whether an observation was made in order to sleep. */
  predicate ForSleep(slept: seq<Sleep>, i: nat) {
    exists k :: 0 <= k < |slept| && slept[k].at - 2 <= i <= slept[k].at
  }

  /** Only the last readings before the deadline were made without sleeping. */
  ghost predicate Dozed(obs: seq<Obs>, from: nat, next: nat, deadline: u64, slept: seq<Sleep>) {
    forall i: nat :: from <= i < next && next <= |obs| && obs[i].now + WINDOW_SPIN_NS < deadline ==> ForSleep(slept, i)
  }

  lemma SleepsOn(obs: seq<Obs>, from: nat, next: nat, deadline: u64, slept: seq<Sleep>, until: u64)
    requires from <= next && next + 2 < |obs| && obs[next].now < until == deadline - WINDOW_SPIN_NS
    requires WellAimed(obs, from, next, deadline, slept) && Dozed(obs, from, next, deadline, slept)
    ensures var more := slept + [Sleep(next + 2, until)];
            WellAimed(obs, from, next + 3, deadline, more) && Dozed(obs, from, next + 3, deadline, more)
  {
    hide ForSleep;
    var x := Sleep(next + 2, until);
    forall i: nat | from <= i < next + 3 && obs[i].now + WINDOW_SPIN_NS < deadline
      ensures ForSleep(slept + [x], i)
    {
      ForSleepOn(slept, x, i);
    }
  }

  lemma ForSleepOn(slept: seq<Sleep>, x: Sleep, i: nat)
    requires ForSleep(slept, i) || x.at - 2 <= i <= x.at
    ensures ForSleep(slept + [x], i)
  {
    var more := slept + [x];
    if ForSleep(slept, i) {
      var k :| 0 <= k < |slept| && slept[k].at - 2 <= i <= slept[k].at;
      assert more[k] == slept[k];
    } else {
      assert more[|slept|] == x;
    }
  }

  lemma AimedUpTo(obs: seq<Obs>, from: nat, head: nat, deadline: u64, slept: seq<Sleep>)
    requires WellAimed(obs, from, head, deadline, slept)
    ensures forall later: nat :: head <= later <= |obs| ==> WellAimed(obs, from, later, deadline, slept)
  {
  }

  /** Once a reading has come close to the deadline, no later one is made in order to sleep. */
  lemma SpinsOn(obs: seq<Obs>, from: nat, next: nat, later: nat, deadline: u64, slept: seq<Sleep>)
    requires Steady(obs) && from <= next <= later <= |obs|
    requires next < later ==> obs[next].now + WINDOW_SPIN_NS >= deadline
    requires WellAimed(obs, from, next, deadline, slept) && Dozed(obs, from, next, deadline, slept)
    ensures WellAimed(obs, from, later, deadline, slept) && Dozed(obs, from, later, deadline, slept)
  {
  }

  lemma UnsetUpTo(obs: seq<Obs>, from: nat, read: nat)
    requires Steady(obs) && read < |obs| && !obs[read].cancelled
    ensures Unset(obs, from, read + 1)
  {
  }

  lemma NotYetSince(obs: seq<Obs>, from: nat, read: nat, next: nat, deadline: u64)
    requires Steady(obs) && read < |obs| && next <= |obs| && next <= read + 4 && obs[read].now < deadline
    ensures NotYet(obs, from, next, deadline)
  {
  }

  /**
   Waits for the clock, sleeping until close to the deadline and then spinning, unless the token is
   cancelled first: a wait that does not end in cancellation has not seen the token set, and one that
   reaches the deadline has spun only at the end. `slept` lists the sleeps.
   */
  method WaitUntilMono(obs: seq<Obs>, from: nat, deadline: u64)
    returns (outcome: Wait, next: nat, slept: seq<Sleep>)
    requires from <= |obs| && Steady(obs)
    ensures from <= next <= |obs|
    ensures outcome.Reached? ==> from < next && obs[next - 1].now >= deadline
    ensures outcome.CancelledFirst? ==> from + 1 < next && obs[next - 1].cancelled
    ensures outcome.RanOut? ==> next == |obs|
    ensures NotYet(obs, from, if outcome.Reached? then next - 1 else next, deadline)
    ensures !outcome.CancelledFirst? ==> forall i :: from <= i && i + 3 <= next ==> !obs[i].cancelled
    ensures !outcome.CancelledFirst? ==>
              forall i :: from <= i && i + 2 <= next ==> !(obs[i].cancelled && obs[i].woken)
    ensures WellAimed(obs, from, next, deadline, slept)
    ensures outcome.Reached? ==> Dozed(obs, from, next, deadline, slept)
  {
    hide NotYet, Steady, WellAimed, Dozed;
    next, slept := from, [];
    NoSleepYet(obs, from, deadline);
    NoneYet(obs, from, deadline);
    while next < |obs|
      invariant from <= next <= |obs|
      invariant NotYet(obs, from, next, deadline) && Unset(obs, from, next - 1)
      invariant Unwoken(obs, from, if next < |obs| then next else next - 1)
      invariant WellAimed(obs, from, next, deadline, slept) && Dozed(obs, from, next, deadline, slept)
      decreases |obs| - next
    {
      ghost var head := next;
      var read := next;
      var now := obs[next].now;
      next := next + 1;
      if now >= deadline {
        SpinsOn(obs, from, head, next, deadline, slept);
        return Reached, next, slept;
      }
      AimedUpTo(obs, from, head, deadline, slept);
      NotYetSince(obs, from, read, next, deadline);
      if next == |obs| {
        break;
      }
      next := next + 1;
      NotYetSince(obs, from, read, next, deadline);
      if obs[next - 1].cancelled {
        return CancelledFirst, next, slept;
      }
      UnsetUpTo(obs, from, next - 1);
      var remain := deadline - now;
      if remain > WINDOW_SPIN_NS {
        if next == |obs| {
          break;
        }
        next := next + 1;
        NotYetSince(obs, from, read, next, deadline);
        SleepsOn(obs, from, head, deadline, slept, now + (remain - WINDOW_SPIN_NS));
        slept := slept + [Sleep(next - 1, now + (remain - WINDOW_SPIN_NS))];
        if obs[next - 1].cancelled && obs[next - 1].woken {
          return CancelledFirst, next, slept;
        }
      } else {
        while next < |obs| && obs[next].now < deadline
          invariant from + 1 < next <= |obs|
          invariant NotYet(obs, from, next, deadline) && Unset(obs, from, next)
          decreases |obs| - next
        {
          read := next;
          next := next + 1;
          NotYetSince(obs, from, read, next, deadline);
          if next == |obs| {
            break;
          }
          next := next + 1;
          NotYetSince(obs, from, read, next, deadline);
          if obs[next - 1].cancelled {
            return CancelledFirst, next, slept;
          }
          UnsetUpTo(obs, from, next - 1);
        }
        if next < |obs| {
          SpinsOn(obs, from, head, next + 1, deadline, slept);
          return Reached, next + 1, slept;
        }
        SpinsOn(obs, from, head, next, deadline, slept);
      }
    }
    outcome := RanOut;
  }

  lemma NoSleepYet(obs: seq<Obs>, from: nat, deadline: u64)
    ensures WellAimed(obs, from, from, deadline, []) && Dozed(obs, from, from, deadline, [])
  {
  }

  lemma NoneYet(obs: seq<Obs>, from: nat, deadline: u64)
    requires from <= |obs|
    ensures NotYet(obs, from, from, deadline)
  {
  }

  /** One closed window: the clock when it closed, its reported duration, and where in the stream that was. */
  datatype Window = Window(close: u64, durationNs: u64, at: nat)

  function Opened(origin: u64, windows: seq<Window>, k: nat): u64
    requires k <= |windows|
  {
    if k == 0 then origin else windows[k - 1].close
  }

  ghost predicate OnGrid(obs: seq<Obs>, origin: u64, windows: seq<Window>, k: nat)
    requires k < |windows|
  {
    var w := windows[k];
    && w.at < |obs| && w.close == obs[w.at].now
    && w.close >= Deadline(origin, Saturated(k + 1))
    && w.close >= Opened(origin, windows, k)
    && w.durationNs == (if w.close == Opened(origin, windows, k) then 1 else w.close - Opened(origin, windows, k))
    && (k > 0 ==> windows[k - 1].at < w.at)
  }

  /** No window but the last can have been sent after the token was cancelled. */
  ghost predicate AllButLastUncancelled(obs: seq<Obs>, windows: seq<Window>) {
    forall k :: 0 <= k < |windows| - 1 ==> windows[k].at < |obs| && !obs[windows[k].at].cancelled
  }

  /** The first observation of the wait for window k. */
  function WaitFrom(windows: seq<Window>, k: nat): nat
    requires k <= |windows|
  {
    if k == 0 then 1 else windows[k - 1].at + 2
  }

  /**
   Window k was closed within five observations of its mark, or of the beginning of its wait
   if the mark had passed by then.
   */
  ghost predicate Prompt(obs: seq<Obs>, origin: u64, windows: seq<Window>, k: nat)
    requires k < |windows|
  {
    forall i :: WaitFrom(windows, k) <= i && i + 5 <= windows[k].at && i < |obs| ==>
      obs[i].now < Deadline(origin, Saturated(k + 1))
  }

  lemma EmitOnGrid(obs: seq<Obs>, origin: u64, before: seq<Window>, w: Window)
    requires Steady(obs) && obs != [] && origin == obs[0].now
    requires forall k :: 0 <= k < |before| ==> OnGrid(obs, origin, before, k) && before[k].at < w.at - 1
    requires 0 < w.at < |obs| && w.close == obs[w.at].now
    requires obs[w.at - 1].now >= Deadline(origin, Saturated(|before| + 1))
    requires var start := Opened(origin, before, |before|);
             w.durationNs == if w.close > start then w.close - start else 1
    ensures forall k :: 0 <= k <= |before| ==> OnGrid(obs, origin, before + [w], k)
  {
    hide Deadline, Saturated, Steady;
    var windows := before + [w];
    SteadyAt(obs, 0, w.at);
    SteadyAt(obs, w.at - 1, w.at);
    if before != [] {
      assert OnGrid(obs, origin, before, |before| - 1);
      SteadyAt(obs, before[|before| - 1].at, w.at);
    }
    assert OnGrid(obs, origin, windows, |before|);
    forall k | 0 <= k < |before| ensures OnGrid(obs, origin, windows, k) {
      OnGridExtends(obs, origin, before, w, k);
    }
  }

  lemma OnGridExtends(obs: seq<Obs>, origin: u64, before: seq<Window>, w: Window, k: nat)
    requires k < |before| && OnGrid(obs, origin, before, k)
    ensures OnGrid(obs, origin, before + [w], k)
  {
    assert Opened(origin, before + [w], k) == Opened(origin, before, k);
  }

  lemma SteadyAt(obs: seq<Obs>, i: nat, j: nat)
    requires Steady(obs) && i <= j < |obs|
    ensures obs[i].now <= obs[j].now && (obs[i].cancelled ==> obs[j].cancelled)
  {
  }

  /** The token was not set when the last observations before window k but three were made. */
  ghost predicate NotStopped(obs: seq<Obs>, windows: seq<Window>, k: nat)
    requires k < |windows|
  {
    forall i :: WaitFrom(windows, k) <= i && i + 3 <= windows[k].at && i < |obs| ==> !obs[i].cancelled
  }

  lemma EmitNotStopped(obs: seq<Obs>, before: seq<Window>, w: Window, from: nat)
    requires forall k :: 0 <= k < |before| ==> NotStopped(obs, before, k)
    requires w.at <= |obs| && from == WaitFrom(before, |before|)
    requires forall i :: from <= i && i + 3 <= w.at ==> !obs[i].cancelled
    ensures forall k :: 0 <= k <= |before| ==> NotStopped(obs, before + [w], k)
  {
    var windows := before + [w];
    forall k | 0 <= k < |windows| ensures NotStopped(obs, windows, k) {
      assert WaitFrom(windows, k) == WaitFrom(before, k);
      assert k < |before| ==> NotStopped(obs, before, k);
    }
  }

  /** The wait that led to a window makes it prompt, and the earlier ones stay so. */
  lemma EmitPrompt(obs: seq<Obs>, origin: u64, before: seq<Window>, w: Window, from: nat)
    requires forall k :: 0 <= k < |before| ==> Prompt(obs, origin, before, k)
    requires 0 < w.at < |obs| && from == WaitFrom(before, |before|)
    requires NotYet(obs, from, w.at - 1, Deadline(origin, Saturated(|before| + 1)))
    ensures forall k :: 0 <= k <= |before| ==> Prompt(obs, origin, before + [w], k)
  {
    hide Deadline;
    var windows := before + [w];
    forall k | 0 <= k < |windows| ensures Prompt(obs, origin, windows, k) {
      assert WaitFrom(windows, k) == WaitFrom(before, k);
      assert k < |before| ==> Prompt(obs, origin, before, k);
    }
  }

  /**
   Closes windows until it finds the token cancelled or the stream ends, having
   used the first `used` observations. Every window is closed promptly once its mark
   has passed; a stop before the mark drops the interval: no window is closed whose wait has
   seen the token set.
   */
  method MetricsLoop(obs: seq<Obs>) returns (origin: u64, windows: seq<Window>, stopped: bool, used: nat)
    requires obs != [] && Steady(obs)
    ensures origin == obs[0].now
    ensures forall k :: 0 <= k < |windows| ==> OnGrid(obs, origin, windows, k) && Prompt(obs, origin, windows, k)
    ensures forall k :: 0 <= k < |windows| ==> NotStopped(obs, windows, k)
    ensures AllButLastUncancelled(obs, windows)
    ensures used <= |obs| && (if stopped then used > 0 && obs[used - 1].cancelled else used == |obs|)
    ensures forall i :: WaitFrom(windows, |windows|) <= i && i + 4 < used ==>
              obs[i].now < Deadline(origin, Saturated(|windows| + 1))
  {
    hide OnGrid, Deadline, Steady, Prompt, NotStopped;
    origin := obs[0].now;
    windows, stopped, used := [], false, |obs|;
    var monoStart, windowI, next := origin, 1, 1;
    while true
      invariant next <= |obs| == used && next == WaitFrom(windows, |windows|)
      invariant windowI == Saturated(|windows| + 1) && monoStart == Opened(origin, windows, |windows|)
      invariant forall k :: 0 <= k < |windows| ==> OnGrid(obs, origin, windows, k) && Prompt(obs, origin, windows, k)
      invariant forall k :: 0 <= k < |windows| ==> NotStopped(obs, windows, k)
      invariant forall k :: 0 <= k < |windows| ==> windows[k].at < next - 1 && !obs[windows[k].at].cancelled
      decreases |obs| - next
    {
      var outcome, after, _ := WaitUntilMono(obs, next, Deadline(origin, windowI));
      if outcome.CancelledFirst? {
        stopped, used := true, after;
        return;
      }
      if outcome.RanOut? || after == |obs| {
        return;
      }
      var monoEnd := obs[after].now;
      var durationNs := if monoEnd > monoStart then monoEnd - monoStart else 1;
      ghost var before := windows;
      windows := windows + [Window(monoEnd, durationNs, after)];
      EmitOnGrid(obs, origin, before, windows[|before|]);
      EmitPrompt(obs, origin, before, windows[|before|], next);
      EmitNotStopped(obs, before, windows[|before|], next);
      monoStart := monoEnd;
      windowI := Saturated(windowI as int + 1);
      next := after + 1;
      if next == |obs| {
        return;
      }
      next := next + 1;
      if obs[next - 1].cancelled {
        stopped, used := true, next;
        return;
      }
      SteadyAt(obs, after, next - 1);
    }
  }

  /**
   A stop before the mark drops the interval: once the token is seen set after the wait for a window
   has begun, that window is closed within the next two observations or never.
   */
  lemma StopDropsInterval(obs: seq<Obs>, windows: seq<Window>, k: nat, i: nat)
    requires k < |windows| && windows[k].at < |obs| && NotStopped(obs, windows, k)
    requires WaitFrom(windows, k) <= i < |obs| && obs[i].cancelled
    ensures windows[k].at <= i + 2
  {
  }

  // ---------- what the grid means for durations ----------

  function Durations(windows: seq<Window>, k: nat): nat
    requires k <= |windows|
  {
    if k == 0 then 0 else Durations(windows, k - 1) + windows[k - 1].durationNs
  }

  /** The windows during which the clock did not move; each is reported as 1 ns long. */
  function Still(origin: u64, windows: seq<Window>, k: nat): nat
    requires k <= |windows|
  {
    if k == 0 then 0
    else Still(origin, windows, k - 1) + if windows[k - 1].close == Opened(origin, windows, k - 1) then 1 else 0
  }

  /** Reported durations make up the time since the origin, plus one per window that took no time. */
  lemma {:induction false} DurationsAddUp(obs: seq<Obs>, origin: u64, windows: seq<Window>, k: nat)
    requires k <= |windows| && forall i :: 0 <= i < |windows| ==> OnGrid(obs, origin, windows, i)
    ensures origin + Durations(windows, k) == Opened(origin, windows, k) + Still(origin, windows, k)
  {
    if k > 0 {
      DurationsAddUp(obs, origin, windows, k - 1);
      assert OnGrid(obs, origin, windows, k - 1);
    }
  }

  /** How late the k-th window closed, against its mark on the grid. */
  function Late(origin: u64, windows: seq<Window>, k: nat): int
    requires k <= |windows|
  {
    Opened(origin, windows, k) - origin - k * WINDOW_NS
  }

  function Max(a: int, b: int): int {
    if a > b then a else b
  }

  /**
   Successive readings are at most eps apart; the reading that ends a sleep is at most eps after
   the time the sleep aimed for, which is shortly before the mark of the window waited for.
   */
  ghost predicate Paced(obs: seq<Obs>, origin: u64, windows: seq<Window>, eps: nat) {
    forall k :: 0 <= k < |windows| ==>
      PacedBetween(obs, PaceFrom(windows, k), windows[k].at, Deadline(origin, Saturated(k + 1)), eps)
  }

  ghost predicate PacedBetween(obs: seq<Obs>, i: nat, j: nat, deadline: u64, eps: nat) {
    forall l :: i <= l < j < |obs| ==> StepAtMost(obs, l, deadline, eps)
  }

  /** The reading that closed the window before window k; the origin's for the first one. */
  function PaceFrom(windows: seq<Window>, k: nat): nat
    requires k <= |windows|
  {
    if k == 0 then 0 else windows[k - 1].at
  }

  ghost predicate StepAtMost(obs: seq<Obs>, i: nat, deadline: u64, eps: nat)
    requires i + 1 < |obs|
  {
    obs[i + 1].now <= Max(obs[i].now, deadline - WINDOW_SPIN_NS) + eps
  }

  lemma {:induction false} StepsAtMost(obs: seq<Obs>, i: nat, j: nat, deadline: u64, eps: nat)
    requires i <= j < |obs| && PacedBetween(obs, i, j, deadline, eps)
    ensures obs[j].now <= Max(obs[i].now, deadline) + (j - i) * eps
    decreases j - i
  {
    if i < j {
      StepsAtMost(obs, i, j - 1, deadline, eps);
      assert StepAtMost(obs, j - 1, deadline, eps);
      assert (j - i) * eps == (j - 1 - i) * eps + eps;
    }
  }

  lemma FewSteps(steps: nat, eps: nat)
    requires steps <= 6
    ensures steps * eps <= 6 * eps
  {
  }

  /** A window closes at most six readings after its mark or, if that is later, after the window before it. */
  lemma CloseAtMost(obs: seq<Obs>, origin: u64, windows: seq<Window>, k: nat, eps: nat)
    requires obs != [] && origin == obs[0].now && Paced(obs, origin, windows, eps) && k < |windows|
    requires OnGrid(obs, origin, windows, k) && Prompt(obs, origin, windows, k)
    requires k > 0 ==> OnGrid(obs, origin, windows, k - 1)
    ensures windows[k].close <= Max(Opened(origin, windows, k), Deadline(origin, Saturated(k + 1))) + 6 * eps
  {
    hide Deadline, Saturated, StepAtMost;
    var deadline, at, start := Deadline(origin, Saturated(k + 1)), windows[k].at, PaceFrom(windows, k);
    var i := if WaitFrom(windows, k) + 5 <= at then at - 5 else start;
    assert PacedBetween(obs, start, at, deadline, eps);
    assert obs[i].now <= Max(Opened(origin, windows, k), deadline);
    StepsAtMost(obs, i, at, deadline, eps);
    FewSteps(at - i, eps);
  }

  lemma DeadlineIs(origin: u64, k: nat)
    requires origin + k * WINDOW_NS <= U64_MAX
    ensures Deadline(origin, Saturated(k)) == origin + k * WINDOW_NS
  {
  }

  ghost predicate Regular(obs: seq<Obs>, origin: u64, windows: seq<Window>) {
    && obs != [] && origin == obs[0].now && origin + |windows| * WINDOW_NS <= U64_MAX
    && forall k :: 0 <= k < |windows| ==> OnGrid(obs, origin, windows, k) && Prompt(obs, origin, windows, k)
  }

  /** Lateness is made up for: each window takes back a second of it, up to six readings. */
  lemma LatenessShrinks(obs: seq<Obs>, origin: u64, windows: seq<Window>, k: nat, eps: nat)
    requires Regular(obs, origin, windows) && Paced(obs, origin, windows, eps) && k < |windows|
    ensures 0 <= Late(origin, windows, k + 1) <= Max(Late(origin, windows, k) - WINDOW_NS, 0) + 6 * eps
  {
    hide OnGrid, Prompt, Paced;
    CloseAtMost(obs, origin, windows, k, eps);
    ClosedOnGrid(obs, origin, windows, k);
    DeadlineIs(origin, k + 1);
  }

  lemma ClosedOnGrid(obs: seq<Obs>, origin: u64, windows: seq<Window>, k: nat)
    requires k < |windows| && OnGrid(obs, origin, windows, k)
    ensures windows[k].close >= Deadline(origin, Saturated(k + 1))
  {
  }

  /**
   No drift. If six readings fit into a second, every window closes at its mark or at most
   six readings after it, however many windows came before.
   */
  lemma {:induction false} NoDrift(obs: seq<Obs>, origin: u64, windows: seq<Window>, k: nat, eps: nat)
    requires Regular(obs, origin, windows) && Paced(obs, origin, windows, eps) && k <= |windows|
    requires 6 * eps <= WINDOW_NS
    ensures 0 <= Late(origin, windows, k) <= 6 * eps
  {
    hide Regular, Paced, Late;
    if k == 0 {
      StartsOnTime(origin, windows);
    } else {
      NoDrift(obs, origin, windows, k - 1, eps);
      LatenessShrinks(obs, origin, windows, k - 1, eps);
    }
  }

  lemma StartsOnTime(origin: u64, windows: seq<Window>)
    ensures Late(origin, windows, 0) == 0
  {
  }

  /** Any stretch of windows lasts its number of seconds, give or take six readings, whatever its length. */
  lemma StretchLength(obs: seq<Obs>, origin: u64, windows: seq<Window>, j: nat, k: nat, eps: nat)
    requires Regular(obs, origin, windows) && Paced(obs, origin, windows, eps) && j <= k <= |windows|
    requires 6 * eps <= WINDOW_NS
    ensures var length := Opened(origin, windows, k) - Opened(origin, windows, j);
            (k - j) * WINDOW_NS - 6 * eps <= length <= (k - j) * WINDOW_NS + 6 * eps
  {
    NoDrift(obs, origin, windows, j, eps);
    NoDrift(obs, origin, windows, k, eps);
  }
}
