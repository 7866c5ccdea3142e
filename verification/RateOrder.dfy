/**
 When the average of a list of samples lies between its minimum and its maximum, exactly, and
 which lists of samples the analysis can meet.
 */
module RateOrder {
  import opened Common
  import opened RateStats

  // ---------- equal windows ----------

  function Repeat(s: Sample, n: nat): (samples: seq<Sample>)
    ensures |samples| == n && forall i :: 0 <= i < n ==> samples[i] == s
  {
    if n == 0 then [] else Repeat(s, n - 1) + [s]
  }

  lemma {:induction false} RepeatSums(s: Sample, n: nat)
    ensures Bytes(Repeat(s, n)) == n * s.bytes && Duration(Repeat(s, n)) == n * s.duration
  {
    hide Bytes, Duration;
    if n == 0 {
      NoSums(s);
    } else {
      RepeatSums(s, n - 1);
      SumsOneMore(Repeat(s, n - 1), s);
      TimesOneMore(n - 1, s.bytes);
      TimesOneMore(n - 1, s.duration);
    }
  }

  lemma NoSums(s: Sample)
    ensures Bytes([]) == 0 * s.bytes && Duration([]) == 0 * s.duration
  {
  }

  lemma SumsOneMore(samples: seq<Sample>, s: Sample)
    ensures Bytes(samples + [s]) == Bytes(samples) + s.bytes
    ensures Duration(samples + [s]) == Duration(samples) + s.duration
  {
    assert (samples + [s])[..|samples|] == samples;
  }

  /** The statistics of a list whose rates are all the same. */
  function StatsAt(samples: seq<Sample>, rate: real): Stats {
    Stats(rate, rate, Bps(Cap(Bytes(samples), U64_MAX), Cap(Duration(samples), U128_MAX)), |samples|)
  }

  lemma SameRate(samples: seq<Sample>, rate: real, stats: Stats)
    requires samples != [] && forall i :: 0 <= i < |samples| ==> Rate(samples[i]) == rate
    ensures AreStats(samples, stats) <==> stats == StatsAt(samples, rate)
  {
    hide Rate, Bps, Bytes, Duration;
    assert Rate(samples[0]) == rate;
  }

  lemma ScaleBits(rate: real, bytes: nat, duration: nat, n: nat)
    requires Bits(rate, duration) == BitsOf(bytes)
    ensures Bits(rate, n * duration) == BitsOf(n * bytes)
  {
    var x, b, d := n as real, bytes as real, duration as real;
    assert (n * duration) as real == x * d && (n * bytes) as real == x * b;
    assert rate * (x * d) == x * (rate * d);
    assert x * (b * BITS_PER_NS) == x * b * BITS_PER_NS;
  }

  lemma RateBits(bytes: nat, duration: nat)
    requires duration > 0
    ensures Bits(Bps(bytes, duration), duration) == BitsOf(bytes)
  {
  }

  lemma RateOfEqual(bytes: nat, duration: nat, n: nat, total: nat)
    requires n > 0 && duration > 0
    ensures Bps(bytes, duration) <= Bps(total, n * duration) <==> n * bytes <= total
  {
    hide Bps, Bits;
    var rate := Bps(bytes, duration);
    assert n * duration > 0;
    RateBits(bytes, duration);
    ScaleBits(rate, bytes, duration, n);
    CompareRates(rate, total, n * duration);
    RateBits(total, n * duration);
  }

  /** For equal windows the minimum is at most the average exactly while their bytes together fit 64 bits. */
  lemma EqualWindows(s: Sample, n: nat, stats: Stats)
    requires 0 < n <= U64_MAX && s.duration > 0 && AreStats(Repeat(s, n), stats)
    ensures stats.min <= stats.avg <==> n * s.bytes <= U64_MAX
  {
    hide Bps, Bytes, Duration, AreStats, Repeat;
    SameRate(Repeat(s, n), Bps(s.bytes, s.duration), stats);
    RepeatSums(s, n);
    DurationFits(Repeat(s, n));
    assert n * U64_MAX <= U64_MAX * U64_MAX;
    RateOfEqual(s.bytes, s.duration, n, Cap(n * s.bytes, U64_MAX));
  }

  // ---------- minimum and average ----------

  ghost predicate WindowsWithin(samples: seq<Sample>, n: nat, most: u64, shortest: u64) {
    |samples| == n && forall i :: 0 <= i < n ==> 0 < samples[i].bytes <= most && samples[i].duration >= shortest
  }

  /** Any n windows of at most so many bytes, and at least so long, have a minimum that is at most the average. */
  ghost predicate MinAvgGuaranteed(n: nat, most: u64, shortest: u64) {
    forall samples, stats ::
      WindowsWithin(samples, n, most, shortest) && AreStats(samples, stats) ==> stats.min <= stats.avg
  }

  lemma {:induction false} BytesAtMost(samples: seq<Sample>, most: u64)
    requires forall i :: 0 <= i < |samples| ==> samples[i].bytes <= most
    ensures Bytes(samples) <= |samples| * most
  {
    if samples != [] {
      var n := |samples| - 1;
      BytesAtMost(samples[..n], most);
      assert |samples| * most == n * most + most;
    }
  }

  /** The guarantee holds exactly if that many windows of that many bytes fit 64 bits together. */
  lemma MinAvgIffFits(n: nat, most: u64, shortest: u64)
    requires 0 < n <= U64_MAX && shortest > 0
    ensures MinAvgGuaranteed(n, most, shortest) <==> n * most <= U64_MAX
  {
    hide AreStats, Bytes, Duration, Repeat, StatsAt;
    if n * most <= U64_MAX {
      forall samples, stats | WindowsWithin(samples, n, most, shortest) && AreStats(samples, stats)
        ensures stats.min <= stats.avg
      {
        BytesAtMost(samples, most);
        MinAvgMax(samples, stats);
      }
    } else {
      var s := Sample(most, shortest);
      var samples := Repeat(s, n);
      var stats := StatsAt(samples, Rate(s));
      SameRate(samples, Rate(s), stats);
      EqualWindows(s, n, stats);
      assert most > 0;
      assert WindowsWithin(samples, n, most, shortest) && AreStats(samples, stats);
    }
  }

  // ---------- average and maximum ----------

  ghost predicate HasDurations(samples: seq<Sample>, durations: seq<u64>) {
    |samples| == |durations| && forall i :: 0 <= i < |samples| ==> samples[i].duration == durations[i]
  }

  /** Windows of these durations have an average that is at most the maximum, whatever their bytes. */
  ghost predicate AvgMaxGuaranteed(durations: seq<u64>) {
    forall samples, stats :: HasDurations(samples, durations) && AreStats(samples, stats) ==> stats.avg <= stats.max
  }

  ghost predicate AllPositive(durations: seq<u64>) {
    forall i :: 0 <= i < |durations| ==> durations[i] > 0
  }

  ghost predicate AllZero(durations: seq<u64>) {
    forall i :: 0 <= i < |durations| ==> durations[i] == 0
  }

  lemma {:induction false} NoDuration(samples: seq<Sample>)
    requires forall i :: 0 <= i < |samples| ==> samples[i].duration == 0
    ensures Duration(samples) == 0
  {
    if samples != [] {
      NoDuration(samples[..|samples| - 1]);
    }
  }

  /** A byte in every window without duration, and none in the others: no window has a rate. */
  function Unrated(durations: seq<u64>): (samples: seq<Sample>)
    ensures |samples| == |durations|
    ensures forall i :: 0 <= i < |durations| ==> samples[i] == Sample(if durations[i] == 0 then 1 else 0, durations[i])
  {
    seq(|durations|, i requires 0 <= i < |durations| => Sample(if durations[i] == 0 then 1 else 0, durations[i]))
  }

  lemma {:induction false} SumsReach(samples: seq<Sample>, i: nat)
    requires i < |samples|
    ensures Bytes(samples) >= samples[i].bytes && Duration(samples) >= samples[i].duration
  {
    if i < |samples| - 1 {
      SumsReach(samples[..|samples| - 1], i);
    }
  }

  lemma NoRate(s: Sample)
    requires s.bytes == 0 || s.duration == 0
    ensures Rate(s) == 0.0
  {
    if s.duration > 0 {
      CompareRates(0.0, 0, s.duration);
      assert BitsOf(0) == 0.0 && Bits(0.0, s.duration) == 0.0;
    }
  }

  /** Bytes in a window without duration, beside one that has some, make an average above the maximum. */
  lemma EmptyWindowBreaksAverage(durations: seq<u64>, empty: nat, proper: nat) returns (stats: Stats)
    requires empty < |durations| && durations[empty] == 0 && proper < |durations| && durations[proper] > 0
    ensures AreStats(Unrated(durations), stats) && stats.max < stats.avg
  {
    hide Bps, AreStats, Bytes, Duration, Rate;
    var samples := Unrated(durations);
    stats := StatsAt(samples, 0.0);
    forall i | 0 <= i < |samples| ensures Rate(samples[i]) == 0.0 {
      NoRate(samples[i]);
    }
    SameRate(samples, 0.0, stats);
    SumsReach(samples, empty);
    SumsReach(samples, proper);
    PositiveRate(Cap(Bytes(samples), U64_MAX), Cap(Duration(samples), U128_MAX));
  }

  lemma PositiveRate(bytes: nat, duration: nat)
    requires bytes > 0 && duration > 0
    ensures Bps(bytes, duration) > 0.0
  {
    var rate := Bps(bytes, duration);
    assert rate * duration as real == BitsOf(bytes);
    assert BitsOf(bytes) > 0.0;
    if rate <= 0.0 {
      TimesNotPositive(rate, duration);
    }
  }

  /** The average is at most the maximum for all byte counts exactly if all windows have a duration, or none has. */
  lemma AvgMaxIffDurations(durations: seq<u64>)
    requires 0 < |durations| <= U64_MAX
    ensures AvgMaxGuaranteed(durations) <==> AllPositive(durations) || AllZero(durations)
  {
    hide AreStats, Unrated;
    if AllPositive(durations) || AllZero(durations) {
      forall samples, stats | HasDurations(samples, durations) && AreStats(samples, stats)
        ensures stats.avg <= stats.max
      {
        if AllPositive(durations) {
          MinAvgMax(samples, stats);
        } else {
          NoAverage(samples, stats);
        }
      }
    } else {
      var empty :| 0 <= empty < |durations| && durations[empty] == 0;
      var proper :| 0 <= proper < |durations| && durations[proper] > 0;
      var stats := EmptyWindowBreaksAverage(durations, empty, proper);
      assert HasDurations(Unrated(durations), durations);
    }
  }

  lemma NoAverage(samples: seq<Sample>, stats: Stats)
    requires samples != [] && AreStats(samples, stats)
    requires forall i :: 0 <= i < |samples| ==> samples[i].duration == 0
    ensures stats.avg == stats.max == 0.0
  {
    NoDuration(samples);
    var i :| 0 <= i < |samples| && Rate(samples[i]) == stats.max;
  }

  // ---------- the lists the analysis meets ----------

  ghost predicate Real(samples: seq<Sample>) {
    forall i :: 0 <= i < |samples| ==> samples[i].bytes > 0 && samples[i].duration >= MIN_WINDOW_NS
  }

  function RowFor(s: Sample, pair: Pair): Row {
    Row(pair.src, 0, s.duration, s.bytes, Rate(s), [PeerBytes(pair.dst, s.bytes)])
  }

  function RowsFor(samples: seq<Sample>, pair: Pair): seq<Row> {
    if samples == [] then []
    else RowsFor(samples[..|samples| - 1], pair) + [RowFor(samples[|samples| - 1], pair)]
  }

  lemma RowGives(rows: seq<Row>, s: Sample, pair: Pair)
    requires s.bytes > 0 && s.duration >= MIN_WINDOW_NS && pair.src != pair.dst
    ensures SamplesOf(rows + [RowFor(s, pair)], pair) == SamplesOf(rows, pair) + [s]
    ensures TotalSamples(rows + [RowFor(s, pair)]) == TotalSamples(rows) + [s]
  {
    var row := RowFor(s, pair);
    assert (rows + [row])[..|rows|] == rows;
    assert row.peers[..0] == [];
    assert FromPeers(row, row.peers, pair) == [s];
  }

  /** Every list of windows that pass the filter occurs, both as the samples of a pair and as the total ones. */
  lemma {:induction false} RealIsMet(samples: seq<Sample>, pair: Pair)
    requires Real(samples) && pair.src != pair.dst
    ensures SamplesOf(RowsFor(samples, pair), pair) == samples && TotalSamples(RowsFor(samples, pair)) == samples
  {
    hide SamplesOf, TotalSamples, RowFor;
    if samples == [] {
      NoRows(pair);
    } else {
      var n := |samples| - 1;
      RealIsMet(samples[..n], pair);
      RowGives(RowsFor(samples[..n], pair), samples[n], pair);
    }
  }

  lemma NoRows(pair: Pair)
    ensures SamplesOf([], pair) == [] && TotalSamples([]) == []
  {
  }

  lemma {:induction false} TotalsAreReal(rows: seq<Row>)
    ensures Real(TotalSamples(rows))
  {
    if rows != [] {
      TotalsAreReal(rows[..|rows| - 1]);
    }
  }

  /** A list can be the samples of a pair of hosts exactly if every window of it passes the filter. */
  lemma MetIffReal(samples: seq<Sample>, pair: Pair)
    requires pair.src != pair.dst
    ensures (exists rows :: SamplesOf(rows, pair) == samples) <==> Real(samples)
    ensures (exists rows :: TotalSamples(rows) == samples) <==> Real(samples)
  {
    if Real(samples) {
      RealIsMet(samples, pair);
    }
    forall rows | SamplesOf(rows, pair) == samples ensures Real(samples) {
      SamplesAreReal(rows, pair);
      assert forall i :: 0 <= i < |samples| ==> samples[i] in SamplesOf(rows, pair);
    }
    forall rows | TotalSamples(rows) == samples ensures Real(samples) {
      TotalsAreReal(rows);
    }
  }

  /** Two recorded one-second windows of a pair whose reported average is below their minimum. */
  lemma SaturationBreaksAverage(pair: Pair) returns (rows: seq<Row>, stats: Stats)
    requires pair.src != pair.dst
    ensures AreStats(SamplesOf(rows, pair), stats) && stats.avg < stats.min
  {
    hide AreStats, SamplesOf, TotalSamples, StatsAt;
    var s := Sample(U64_MAX, 1_000_000_000);
    var samples := Repeat(s, 2);
    rows, stats := RowsFor(samples, pair), StatsAt(samples, Rate(s));
    RealIsMet(samples, pair);
    SameRate(samples, Rate(s), stats);
    EqualWindows(s, 2, stats);
  }
}
