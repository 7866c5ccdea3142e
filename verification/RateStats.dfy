/**
 Rates computed from recorded metric windows, in exact arithmetic: per pair of hosts, in total,
 and the list of the worst pairs.
 */
module RateStats {
  import opened Common

  const MIN_WINDOW_NS: u64 := 50_000_000
  const U128_MAX: nat := U64_MAX * U64_MAX + 2 * U64_MAX
  const BITS_PER_NS: real := 8_000_000_000.0

  /** The bytes of one window and how long it was. */
  datatype Sample = Sample(bytes: u64, duration: u64)

  function Bps(bytes: nat, duration: nat): (rate: real)
    ensures rate >= 0.0
  {
    if duration == 0 then 0.0 else bytes as real * BITS_PER_NS / duration as real
  }

  /** Bytes in one second make eight times as many bits per second. */
  lemma OneSecond(bytes: nat)
    ensures Bps(bytes, 1_000_000_000) == (8 * bytes) as real
  {
  }

  function Rate(s: Sample): real {
    Bps(s.bytes, s.duration)
  }

  function Bytes(samples: seq<Sample>): nat {
    if samples == [] then 0 else Bytes(samples[..|samples| - 1]) + samples[|samples| - 1].bytes
  }

  function Duration(samples: seq<Sample>): nat {
    if samples == [] then 0 else Duration(samples[..|samples| - 1]) + samples[|samples| - 1].duration
  }

  function Cap(n: nat, most: nat): nat {
    if n <= most then n else most
  }

  function SaturatingAdd(a: nat, b: nat, most: nat): (sum: nat)
    ensures sum == Cap(a + b, most)
  {
    if a + b > most then most else a + b
  }

  // ---------- statistics of one list of samples ----------

  datatype Stats = Stats(min: real, max: real, avg: real, windows: nat)

  ghost predicate LowestRate(samples: seq<Sample>, rate: real) {
    && (forall i :: 0 <= i < |samples| ==> rate <= Rate(samples[i]))
    && exists i :: 0 <= i < |samples| && Rate(samples[i]) == rate
  }

  ghost predicate HighestRate(samples: seq<Sample>, rate: real) {
    && (forall i :: 0 <= i < |samples| ==> Rate(samples[i]) <= rate)
    && exists i :: 0 <= i < |samples| && Rate(samples[i]) == rate
  }

  ghost predicate AreStats(samples: seq<Sample>, stats: Stats) {
    && LowestRate(samples, stats.min)
    && HighestRate(samples, stats.max)
    && stats.avg == Bps(Cap(Bytes(samples), U64_MAX), Cap(Duration(samples), U128_MAX))
    && stats.windows == |samples|
  }

  /** No statistics without samples; otherwise the extremes of the rates and the overall rate. */
  method FromSamples(samples: seq<Sample>) returns (r: Option<Stats>)
    ensures r.None? <==> samples == []
    ensures r.Some? ==> AreStats(samples, r.value)
  {
    if samples == [] {
      return None;
    }
    var minBps: Option<real> := None; // no value yet: infinity
    var maxBps, bytes, duration := 0.0, 0, 0;
    for i := 0 to |samples|
      invariant minBps.None? <==> i == 0
      invariant i > 0 ==> LowestRate(samples[..i], minBps.value) && HighestRate(samples[..i], maxBps)
      invariant i == 0 ==> maxBps == 0.0
      invariant bytes == Cap(Bytes(samples[..i]), U64_MAX)
      invariant duration == Cap(Duration(samples[..i]), U128_MAX)
    {
      var s := samples[i];
      var r := Bps(s.bytes, s.duration);
      ghost var lowest, highest := minBps, maxBps;
      if minBps.None? || r < minBps.value {
        minBps := Some(r);
      }
      if r > maxBps {
        maxBps := r;
      }
      bytes := SaturatingAdd(bytes, s.bytes, U64_MAX);
      duration := SaturatingAdd(duration, s.duration, U128_MAX);
      assert samples[..i + 1] == samples[..i] + [s];
      OneMoreSample(samples[..i], s, lowest, highest);
    }
    assert samples[..|samples|] == samples;
    r := Some(Stats(minBps.value, maxBps, Bps(bytes, duration), |samples|));
  }

  lemma OneMoreSample(before: seq<Sample>, s: Sample, lowest: Option<real>, highest: real)
    requires lowest.None? ==> before == [] && highest == 0.0
    requires lowest.Some? ==> LowestRate(before, lowest.value) && HighestRate(before, highest)
    ensures LowestRate(before + [s], if lowest.None? || Rate(s) < lowest.value then Rate(s) else lowest.value)
    ensures HighestRate(before + [s], if Rate(s) > highest then Rate(s) else highest)
    ensures Bytes(before + [s]) == Bytes(before) + s.bytes
    ensures Duration(before + [s]) == Duration(before) + s.duration
  {
    hide Bps, Rate;
    var after := before + [s];
    assert after[|before|] == s && after[..|before|] == before;
    assert forall i :: 0 <= i < |before| ==> after[i] == before[i];
    NotNegative(s);
    if lowest.Some? {
      var l :| 0 <= l < |before| && Rate(before[l]) == lowest.value;
      var h :| 0 <= h < |before| && Rate(before[h]) == highest;
      assert Rate(after[l]) == lowest.value && Rate(after[h]) == highest;
    }
  }

  lemma NotNegative(s: Sample)
    ensures Rate(s) >= 0.0
  {
  }

  ghost predicate Positive(samples: seq<Sample>) {
    forall i :: 0 <= i < |samples| ==> samples[i].duration > 0
  }

  /** Bits sent at a constant rate over a time. */
  function Bits(rate: real, duration: nat): real {
    rate * duration as real
  }

  function BitsOf(bytes: nat): real {
    bytes as real * BITS_PER_NS
  }

  lemma BitsAdd(rate: real, d1: nat, d2: nat, b1: nat, b2: nat)
    ensures Bits(rate, d1 + d2) == Bits(rate, d1) + Bits(rate, d2)
    ensures BitsOf(b1 + b2) == BitsOf(b1) + BitsOf(b2)
  {
    assert (d1 + d2) as real == d1 as real + d2 as real;
  }

  /** A sample carries the bits of its own rate, so at least (at most) those of a lower (higher) one. */
  lemma SampleBits(s: Sample, low: real, high: real)
    requires s.duration > 0 && low <= Rate(s) <= high
    ensures Bits(low, s.duration) <= BitsOf(s.bytes) <= Bits(high, s.duration)
  {
    var r, d := Rate(s), s.duration as real;
    assert r * d == BitsOf(s.bytes);
    assert (r - low) * d >= 0.0 && (high - r) * d >= 0.0;
  }

  /** A rate at most (at least) that of every sample is at most (at least) that of all together. */
  lemma {:induction false} BetweenBounds(samples: seq<Sample>, low: real, high: real)
    requires Positive(samples)
    requires forall i :: 0 <= i < |samples| ==> low <= Rate(samples[i]) <= high
    ensures Bits(low, Duration(samples)) <= BitsOf(Bytes(samples)) <= Bits(high, Duration(samples))
  {
    hide Rate, Bits, BitsOf;
    if samples == [] {
      NoBits(low, high);
    } else {
      var before, s := samples[..|samples| - 1], samples[|samples| - 1];
      BetweenBounds(before, low, high);
      SampleBits(s, low, high);
      BitsAdd(low, Duration(before), s.duration, Bytes(before), s.bytes);
      BitsAdd(high, Duration(before), s.duration, Bytes(before), s.bytes);
    }
  }

  lemma NoBits(low: real, high: real)
    ensures Bits(low, 0) == BitsOf(0) == Bits(high, 0)
  {
  }

  lemma LessTimes(x: real, y: real, d: nat)
    requires x < y && d > 0
    ensures x * d as real < y * d as real
  {
    assert (y - x) * d as real > 0.0;
  }

  lemma TimesNotPositive(x: real, d: nat)
    requires x <= 0.0
    ensures x * d as real <= 0.0
  {
  }

  lemma CompareRates(rate: real, bytes: nat, duration: nat)
    requires duration > 0
    ensures Bits(rate, duration) <= BitsOf(bytes) ==> rate <= Bps(bytes, duration)
    ensures Bits(rate, duration) >= BitsOf(bytes) ==> rate >= Bps(bytes, duration)
  {
    var avg := Bps(bytes, duration);
    assert avg * duration as real == BitsOf(bytes);
    if avg < rate {
      LessTimes(avg, rate, duration);
    } else if rate < avg {
      LessTimes(rate, avg, duration);
    }
  }

  /** The sum of fewer than 2^64 durations fits 128 bits. */
  lemma {:induction false} DurationFits(samples: seq<Sample>)
    ensures Duration(samples) <= |samples| * U64_MAX
  {
    if samples != [] {
      DurationFits(samples[..|samples| - 1]);
    }
  }

  lemma {:induction false} DurationPositive(samples: seq<Sample>)
    requires Positive(samples) && samples != []
    ensures Duration(samples) > 0
  {
    assert samples[|samples| - 1].duration > 0;
  }

  /**
   With positive durations the average never exceeds the maximum, and it is at least the minimum
   if the sum of the bytes fits 64 bits. (The list of samples is held in memory, so its length fits too.)
   */
  lemma MinAvgMax(samples: seq<Sample>, stats: Stats)
    requires samples != [] && |samples| <= U64_MAX && Positive(samples) && AreStats(samples, stats)
    ensures stats.avg <= stats.max
    ensures Bytes(samples) <= U64_MAX ==> stats.min <= stats.avg
  {
    hide Bps, Bytes, Duration, Positive, Bits, BitsOf;
    var bytes, duration := Bytes(samples), Duration(samples);
    DurationPositive(samples);
    DurationFits(samples);
    assert |samples| * U64_MAX <= U64_MAX * U64_MAX;
    BetweenBounds(samples, stats.min, stats.max);
    var counted := Cap(bytes, U64_MAX);
    FewerBits(counted, bytes);
    CompareRates(stats.max, counted, duration);
    CompareRates(stats.min, counted, duration);
  }

  lemma FewerBits(b1: nat, b2: nat)
    requires b1 <= b2
    ensures BitsOf(b1) <= BitsOf(b2)
  {
  }

  // ---------- grouping the recorded rows ----------

  datatype PeerBytes = PeerBytes(peer: string, bytes: u64)

  datatype Row = Row(server: string, wallStart: u64, duration: u64, bytes: u64, bps: real, peers: seq<PeerBytes>)

  datatype Pair = Pair(src: string, dst: string)

  predicate CountsFor(row: Row, p: PeerBytes, pair: Pair) {
    row.server == pair.src && p.peer == pair.dst && pair.src != pair.dst
    && p.bytes != 0 && row.duration >= MIN_WINDOW_NS
  }

  /** The samples the first entries of a row give a pair. */
  function FromPeers(row: Row, peers: seq<PeerBytes>, pair: Pair): seq<Sample> {
    if peers == [] then []
    else
      var p := peers[|peers| - 1];
      FromPeers(row, peers[..|peers| - 1], pair)
      + if CountsFor(row, p, pair) then [Sample(p.bytes, row.duration)] else []
  }

  /** The samples of a pair, in the order of the rows. */
  function SamplesOf(rows: seq<Row>, pair: Pair): seq<Sample> {
    if rows == [] then []
    else SamplesOf(rows[..|rows| - 1], pair) + FromPeers(rows[|rows| - 1], rows[|rows| - 1].peers, pair)
  }

  lemma {:induction false} FromPeersIff(row: Row, peers: seq<PeerBytes>, pair: Pair, s: Sample)
    ensures s in FromPeers(row, peers, pair) <==>
            exists j :: 0 <= j < |peers| && CountsFor(row, peers[j], pair) && s == Sample(peers[j].bytes, row.duration)
  {
    if peers != [] {
      var n := |peers| - 1;
      FromPeersIff(row, peers[..n], pair, s);
      assert forall j :: 0 <= j < n ==> peers[..n][j] == peers[j];
    }
  }

  predicate SampleAt(rows: seq<Row>, i: nat, j: nat, pair: Pair, s: Sample) {
    && i < |rows| && j < |rows[i].peers|
    && rows[i].server == pair.src && rows[i].peers[j].peer == pair.dst && pair.src != pair.dst
    && s == Sample(rows[i].peers[j].bytes, rows[i].duration) && s.bytes > 0 && s.duration >= 50_000_000
  }

  /** A pair's samples are what its source sent to its target in windows of at least 50 ms, if anything. */
  lemma {:induction false} SamplesAre(rows: seq<Row>, pair: Pair, s: Sample)
    ensures s in SamplesOf(rows, pair) <==> exists i: nat, j: nat :: SampleAt(rows, i, j, pair, s)
  {
    hide FromPeers;
    if rows == [] {
    } else {
      var n := |rows| - 1;
      var before, row := rows[..n], rows[n];
      SamplesAre(before, pair, s);
      FromPeersIff(row, row.peers, pair, s);
      if i: nat, j: nat :| SampleAt(before, i, j, pair, s) {
        assert SampleAt(rows, i, j, pair, s);
      }
      var ps := row.peers;
      if j :| 0 <= j < |ps| && CountsFor(row, ps[j], pair) && s == Sample(ps[j].bytes, row.duration) {
        assert SampleAt(rows, n, j, pair, s);
      }
      if i: nat, j: nat :| SampleAt(rows, i, j, pair, s) {
        if i < n {
          assert SampleAt(before, i, j, pair, s);
        } else {
          assert CountsFor(row, row.peers[j], pair);
        }
      }
    }
  }

  predicate InTotal(row: Row) {
    row.duration >= MIN_WINDOW_NS && row.bytes > 0
  }

  function TotalSamples(rows: seq<Row>): seq<Sample> {
    if rows == [] then []
    else
      var row := rows[|rows| - 1];
      TotalSamples(rows[..|rows| - 1]) + if InTotal(row) then [Sample(row.bytes, row.duration)] else []
  }

  function Bucket(row: Row): nat {
    row.wallStart / 1_000_000_000
  }

  /** A row belongs to the whole second in which its window began. */
  lemma BucketIs(row: Row)
    ensures Bucket(row) * 1_000_000_000 <= row.wallStart < (Bucket(row) + 1) * 1_000_000_000
  {
  }

  /** The rates of the rows counted in one second, added up. */
  function BucketSum(rows: seq<Row>, bucket: nat): real {
    if rows == [] then 0.0
    else
      var row := rows[|rows| - 1];
      BucketSum(rows[..|rows| - 1], bucket) + if InTotal(row) && Bucket(row) == bucket then row.bps else 0.0
  }

  predicate InBucket(rows: seq<Row>, bucket: nat) {
    exists i :: 0 <= i < |rows| && InTotal(rows[i]) && Bucket(rows[i]) == bucket
  }

  function Looked<K(==), V>(m: map<K, V>, key: K, absent: V): V {
    if key in m then m[key] else absent
  }

  ghost predicate Grouped(m: map<Pair, seq<Sample>>, rows: seq<Row>, row: Row, peers: seq<PeerBytes>) {
    && (forall pair :: Looked(m, pair, []) == SamplesOf(rows, pair) + FromPeers(row, peers, pair))
    && forall pair :: pair in m ==> m[pair] != []
  }

  ghost predicate Pooled(buckets: map<nat, real>, rows: seq<Row>) {
    forall b :: (b in buckets <==> InBucket(rows, b)) && Looked(buckets, b, 0.0) == BucketSum(rows, b)
  }

  lemma FromOnePeerMore(row: Row, peers: seq<PeerBytes>, p: PeerBytes, pair: Pair)
    ensures FromPeers(row, peers + [p], pair)
            == FromPeers(row, peers, pair) + if CountsFor(row, p, pair) then [Sample(p.bytes, row.duration)] else []
    ensures CountsFor(row, p, pair) ==> pair == Pair(row.server, p.peer)
  {
    assert (peers + [p])[..|peers|] == peers;
  }

  lemma OneMorePeer(m: map<Pair, seq<Sample>>, rows: seq<Row>, row: Row, peers: seq<PeerBytes>, p: PeerBytes)
    requires Grouped(m, rows, row, peers)
    ensures var pair := Pair(row.server, p.peer);
            Grouped(
              if CountsFor(row, p, pair) then m[pair := Looked(m, pair, []) + [Sample(p.bytes, row.duration)]] else m,
              rows, row, peers + [p])
  {
    hide FromPeers, SamplesOf, CountsFor;
    var mine, gained := Pair(row.server, p.peer), [Sample(p.bytes, row.duration)];
    var after := if CountsFor(row, p, mine) then m[mine := Looked(m, mine, []) + gained] else m;
    forall pair ensures Looked(after, pair, []) == SamplesOf(rows, pair) + FromPeers(row, peers + [p], pair) {
      FromOnePeerMore(row, peers, p, pair);
      var before := SamplesOf(rows, pair) + FromPeers(row, peers, pair);
      assert Looked(m, pair, []) == before;
      assert SamplesOf(rows, pair) + (FromPeers(row, peers, pair) + gained) == before + gained;
    }
  }

  lemma OneMoreRow(m: map<Pair, seq<Sample>>, rows: seq<Row>, row: Row, next: Row)
    requires Grouped(m, rows, row, row.peers)
    ensures Grouped(m, rows + [row], next, [])
  {
    assert (rows + [row])[..|rows|] == rows;
  }

  lemma OneMoreInBucket(buckets: map<nat, real>, rows: seq<Row>, row: Row)
    requires Pooled(buckets, rows)
    ensures var b := Bucket(row);
            Pooled(if InTotal(row) then buckets[b := Looked(buckets, b, 0.0) + row.bps] else buckets, rows + [row])
  {
    var all := rows + [row];
    assert all[..|rows|] == rows && all[|rows|] == row;
    forall b ensures InBucket(all, b) <==> InBucket(rows, b) || (InTotal(row) && Bucket(row) == b) {
      if InBucket(rows, b) {
        var i :| 0 <= i < |rows| && InTotal(rows[i]) && Bucket(rows[i]) == b;
        assert all[i] == rows[i];
      }
    }
  }

  /**
   Groups the rows in one pass: a pair appears exactly if some window counted for it, with its
   samples in order; a second appears exactly if some row counted in it, with their summed rate.
   */
  method Group(rows: seq<Row>)
    returns (pairs: map<Pair, seq<Sample>>, buckets: map<nat, real>, totals: seq<Sample>)
    ensures forall pair :: pair in pairs <==> SamplesOf(rows, pair) != []
    ensures forall pair :: pair in pairs ==> pairs[pair] == SamplesOf(rows, pair)
    ensures Pooled(buckets, rows) && totals == TotalSamples(rows)
  {
    hide FromPeers, SamplesOf, BucketSum, InBucket, Pooled, Grouped;
    pairs, buckets, totals := map[], map[], [];
    if rows == [] {
      NothingGrouped();
      return;
    }
    NothingRead(rows[0]);
    for i := 0 to |rows|
      invariant Grouped(pairs, rows[..i], rows[if i < |rows| then i else 0], [])
      invariant Pooled(buckets, rows[..i]) && totals == TotalSamples(rows[..i])
    {
      var row := rows[i];
      for j := 0 to |row.peers|
        invariant Grouped(pairs, rows[..i], row, row.peers[..j])
      {
        var p := row.peers[j];
        var pair := Pair(row.server, p.peer);
        OneMorePeer(pairs, rows[..i], row, row.peers[..j], p);
        assert row.peers[..j + 1] == row.peers[..j] + [p];
        if p.peer == row.server {
          continue;
        }
        if p.bytes == 0 || row.duration < MIN_WINDOW_NS {
          continue;
        }
        pairs := pairs[pair := Looked(pairs, pair, []) + [Sample(p.bytes, row.duration)]];
      }
      assert row.peers[..|row.peers|] == row.peers;
      assert rows[..i + 1] == rows[..i] + [row];
      OneMoreRow(pairs, rows[..i], row, rows[if i + 1 < |rows| then i + 1 else 0]);
      OneMoreInBucket(buckets, rows[..i], row);
      if row.duration >= MIN_WINDOW_NS && row.bytes > 0 {
        var bucket := row.wallStart / 1_000_000_000;
        buckets := buckets[bucket := Looked(buckets, bucket, 0.0) + row.bps];
        totals := totals + [Sample(row.bytes, row.duration)];
      }
    }
    assert rows[..|rows|] == rows;
    AllGrouped(pairs, rows, rows[0]);
  }

  lemma NothingGrouped()
    ensures Pooled(map[], []) && forall pair :: SamplesOf([], pair) == []
  {
  }

  lemma NothingRead(row: Row)
    ensures Grouped(map[], [], row, []) && Pooled(map[], [])
  {
  }

  lemma AllGrouped(pairs: map<Pair, seq<Sample>>, rows: seq<Row>, row: Row)
    requires Grouped(pairs, rows, row, [])
    ensures forall pair :: pair in pairs <==> SamplesOf(rows, pair) != []
    ensures forall pair :: pair in pairs ==> pairs[pair] == SamplesOf(rows, pair)
  {
    forall pair ensures Looked(pairs, pair, []) == SamplesOf(rows, pair) {
      assert SamplesOf(rows, pair) + FromPeers(row, [], pair) == SamplesOf(rows, pair);
    }
  }

  /** The filter keeps stop slices and one-way rows out: every sample of a pair is a real one. */
  lemma {:induction false} SamplesAreReal(rows: seq<Row>, pair: Pair)
    ensures forall s :: s in SamplesOf(rows, pair) ==> s.bytes > 0 && s.duration >= MIN_WINDOW_NS
  {
    if rows != [] {
      SamplesAreReal(rows[..|rows| - 1], pair);
      PeersAreReal(rows[|rows| - 1], rows[|rows| - 1].peers, pair);
    }
  }

  lemma {:induction false} PeersAreReal(row: Row, peers: seq<PeerBytes>, pair: Pair)
    ensures forall s :: s in FromPeers(row, peers, pair) ==> s.bytes > 0 && s.duration >= MIN_WINDOW_NS
  {
    if peers != [] {
      PeersAreReal(row, peers[..|peers| - 1], pair);
    }
  }

  lemma RealRate(s: Sample)
    requires s.bytes > 0 && s.duration > 0
    ensures Rate(s) > 0.0
  {
    assert Rate(s) * s.duration as real == BitsOf(s.bytes);
    assert BitsOf(s.bytes) > 0.0;
    if Rate(s) <= 0.0 {
      TimesNotPositive(Rate(s), s.duration);
    }
  }

  /** Every pair that is reported has a positive minimum, and its average lies between its extremes. */
  lemma PairStatsAreOrdered(rows: seq<Row>, pair: Pair, stats: Stats)
    requires var samples := SamplesOf(rows, pair);
             samples != [] && |samples| <= U64_MAX && AreStats(samples, stats)
    ensures 0.0 < stats.min <= stats.max && stats.avg <= stats.max
    ensures Bytes(SamplesOf(rows, pair)) <= U64_MAX ==> stats.min <= stats.avg
  {
    hide SamplesOf, Rate, Bps, Bytes, Duration;
    var samples := SamplesOf(rows, pair);
    SamplesAreReal(rows, pair);
    assert Positive(samples) by {
      forall i | 0 <= i < |samples| ensures samples[i].duration > 0 {
        assert samples[i] in samples;
      }
    }
    MinAvgMax(samples, stats);
    var i :| 0 <= i < |samples| && Rate(samples[i]) == stats.min;
    assert samples[i] in samples;
    RealRate(samples[i]);
    assert Rate(samples[i]) <= stats.max;
  }

  // ---------- totals per second ----------

  function Sum(values: seq<real>): real {
    if values == [] then 0.0 else Sum(values[..|values| - 1]) + values[|values| - 1]
  }

  lemma {:induction false} SumBetween(values: seq<real>, low: real, high: real)
    requires forall i :: 0 <= i < |values| ==> low <= values[i] <= high
    ensures Bits(low, |values|) <= Sum(values) <= Bits(high, |values|)
  {
    hide Bits;
    if values == [] {
      NoBits(low, high);
    } else {
      var n := |values| - 1;
      SumBetween(values[..n], low, high);
      BitsAdd(low, n, 1, 0, 0);
      BitsAdd(high, n, 1, 0, 0);
      OneBit(low);
      OneBit(high);
    }
  }

  lemma OneBit(x: real)
    ensures Bits(x, 1) == x
  {
  }

  lemma MeanBetween(sum: real, n: nat, low: real, high: real)
    requires n > 0 && Bits(low, n) <= sum <= Bits(high, n)
    ensures low <= sum / n as real <= high
  {
    var mean := sum / n as real;
    assert mean * n as real == sum;
    if mean < low {
      LessTimes(mean, low, n);
    } else if high < mean {
      LessTimes(high, mean, n);
    }
  }

  /** The folds over the per-second sums; the maximum starts from zero, the minimum from infinity. */
  ghost predicate AreTotals(values: seq<real>, t: Stats) {
    && (forall i :: 0 <= i < |values| ==> t.min <= values[i] <= t.max)
    && (exists i :: 0 <= i < |values| && values[i] == t.min)
    && 0.0 <= t.max && (t.max == 0.0 || exists i :: 0 <= i < |values| && values[i] == t.max)
    && t.windows == |values| > 0 && t.avg == Sum(values) / t.windows as real
  }

  method Totals(values: seq<real>) returns (t: Stats)
    requires values != []
    ensures AreTotals(values, t) && t.min <= t.avg <= t.max
  {
    var minBps: Option<real> := None;
    var maxBps, sum := 0.0, 0.0;
    ghost var low, high := 0, 0;
    for i := 0 to |values|
      invariant minBps.None? <==> i == 0
      invariant forall k :: 0 <= k < i ==> minBps.value <= values[k] <= maxBps
      invariant i > 0 ==> 0 <= low < i && values[low] == minBps.value
      invariant 0.0 <= maxBps && (maxBps == 0.0 || (0 <= high < i && values[high] == maxBps))
      invariant sum == Sum(values[..i])
    {
      if minBps.None? || values[i] < minBps.value {
        minBps := Some(values[i]);
        low := i;
      }
      if values[i] > maxBps {
        maxBps := values[i];
        high := i;
      }
      sum := sum + values[i];
      assert values[..i + 1][..i] == values[..i];
    }
    assert values[..|values|] == values;
    SumBetween(values, minBps.value, maxBps);
    MeanBetween(sum, |values|, minBps.value, maxBps);
    t := Stats(minBps.value, maxBps, sum / |values| as real, |values|);
  }

  /** The values of a map in the order of its keys, which are all below the bound. */
  function Values(m: map<nat, real>, bound: nat): seq<real> {
    if bound == 0 then []
    else Values(m, bound - 1) + if bound - 1 in m then [m[bound - 1]] else []
  }

  /** The rates of all counted rows, added up. */
  function TotalBps(rows: seq<Row>): real {
    if rows == [] then 0.0
    else
      var row := rows[|rows| - 1];
      TotalBps(rows[..|rows| - 1]) + if InTotal(row) then row.bps else 0.0
  }

  function BucketsSum(rows: seq<Row>, bound: nat): real {
    if bound == 0 then 0.0 else BucketsSum(rows, bound - 1) + BucketSum(rows, bound - 1)
  }

  lemma {:induction false} ValuesSum(m: map<nat, real>, rows: seq<Row>, bound: nat)
    requires Pooled(m, rows)
    ensures Sum(Values(m, bound)) == BucketsSum(rows, bound)
  {
    hide InBucket, BucketSum;
    if bound > 0 {
      ValuesSum(m, rows, bound - 1);
      assert Looked(m, bound - 1, 0.0) == BucketSum(rows, bound - 1);
      var before := Values(m, bound - 1);
      if bound - 1 in m {
        assert Values(m, bound)[..|before|] == before;
      } else {
        assert Values(m, bound) == before;
      }
    }
  }

  lemma {:induction false} BucketsSumOfNone(bound: nat)
    ensures BucketsSum([], bound) == 0.0
  {
    if bound > 0 {
      BucketsSumOfNone(bound - 1);
    }
  }

  lemma {:induction false} BucketsSumOneMore(rows: seq<Row>, bound: nat)
    requires rows != []
    ensures var row := rows[|rows| - 1];
            BucketsSum(rows, bound) ==
            BucketsSum(rows[..|rows| - 1], bound) + if InTotal(row) && Bucket(row) < bound then row.bps else 0.0
  {
    if bound > 0 {
      BucketsSumOneMore(rows, bound - 1);
    }
  }

  lemma {:induction false} BucketsSumIsTotal(rows: seq<Row>, bound: nat)
    requires forall i :: 0 <= i < |rows| ==> Bucket(rows[i]) < bound
    ensures BucketsSum(rows, bound) == TotalBps(rows)
  {
    if rows == [] {
      BucketsSumOfNone(bound);
    } else {
      BucketsSumIsTotal(rows[..|rows| - 1], bound);
      BucketsSumOneMore(rows, bound);
    }
  }

  /** Grouping by second loses and duplicates nothing: the sums of the seconds add up to all rates. */
  lemma BucketsConserve(m: map<nat, real>, rows: seq<Row>, bound: nat)
    requires Pooled(m, rows) && forall i :: 0 <= i < |rows| ==> Bucket(rows[i]) < bound
    ensures Sum(Values(m, bound)) == TotalBps(rows)
  {
    ValuesSum(m, rows, bound);
    BucketsSumIsTotal(rows, bound);
  }

  const SECONDS: nat := U64_MAX / 1_000_000_000 + 1

  /** The seconds in which some row counted. */
  ghost function Seconds(rows: seq<Row>): set<nat> {
    set b: nat | b < SECONDS && InBucket(rows, b)
  }

  function KeysBelow(m: map<nat, real>, bound: nat): set<nat> {
    set b | b in m && b < bound
  }

  lemma {:induction false} ValuesAreAll(m: map<nat, real>, bound: nat)
    ensures forall b :: b in m && b < bound ==> m[b] in Values(m, bound)
    ensures forall v :: v in Values(m, bound) ==> exists b :: b in m && b < bound && m[b] == v
    ensures |Values(m, bound)| == |KeysBelow(m, bound)|
  {
    hide KeysBelow;
    KeysBelowStep(m, bound);
    if bound > 0 {
      ValuesAreAll(m, bound - 1);
      var before := Values(m, bound - 1);
      if bound - 1 in m {
        assert Values(m, bound) == before + [m[bound - 1]];
      } else {
        assert Values(m, bound) == before;
      }
    }
  }

  lemma KeysBelowStep(m: map<nat, real>, bound: nat)
    ensures bound == 0 ==> KeysBelow(m, bound) == {}
    ensures bound > 0 ==> |KeysBelow(m, bound)| == |KeysBelow(m, bound - 1)| + if bound - 1 in m then 1 else 0
  {
    if bound > 0 {
      var before := KeysBelow(m, bound - 1);
      assert KeysBelow(m, bound) == if bound - 1 in m then before + {bound - 1} else before;
    }
  }

  /** What the report says of all hosts together, second by second. */
  ghost predicate AreSecondTotals(rows: seq<Row>, t: Stats) {
    && t.min <= t.avg <= t.max
    && (forall b :: InBucket(rows, b) ==> t.min <= BucketSum(rows, b) <= t.max)
    && (exists b :: InBucket(rows, b) && BucketSum(rows, b) == t.min)
    && (t.max == 0.0 || exists b :: InBucket(rows, b) && BucketSum(rows, b) == t.max)
    && t.windows == |Seconds(rows)| > 0 && t.avg == TotalBps(rows) / t.windows as real
  }

  lemma BucketInRange(row: Row)
    ensures Bucket(row) < SECONDS
  {
  }

  lemma TotalsOfBuckets(buckets: map<nat, real>, rows: seq<Row>, t: Stats)
    requires Pooled(buckets, rows) && AreTotals(Values(buckets, SECONDS), t) && t.min <= t.avg <= t.max
    ensures AreSecondTotals(rows, t)
  {
    hide BucketSum, Values, Sum, TotalBps, Bucket;
    forall i | 0 <= i < |rows| ensures Bucket(rows[i]) < SECONDS {
      BucketInRange(rows[i]);
    }
    BucketsConserve(buckets, rows, SECONDS);
    ValuesAreAll(buckets, SECONDS);
    forall b: nat | InBucket(rows, b) ensures b < SECONDS && b in buckets && buckets[b] == BucketSum(rows, b) {
      assert Looked(buckets, b, 0.0) == BucketSum(rows, b);
    }
    assert KeysBelow(buckets, SECONDS) == Seconds(rows);
    var values := Values(buckets, SECONDS);
    var i :| 0 <= i < |values| && values[i] == t.min;
    assert values[i] in values;
    if t.max != 0.0 {
      var j :| 0 <= j < |values| && values[j] == t.max;
      assert values[j] in values;
    }
  }

  lemma {:induction false} CountedInSomeBucket(rows: seq<Row>)
    ensures TotalSamples(rows) != [] <==> exists i :: 0 <= i < |rows| && InTotal(rows[i])
  {
    if rows != [] {
      var n := |rows| - 1;
      CountedInSomeBucket(rows[..n]);
      assert rows[..n] + [rows[n]] == rows;
    }
  }

  lemma BucketsNotEmpty(buckets: map<nat, real>, rows: seq<Row>)
    requires Pooled(buckets, rows) && TotalSamples(rows) != []
    ensures Values(buckets, SECONDS) != []
  {
    hide Values, BucketSum, TotalSamples, Bucket;
    CountedInSomeBucket(rows);
    var i :| 0 <= i < |rows| && InTotal(rows[i]);
    BucketInRange(rows[i]);
    assert InBucket(rows, Bucket(rows[i]));
    assert Bucket(rows[i]) in buckets;
    ValuesAreAll(buckets, SECONDS);
  }

  datatype Report = Report(pairs: map<Pair, Stats>, total: Stats)

  /**
   The report has every pair with a sample and its statistics; the totals are always those of the
   seconds, never those of the single windows. There is no report if no window counts.
   */
  method Load(rows: seq<Row>) returns (r: Option<Report>)
    ensures r.None? <==> TotalSamples(rows) == []
    ensures r.Some? ==> AreSecondTotals(rows, r.value.total)
    ensures r.Some? ==> forall pair :: pair in r.value.pairs <==> SamplesOf(rows, pair) != []
    ensures r.Some? ==> forall pair :: pair in r.value.pairs ==> AreStats(SamplesOf(rows, pair), r.value.pairs[pair])
  {
    hide Pooled, AreTotals, AreStats, SamplesOf, Values, AreSecondTotals, TotalSamples;
    var samples, buckets, totals := Group(rows);
    var pairs: map<Pair, Stats> := map[];
    var todo := samples.Keys;
    while todo != {}
      invariant todo <= samples.Keys && pairs.Keys == samples.Keys - todo
      invariant forall pair :: pair in pairs ==> AreStats(SamplesOf(rows, pair), pairs[pair])
    {
      var pair :| pair in todo;
      var stats := FromSamples(samples[pair]);
      pairs := pairs[pair := stats.value];
      todo := todo - {pair};
    }
    var all := FromSamples(totals);
    if all.None? {
      return None;
    }
    BucketsNotEmpty(buckets, rows);
    var t := Totals(Values(buckets, SECONDS));
    TotalsOfBuckets(buckets, rows, t);
    r := Some(Report(pairs, t));
  }

  // ---------- the worst pairs ----------

  datatype PairStats = PairStats(src: string, dst: string, stats: Stats)

  predicate Worse(a: PairStats, b: PairStats) {
    a.stats.avg < b.stats.avg || (a.stats.avg == b.stats.avg && a.stats.min < b.stats.min)
  }

  ghost predicate WorstFirst(ps: seq<PairStats>) {
    forall i, j :: 0 <= i < j < |ps| ==> !Worse(ps[j], ps[i])
  }

  predicate Tied(a: PairStats, b: PairStats) {
    !Worse(a, b) && !Worse(b, a)
  }

  function Insert(p: PairStats, ps: seq<PairStats>): seq<PairStats> {
    if ps == [] || !Worse(ps[0], p) then [p] + ps else [ps[0]] + Insert(p, ps[1..])
  }

  /** A stable sort, worst pair first. */
  function Sorted(ps: seq<PairStats>): seq<PairStats> {
    if ps == [] then [] else Insert(ps[0], Sorted(ps[1..]))
  }

  /** The pairs tied with one, in their order. */
  function TiedWith(p: PairStats, ps: seq<PairStats>): seq<PairStats> {
    if ps == [] then [] else (if Tied(ps[0], p) then [ps[0]] else []) + TiedWith(p, ps[1..])
  }

  lemma {:induction false} InsertOrders(p: PairStats, ps: seq<PairStats>)
    requires WorstFirst(ps)
    ensures WorstFirst(Insert(p, ps)) && multiset(Insert(p, ps)) == multiset(ps) + multiset{p}
  {
    hide WorstFirst, Worse;
    if ps == [] || !Worse(ps[0], p) {
      FirstInOrder(p, ps);
      assert multiset([p] + ps) == multiset([p]) + multiset(ps);
    } else {
      RestInOrder(ps);
      InsertOrders(p, ps[1..]);
      var rest := Insert(p, ps[1..]);
      assert multiset([ps[0]] + ps[1..]) == multiset([ps[0]]) + multiset(ps[1..]);
      assert ps == [ps[0]] + ps[1..];
      forall q | q in rest ensures !Worse(q, ps[0]) {
        assert q in multiset(rest);
        assert q == p || q in ps[1..];
        HeadIsWorst(ps, q);
        NotBothWorse(ps[0], p);
      }
      HeadInOrder(ps[0], rest);
    }
  }

  lemma NotBothWorse(a: PairStats, b: PairStats)
    ensures !(Worse(a, b) && Worse(b, a))
  {
  }

  lemma RestInOrder(ps: seq<PairStats>)
    requires ps != [] && WorstFirst(ps)
    ensures WorstFirst(ps[1..])
  {
    hide Worse;
  }

  lemma HeadIsWorst(ps: seq<PairStats>, q: PairStats)
    requires ps != [] && WorstFirst(ps)
    ensures q in ps[1..] ==> !Worse(q, ps[0])
  {
    hide Worse;
  }

  lemma HeadInOrder(p: PairStats, rest: seq<PairStats>)
    requires WorstFirst(rest) && forall q :: q in rest ==> !Worse(q, p)
    ensures WorstFirst([p] + rest)
  {
    hide Worse;
  }

  /** Put before a list whose head is not worse, a pair is in order: what follows is no worse than the head. */
  lemma FirstInOrder(p: PairStats, ps: seq<PairStats>)
    requires WorstFirst(ps) && (ps == [] || !Worse(ps[0], p))
    ensures WorstFirst([p] + ps)
  {
    forall q | q in ps ensures !Worse(q, p) {
      var i :| 0 <= i < |ps| && ps[i] == q;
      assert i > 0 ==> !Worse(ps[i], ps[0]);
    }
    HeadInOrder(p, ps);
  }

  lemma {:induction false} InsertIsStable(p: PairStats, ps: seq<PairStats>, q: PairStats)
    ensures TiedWith(q, Insert(p, ps)) == TiedWith(q, [p] + ps)
  {
    assert ([p] + ps)[1..] == ps;
    if !(ps == [] || !Worse(ps[0], p)) {
      InsertIsStable(p, ps[1..], q);
      assert ([p] + ps[1..])[1..] == ps[1..];
      assert Insert(p, ps)[1..] == Insert(p, ps[1..]);
    }
  }

  /** Sorted is a rearrangement, worst first, that keeps the order of tied pairs. */
  lemma {:induction false} SortedIsStableSort(ps: seq<PairStats>, q: PairStats)
    ensures WorstFirst(Sorted(ps)) && multiset(Sorted(ps)) == multiset(ps)
    ensures TiedWith(q, Sorted(ps)) == TiedWith(q, ps)
  {
    if ps != [] {
      SortedIsStableSort(ps[1..], q);
      InsertOrders(ps[0], Sorted(ps[1..]));
      InsertIsStable(ps[0], Sorted(ps[1..]), q);
      assert ps == [ps[0]] + ps[1..];
      assert ([ps[0]] + Sorted(ps[1..]))[1..] == Sorted(ps[1..]);
    }
  }

  lemma FirstAreWorst(all: seq<PairStats>, n: nat)
    requires WorstFirst(all) && n <= |all|
    ensures WorstFirst(all[..n]) && multiset(all) == multiset(all[..n]) + multiset(all[n..])
    ensures forall o, w :: o in all[n..] && w in all[..n] ==> !Worse(o, w)
  {
    hide Worse;
    assert all == all[..n] + all[n..];
    forall o, w | o in all[n..] && w in all[..n] ensures !Worse(o, w) {
      var i :| 0 <= i < n && all[..n][i] == w;
      var j :| 0 <= j < |all[n..]| && all[n..][j] == o;
      assert all[i] == w && all[n + j] == o;
    }
  }

  /** The five worst pairs, or all of them; no pair that is left out is worse than one listed. */
  method WorstPairs(ps: seq<PairStats>) returns (worst: seq<PairStats>)
    ensures |worst| == (if |ps| < 5 then |ps| else 5) && worst <= Sorted(ps)
    ensures WorstFirst(worst) && multiset(worst) <= multiset(ps)
    ensures forall o, w :: o in multiset(ps) - multiset(worst) && w in worst ==> !Worse(o, w)
    ensures forall o, w :: o in multiset(ps) - multiset(worst) && w in worst ==>
              w.stats.avg < o.stats.avg || (w.stats.avg == o.stats.avg && w.stats.min <= o.stats.min)
    ensures forall i, j :: 0 <= i < j < |worst| ==>
              worst[i].stats.avg < worst[j].stats.avg
              || (worst[i].stats.avg == worst[j].stats.avg && worst[i].stats.min <= worst[j].stats.min)
  {
    hide Sorted;
    worst := Sorted(ps);
    SortedHasAll(ps);
    FirstAreWorst(worst, if |ps| < 5 then |ps| else 5);
    if |worst| > 5 {
      worst := worst[..5];
    } else {
      assert worst[..|worst|] == worst;
    }
  }

  lemma SortedHasAll(ps: seq<PairStats>)
    ensures WorstFirst(Sorted(ps)) && multiset(Sorted(ps)) == multiset(ps) && |Sorted(ps)| == |ps|
  {
    if ps != [] {
      SortedIsStableSort(ps, ps[0]);
    }
    assert |Sorted(ps)| == |multiset(Sorted(ps))|;
  }
}
