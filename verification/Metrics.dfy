/** The five counters of a peer, differences of snapshots, and the window built from them. */
module Metrics {
  import opened Common

  datatype Field = BytesSent | BytesRecv | PacketsSent | PacketsRecv | PacketsDropped

  datatype Snap = Snap(bytesSent: nat, bytesRecv: nat, packetsSent: nat, packetsRecv: nat, packetsDropped: nat)
  {
    function Get(f: Field): nat {
      match f
      case BytesSent => bytesSent
      case BytesRecv => bytesRecv
      case PacketsSent => packetsSent
      case PacketsRecv => packetsRecv
      case PacketsDropped => packetsDropped
    }

    function Plus(f: Field, n: nat): (s: Snap)
      ensures forall g: Field :: s.Get(g) == Get(g) + if g == f then n else 0
    {
      match f
      case BytesSent => this.(bytesSent := bytesSent + n)
      case BytesRecv => this.(bytesRecv := bytesRecv + n)
      case PacketsSent => this.(packetsSent := packetsSent + n)
      case PacketsRecv => this.(packetsRecv := packetsRecv + n)
      case PacketsDropped => this.(packetsDropped := packetsDropped + n)
    }
  }

  const ZERO: Snap := Snap(0, 0, 0, 0, 0)

  // ---------- windows ----------

  datatype PeerMetrics = PeerMetrics(peer: string, counts: Snap)

  /** The counted part of a metric window; its rates, CPU and memory figures are not modelled. */
  datatype MetricWindow = MetricWindow(server: string, durationNs: u64, total: Snap, peers: seq<PeerMetrics>)

  predicate Active(s: Snap) {
    s.bytesSent > 0 || s.bytesRecv > 0 || s.packetsSent > 0 || s.packetsRecv > 0 || s.packetsDropped > 0
  }

  /** The entries of the first k peers; a peer without traffic gets none. */
  function PeerEntries(names: seq<string>, snaps: seq<Snap>, k: nat): seq<PeerMetrics>
    requires k <= |names| && k <= |snaps|
  {
    if k == 0 then []
    else
      PeerEntries(names, snaps, k - 1)
      + if Active(snaps[k - 1]) then [PeerMetrics(names[k - 1], snaps[k - 1])] else []
  }

  function BuildWindow(server: string, durationNs: u64, total: Snap, snaps: seq<Snap>, names: seq<string>)
    : MetricWindow
  {
    var n := if |names| < |snaps| then |names| else |snaps|;
    MetricWindow(server, durationNs, total, PeerEntries(names, snaps, n))
  }

  /** What a reader of a window takes for a peer: its entry, or nothing if it has none. */
  function Reported(entries: seq<PeerMetrics>, name: string): Snap {
    if entries == [] then ZERO
    else if entries[|entries| - 1].peer == name then entries[|entries| - 1].counts
    else Reported(entries[..|entries| - 1], name)
  }

  /** Leaving out silent peers loses nothing: every peer reads back with its own counts. */
  lemma {:induction false} EntriesReadBack(names: seq<string>, snaps: seq<Snap>, k: nat, p: nat)
    requires Distinct(names) && k <= |names| && k <= |snaps| && p < |names|
    ensures Reported(PeerEntries(names, snaps, k), names[p]) == if p < k then snaps[p] else ZERO
  {
    hide Distinct, Active, Reported;
    if k == 0 {
      NothingReported(names[p]);
    } else {
      var before, last := PeerEntries(names, snaps, k - 1), snaps[k - 1];
      EntriesReadBack(names, snaps, k - 1, p);
      DistinctAt(names, p, k - 1);
      SilentIsZero(last);
      ReportedAppend(before, PeerMetrics(names[k - 1], last), names[p]);
      assert before + [] == before;
    }
  }

  lemma NothingReported(name: string)
    ensures Reported([], name) == ZERO
  {
  }

  lemma SilentIsZero(s: Snap)
    ensures !Active(s) ==> s == ZERO
  {
  }

  lemma ReportedAppend(entries: seq<PeerMetrics>, e: PeerMetrics, name: string)
    ensures Reported(entries + [e], name) == if e.peer == name then e.counts else Reported(entries, name)
  {
    assert (entries + [e])[..|entries|] == entries;
  }

  lemma WindowReadsBack(server: string, durationNs: u64, total: Snap, snaps: seq<Snap>, names: seq<string>, p: nat)
    requires Distinct(names) && |snaps| == |names| && p < |names|
    ensures Reported(BuildWindow(server, durationNs, total, snaps, names).peers, names[p]) == snaps[p]
  {
    EntriesReadBack(names, snaps, |names|, p);
  }

  /** A window has an entry for a peer exactly if one of its counters moved. */
  lemma {:induction false} EntryIffTraffic(names: seq<string>, snaps: seq<Snap>, k: nat, p: nat)
    requires Distinct(names) && k <= |names| && k <= |snaps| && p < k
    ensures PeerMetrics(names[p], snaps[p]) in PeerEntries(names, snaps, k) <==>
            exists f: Field :: snaps[p].Get(f) > 0
  {
    hide Distinct, Active, PeerEntries;
    var s := snaps[k - 1];
    ActiveIff(s);
    EntriesGrow(names, snaps, k);
    if p == k - 1 {
      if PeerMetrics(names[p], s) in PeerEntries(names, snaps, k - 1) {
        EntriesAreNamed(names, snaps, k - 1, PeerMetrics(names[p], s));
        DistinctNames(names, k - 1);
      }
    } else {
      EntryIffTraffic(names, snaps, k - 1, p);
      DistinctAt(names, p, k - 1);
    }
  }

  lemma EntriesGrow(names: seq<string>, snaps: seq<Snap>, k: nat)
    requires 0 < k <= |names| && k <= |snaps|
    ensures PeerEntries(names, snaps, k) == PeerEntries(names, snaps, k - 1)
            + if Active(snaps[k - 1]) then [PeerMetrics(names[k - 1], snaps[k - 1])] else []
  {
  }

  lemma ActiveIff(s: Snap)
    ensures Active(s) <==> exists f: Field :: s.Get(f) > 0
  {
    assert s.Get(BytesSent) == s.bytesSent && s.Get(BytesRecv) == s.bytesRecv && s.Get(PacketsSent) == s.packetsSent;
    assert s.Get(PacketsRecv) == s.packetsRecv && s.Get(PacketsDropped) == s.packetsDropped;
  }

  lemma DistinctNames(names: seq<string>, k: nat)
    requires Distinct(names) && k < |names|
    ensures names[k] !in names[..k]
  {
  }

  lemma {:induction false} EntriesAreNamed(names: seq<string>, snaps: seq<Snap>, k: nat, e: PeerMetrics)
    requires k <= |names| && k <= |snaps| && e in PeerEntries(names, snaps, k)
    ensures e.peer in names[..k]
  {
    hide Active;
    if e in PeerEntries(names, snaps, k - 1) {
      EntriesAreNamed(names, snaps, k - 1, e);
      var i :| 0 <= i < k - 1 && names[i] == e.peer;
      assert names[..k][i] == e.peer;
    } else {
      assert names[..k][k - 1] == e.peer;
    }
  }

  /** The entries are in the order of the peers. */
  lemma {:induction false} EntriesInOrder(names: seq<string>, snaps: seq<Snap>, k: nat, i: nat, j: nat, p: nat, q: nat)
    requires Distinct(names) && k <= |names| && k <= |snaps| && i < j < |PeerEntries(names, snaps, k)|
    requires p < |names| && PeerEntries(names, snaps, k)[i].peer == names[p]
    requires q < |names| && PeerEntries(names, snaps, k)[j].peer == names[q]
    ensures p < q
  {
    if k == 0 {
      assert false;
    }
    hide Distinct, Active, PeerEntries;
    EntriesGrow(names, snaps, k);
    var before := PeerEntries(names, snaps, k - 1);
    assert before[i] == PeerEntries(names, snaps, k)[i];
    if j < |before| {
      assert before[j] == PeerEntries(names, snaps, k)[j];
      EntriesInOrder(names, snaps, k - 1, i, j, p, q);
    } else {
      EntriesAreNamed(names, snaps, k - 1, before[i]);
      var m :| 0 <= m < k - 1 && names[..k - 1][m] == before[i].peer;
      DistinctAt(names, m, p);
      DistinctAt(names, k - 1, q);
    }
  }

  /** What else a window carries. */
  lemma WindowCarries(server: string, durationNs: u64, total: Snap, snaps: seq<Snap>, names: seq<string>)
    ensures var w := BuildWindow(server, durationNs, total, snaps, names);
            w.server == server && w.durationNs == durationNs && w.total == total
  {
  }
}
