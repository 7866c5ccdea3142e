/**
 Loss accounting from UDP sequence numbers.

 The receiver keeps, per sender, the next sequence number it expects and
 reports the size of every jump. `Receive` folds that over the arrivals in
 whatever order, and with whatever repeats, the network produced.
 */
module UdpSequence {
  import opened Common

  function SaturatingSucc(x: u64): u64 {
    if x == U64_MAX then x else x + 1
  }

  /** The slot after one arrival, and the drops it reports. */
  function Note(slot: Option<u64>, seqno: u64): (Option<u64>, u64) {
    match slot
    case None => (Some(SaturatingSucc(seqno)), 0)
    case Some(exp) =>
      if seqno == exp then (Some(SaturatingSucc(exp)), 0)
      else if seqno > exp then (Some(SaturatingSucc(seqno)), seqno - exp)
      else (slot, 0)
  }

  class SeqSlot {
    var expected: Option<u64>

    constructor ()
      ensures expected == None
    {
      expected := None;
    }

    method NoteSeq(seqno: u64) returns (drop: u64)
      modifies this
      ensures (expected, drop) == Note(old(expected), seqno)
    {
      drop := 0;
      match expected {
        case None =>
          expected := Some(SaturatingSucc(seqno));
        case Some(exp) =>
          if seqno == exp {
            expected := Some(SaturatingSucc(exp));
          } else if seqno > exp {
            drop := seqno - exp;
            expected := Some(SaturatingSucc(seqno));
          }
      }
    }
  }

  datatype Receiver = Receiver(expected: Option<u64>, drops: nat)

  /** The receiver after a sequence of arrivals from one sender in one test. */
  function Receive(arrivals: seq<u64>): Receiver {
    if arrivals == [] then Receiver(None, 0)
    else
      var before := Receive(arrivals[..|arrivals| - 1]);
      var (expected, drop) := Note(before.expected, arrivals[|arrivals| - 1]);
      Receiver(expected, before.drops + drop)
  }

  /** Feeding the arrivals to a slot one by one computes `Receive`. */
  method ReceiveAll(arrivals: seq<u64>) returns (expected: Option<u64>, drops: nat)
    ensures Receiver(expected, drops) == Receive(arrivals)
  {
    var slot := new SeqSlot();
    drops := 0;
    for i := 0 to |arrivals|
      invariant Receiver(slot.expected, drops) == Receive(arrivals[..i])
    {
      assert arrivals[..i + 1][..i] == arrivals[..i];
      var drop := slot.NoteSeq(arrivals[i]);
      drops := drops + drop;
    }
    assert arrivals[..|arrivals|] == arrivals;
    expected := slot.expected;
  }

  // ---------- conservation ----------

  function Max(arrivals: seq<u64>): (m: u64)
    requires arrivals != []
    ensures m in arrivals && forall k :: 0 <= k < |arrivals| ==> arrivals[k] <= m
  {
    var last := arrivals[|arrivals| - 1];
    if |arrivals| == 1 then last
    else
      var m := Max(arrivals[..|arrivals| - 1]);
      if last > m then last else m
  }

  /** The arrivals that were larger than everything before them. */
  function Records(arrivals: seq<u64>): set<u64> {
    if arrivals == [] then {}
    else
      var init, last := arrivals[..|arrivals| - 1], arrivals[|arrivals| - 1];
      if init == [] || last > Max(init) then Records(init) + {last} else Records(init)
  }

  /** The numbers from lo up to but not including hi. */
  function Span(lo: int, hi: int): (span: set<int>)
    ensures forall v :: v in span <==> lo <= v < hi
    ensures lo <= hi ==> |span| == hi - lo
    decreases hi - lo
  {
    if lo < hi then Span(lo, hi - 1) + {hi - 1} else {}
  }

  /** The numbers from the first arrival to the largest that never arrived. */
  function Missing(arrivals: seq<u64>): set<int>
    requires arrivals != []
  {
    set v: int | v in Span(arrivals[0], Max(arrivals) + 1) && v !in arrivals
  }

  /** The numbers in that range that arrived only after a larger one. */
  function Late(arrivals: seq<u64>): set<int>
    requires arrivals != []
  {
    set v: int | v in Span(arrivals[0], Max(arrivals) + 1) && v in arrivals && v !in Records(arrivals)
  }

  /** The slot always holds the successor of the largest arrival, up to saturation. */
  lemma {:induction false} ExpectedFollowsMax(arrivals: seq<u64>)
    requires arrivals != []
    ensures Receive(arrivals).expected == Some(SaturatingSucc(Max(arrivals)))
  {
    if |arrivals| > 1 {
      ExpectedFollowsMax(arrivals[..|arrivals| - 1]);
    }
  }

  lemma {:induction false} RecordsInSpan(arrivals: seq<u64>)
    requires arrivals != []
    ensures forall v :: v in Records(arrivals) ==> arrivals[0] <= v <= Max(arrivals) && v in arrivals
    ensures Max(arrivals) in Records(arrivals)
  {
    if |arrivals| > 1 {
      RecordsInSpan(arrivals[..|arrivals| - 1]);
    }
  }

  /** Every number from the first arrival to the largest is either a record or a reported drop. */
  lemma {:induction false} DropsAndRecordsFillTheSpan(arrivals: seq<u64>)
    requires arrivals != []
    ensures Receive(arrivals).drops + |Records(arrivals)| == Max(arrivals) + 1 - arrivals[0]
  {
    var init, last := arrivals[..|arrivals| - 1], arrivals[|arrivals| - 1];
    if init == [] {
      assert Records(arrivals) == {last};
    } else {
      DropsAndRecordsFillTheSpan(init);
      ExpectedFollowsMax(init);
      RecordsInSpan(init);
      if last > Max(init) {
        assert last !in Records(init);
      }
    }
  }

  /** In terms of the slot itself the law holds exactly while the counter has not saturated. */
  lemma ConservationIffUnsaturated(arrivals: seq<u64>)
    requires arrivals != []
    ensures var r := Receive(arrivals);
            r.drops == r.expected.value - arrivals[0] - |Records(arrivals)| <==> U64_MAX !in arrivals
  {
    ExpectedFollowsMax(arrivals);
    DropsAndRecordsFillTheSpan(arrivals);
  }

  /** The reported drops are the numbers that never arrived plus those that arrived late. */
  lemma DropsAreMissingPlusLate(arrivals: seq<u64>)
    requires arrivals != []
    ensures Receive(arrivals).drops == |Missing(arrivals)| + |Late(arrivals)|
    ensures Receive(arrivals).drops == |Missing(arrivals)| <==> Late(arrivals) == {}
  {
    hide Receive, Records, Span, Max, Missing, Late;
    DropsAndRecordsFillTheSpan(arrivals);
    RecordsInSpan(arrivals);
    SpanSplits(arrivals);
  }

  lemma SpanSplits(arrivals: seq<u64>)
    requires arrivals != []
    requires forall v :: v in Records(arrivals) ==> arrivals[0] <= v <= Max(arrivals) && v in arrivals
    ensures |Missing(arrivals)| + |Late(arrivals)| + |Records(arrivals)| == Max(arrivals) + 1 - arrivals[0]
  {
    hide Records, Span, Max;
    var span := Span(arrivals[0], Max(arrivals) + 1);
    var missing, late := Missing(arrivals), Late(arrivals);
    var records := set v: int | v in Records(arrivals);
    assert records == Records(arrivals);
    assert span == missing + late + records;
    assert |missing + late| == |missing| + |late|;
  }

  predicate Increasing(arrivals: seq<u64>) {
    forall i, j :: 0 <= i < j < |arrivals| ==> arrivals[i] < arrivals[j]
  }

  lemma {:induction false} IncreasingAreRecords(arrivals: seq<u64>)
    requires Increasing(arrivals)
    ensures forall v :: v in arrivals ==> v in Records(arrivals)
  {
    if arrivals != [] {
      var init, last := arrivals[..|arrivals| - 1], arrivals[|arrivals| - 1];
      IncreasingAreRecords(init);
      assert init != [] ==> Max(init) < last;
      assert arrivals == init + [last];
    }
  }

  /** On an ordered network without repeats the count is exactly the loss. */
  lemma IncreasingDropsAreTheLoss(arrivals: seq<u64>)
    requires arrivals != [] && Increasing(arrivals)
    ensures Receive(arrivals).drops == |Missing(arrivals)|
  {
    IncreasingAreRecords(arrivals);
    DropsAreMissingPlusLate(arrivals);
  }
}
