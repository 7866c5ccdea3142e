/**
 One pass of a UDP worker over its payload: the payload is cut into slices,
 each slice gets a header with the next sequence number, and the datagrams are
 sent one by one from a packet buffer that is reused.
 */
module UdpDatagram {
  import opened Common
  import opened BigEndian

  const UDP_HDR: nat := 20
  const UDP_PKT: nat := 8192
  const UDP_MAGIC: u32 := 0x5446_5031
  const CHUNK: nat := UDP_PKT - UDP_HDR

  // ---------- header ----------

  datatype Header = Header(senderId: u32, seqno: u64, len: u32)

  function HeaderBytes(h: Header): (bytes: seq<byte>)
    ensures |bytes| == UDP_HDR
  {
    ToBytes(UDP_MAGIC, 4) + ToBytes(h.senderId, 4) + ToBytes(h.seqno, 8) + ToBytes(h.len, 4)
  }

  method Put(buf: array<byte>, at: nat, bytes: seq<byte>)
    requires at + |bytes| <= buf.Length
    modifies buf
    ensures buf[..] == old(buf[..at]) + bytes + old(buf[at + |bytes|..])
  {
    forall i | 0 <= i < |bytes| {
      buf[at + i] := bytes[i];
    }
  }

  method WriteHdr(buf: array<byte>, h: Header)
    requires buf.Length >= UDP_HDR
    modifies buf
    ensures buf[..UDP_HDR] == HeaderBytes(h) && buf[UDP_HDR..] == old(buf[UDP_HDR..])
  {
    hide ToBytes;
    ghost var rest := buf[UDP_HDR..];
    Put(buf, 0, ToBytes(UDP_MAGIC, 4));
    assert buf[..4] == ToBytes(UDP_MAGIC, 4) && buf[UDP_HDR..] == rest;
    Put(buf, 4, ToBytes(h.senderId, 4));
    assert buf[..8] == ToBytes(UDP_MAGIC, 4) + ToBytes(h.senderId, 4) && buf[UDP_HDR..] == rest;
    Put(buf, 8, ToBytes(h.seqno, 8));
    assert buf[..16] == ToBytes(UDP_MAGIC, 4) + ToBytes(h.senderId, 4) + ToBytes(h.seqno, 8);
    assert buf[UDP_HDR..] == rest;
    Put(buf, 16, ToBytes(h.len, 4));
    assert buf[..UDP_HDR] == HeaderBytes(h) && buf[UDP_HDR..] == rest;
  }

  function ReadHdr(buf: seq<byte>): Option<Header> {
    if |buf| < UDP_HDR then None
    else if FromBytes(buf[0..4]) != UDP_MAGIC then None
    else
      Widths();
      Some(Header(FromBytes(buf[4..8]), FromBytes(buf[8..16]), FromBytes(buf[16..20])))
  }

  /** Where each field is on the wire. */
  lemma HeaderParts(h: Header, rest: seq<byte>)
    ensures var buf := HeaderBytes(h) + rest;
            && buf[0..4] == ToBytes(UDP_MAGIC, 4) && buf[4..8] == ToBytes(h.senderId, 4)
            && buf[8..16] == ToBytes(h.seqno, 8) && buf[16..20] == ToBytes(h.len, 4)
  {
    hide ToBytes;
  }

  /** Reading what was written gives the header back, whatever follows it. */
  lemma ReadAfterWrite(h: Header, rest: seq<byte>)
    ensures ReadHdr(HeaderBytes(h) + rest) == Some(h)
  {
    hide ToBytes, FromBytes, Pow256, HeaderBytes;
    Widths();
    FromToBytes(UDP_MAGIC, 4);
    FromToBytes(h.senderId, 4);
    FromToBytes(h.seqno, 8);
    FromToBytes(h.len, 4);
    HeaderParts(h, rest);
  }

  /** A buffer that reads as a header starts with exactly that header's bytes. */
  lemma WriteAfterRead(buf: seq<byte>)
    ensures ReadHdr(buf).Some? <==> |buf| >= UDP_HDR && buf[..4] == ToBytes(UDP_MAGIC, 4)
    ensures ReadHdr(buf).Some? ==> buf[..UDP_HDR] == HeaderBytes(ReadHdr(buf).value)
  {
    hide ToBytes, FromBytes, Pow256;
    Widths();
    FromToBytes(UDP_MAGIC, 4);
    if |buf| >= UDP_HDR {
      ToFromBytes(buf[0..4]);
      ToFromBytes(buf[4..8]);
      ToFromBytes(buf[8..16]);
      ToFromBytes(buf[16..20]);
      assert buf[0..4] == buf[..4];
      assert buf[..UDP_HDR] == buf[0..4] + buf[4..8] + buf[8..16] + buf[16..20];
    }
  }

  // ---------- datagrams ----------

  /** The header of a datagram the receiver accepts: its length field must match what arrived. */
  function Accept(dgram: seq<byte>): Option<Header> {
    match ReadHdr(dgram)
    case None => None
    case Some(h) => if h.len == |dgram| - UDP_HDR then Some(h) else None
  }

  /** Exactly the datagrams that begin with a header giving their own payload's length are accepted. */
  lemma AcceptedIff(dgram: seq<byte>, h: Header)
    ensures Accept(dgram) == Some(h) <==>
            |dgram| >= UDP_HDR && dgram[..UDP_HDR] == HeaderBytes(h) && |dgram| == UDP_HDR + h.len
  {
    hide ToBytes, FromBytes, Pow256, HeaderBytes, ReadHdr;
    WriteAfterRead(dgram);
    if |dgram| >= UDP_HDR && dgram[..UDP_HDR] == HeaderBytes(h) {
      ReadAfterWrite(h, dgram[UDP_HDR..]);
      assert dgram == HeaderBytes(h) + dgram[UDP_HDR..];
    }
  }

  function Min(a: nat, b: nat): nat {
    if a < b then a else b
  }

  function Max(a: nat, b: nat): nat {
    if a < b then b else a
  }

  /** The k-th slice of the payload; empty past its end. */
  function Slice(payload: seq<byte>, k: nat): (slice: seq<byte>)
    ensures |slice| <= CHUNK
  {
    payload[Min(k * CHUNK, |payload|)..Min((k + 1) * CHUNK, |payload|)]
  }

  function Datagram(senderId: u32, seqno: u64, slice: seq<byte>): seq<byte>
    requires |slice| <= CHUNK
  {
    HeaderBytes(Header(senderId, seqno, |slice|)) + slice
  }

  /** How many datagrams a whole payload takes. */
  function DatagramCount(len: nat): nat {
    (len + CHUNK - 1) / CHUNK
  }

  lemma DatagramCountBounds(len: nat)
    ensures DatagramCount(len) * CHUNK >= len
    ensures len > 0 ==> (DatagramCount(len) - 1) * CHUNK < len
    ensures len == 0 ==> DatagramCount(len) == 0
  {
  }

  lemma DatagramAccepted(senderId: u32, seqno: u64, slice: seq<byte>)
    requires |slice| <= CHUNK
    ensures UDP_HDR <= |Datagram(senderId, seqno, slice)| <= UDP_PKT
    ensures Accept(Datagram(senderId, seqno, slice)) == Some(Header(senderId, seqno, |slice|))
    ensures Datagram(senderId, seqno, slice)[UDP_HDR..] == slice
  {
    ReadAfterWrite(Header(senderId, seqno, |slice|), slice);
  }

  /** The first k slices one after the other. */
  function Joined(payload: seq<byte>, k: nat): seq<byte> {
    if k == 0 then [] else Joined(payload, k - 1) + Slice(payload, k - 1)
  }

  lemma {:induction false} JoinedIsPrefix(payload: seq<byte>, k: nat)
    ensures Joined(payload, k) == payload[..Min(k * CHUNK, |payload|)]
  {
    if k > 0 {
      JoinedIsPrefix(payload, k - 1);
    }
  }

  /** The payloads of the datagrams of one pass are the payload, in order and complete. */
  lemma SlicesMakeThePayload(payload: seq<byte>)
    ensures Joined(payload, DatagramCount(|payload|)) == payload
  {
    JoinedIsPrefix(payload, DatagramCount(|payload|));
    DatagramCountBounds(|payload|);
  }

  /** Writes the header and then the slice into the packet buffer. */
  method BuildPacket(pkt: array<byte>, senderId: u32, seqno: u64, slice: seq<byte>)
    requires pkt.Length == UDP_PKT && |slice| <= CHUNK
    modifies pkt
    ensures pkt[..UDP_HDR + |slice|] == Datagram(senderId, seqno, slice)
  {
    hide HeaderBytes;
    WriteHdr(pkt, Header(senderId, seqno, |slice|));
    Put(pkt, UDP_HDR, slice);
    assert pkt[..UDP_HDR] == HeaderBytes(Header(senderId, seqno, |slice|));
  }

  /** A pass ends with all its datagrams sent, or earlier; only then can a failed send have ended it. */
  predicate PassEnds(len: nat, sent: nat, dropped: bool) {
    sent <= DatagramCount(len) && (dropped ==> sent < DatagramCount(len))
  }

  /** The bytes and packets counted for a pass that sent that many datagrams. */
  function PassCounts(len: nat, sent: nat): (nat, nat) {
    if sent == DatagramCount(len) then (len, Max(sent, 1)) else (0, 0)
  }

  /**
   One pass. The k-th attempt is preceded by the cancellation check cancelled(k),
   takes the number seqnos(k) from the shared counter, and is written to the
   socket with the outcome sends(k). What is counted as sent is `bytes` and
   `packets`: the payload and its datagrams, or nothing if the pass was cut short.
   */
  method SendPass(senderId: u32, payload: seq<byte>, pkt: array<byte>,
                  seqnos: nat -> u64, cancelled: nat -> bool, sends: nat -> bool)
    returns (sent: seq<seq<byte>>, bytes: nat, packets: nat, dropped: bool)
    requires pkt.Length == UDP_PKT
    modifies pkt
    ensures |sent| <= DatagramCount(|payload|)
    ensures forall k :: 0 <= k < |sent| ==> sent[k] == Datagram(senderId, seqnos(k), Slice(payload, k))
    ensures forall k :: 0 <= k < |sent| ==> !cancelled(k) && sends(k)
    ensures PassEnds(|payload|, |sent|, dropped) && (bytes, packets) == PassCounts(|payload|, |sent|)
    ensures |sent| < DatagramCount(|payload|) ==> cancelled(|sent|) != dropped && (dropped ==> !sends(|sent|))
  {
    hide Datagram, DatagramCount;
    DatagramCountBounds(|payload|);
    var offset := 0;
    sent, bytes, packets, dropped := [], 0, 0, false;
    var writeOk := true;
    while offset < |payload|
      invariant offset == Min(|sent| * CHUNK, |payload|)
      invariant |sent| <= DatagramCount(|payload|)
      invariant forall k :: 0 <= k < |sent| ==> sent[k] == Datagram(senderId, seqnos(k), Slice(payload, k))
      invariant forall k :: 0 <= k < |sent| ==> !cancelled(k) && sends(k)
      invariant writeOk && !dropped
      invariant offset < |payload| ==> |sent| < DatagramCount(|payload|)
      decreases |payload| - offset
    {
      if cancelled(|sent|) {
        writeOk := false;
        break;
      }
      var n := Min(|payload| - offset, CHUNK);
      var slice := payload[offset..offset + n];
      assert slice == Slice(payload, |sent|);
      BuildPacket(pkt, senderId, seqnos(|sent|), slice);
      if sends(|sent|) {
        sent := sent + [pkt[..UDP_HDR + n]];
        offset := offset + n;
      } else {
        dropped := true;
        writeOk := false;
        break;
      }
    }
    if writeOk && offset == |payload| {
      bytes, packets := |payload|, Max(DatagramCount(|payload|), 1);
    }
  }

  /** Every datagram of a pass fits a packet and is accepted; a completed pass delivers the payload. */
  lemma PassIsAccepted(senderId: u32, payload: seq<byte>, seqnos: nat -> u64, sent: seq<seq<byte>>, k: nat)
    requires k < |sent| && forall i :: 0 <= i < |sent| ==> sent[i] == Datagram(senderId, seqnos(i), Slice(payload, i))
    ensures |sent[k]| <= UDP_PKT && Accept(sent[k]) == Some(Header(senderId, seqnos(k), |Slice(payload, k)|))
    ensures |sent| == DatagramCount(|payload|) ==> PayloadOf(sent) == payload
  {
    DatagramAccepted(senderId, seqnos(k), Slice(payload, k));
    PayloadIsJoined(senderId, payload, seqnos, sent);
    SlicesMakeThePayload(payload);
  }

  /** What is left of some datagrams when their headers are removed. */
  function PayloadOf(dgrams: seq<seq<byte>>): seq<byte> {
    if dgrams == [] then []
    else
      var last := dgrams[|dgrams| - 1];
      PayloadOf(dgrams[..|dgrams| - 1]) + if |last| >= UDP_HDR then last[UDP_HDR..] else []
  }

  lemma {:induction false} PayloadIsJoined(senderId: u32, payload: seq<byte>, seqnos: nat -> u64, sent: seq<seq<byte>>)
    requires forall i :: 0 <= i < |sent| ==> sent[i] == Datagram(senderId, seqnos(i), Slice(payload, i))
    ensures PayloadOf(sent) == Joined(payload, |sent|)
  {
    hide Datagram, Accept, Slice;
    if sent != [] {
      PayloadIsJoined(senderId, payload, seqnos, sent[..|sent| - 1]);
      DatagramAccepted(senderId, seqnos(|sent| - 1), Slice(payload, |sent| - 1));
    }
  }
}
