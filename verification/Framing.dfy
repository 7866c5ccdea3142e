/**
 Control messages on a byte stream: a 4-byte big-endian length, then the encoded message.
 The encoding itself is a parameter: `encode` turns a message into bytes, `decode` reads them back.
 */
module Framing {
  import opened Common
  import opened BigEndian

  const MAX_FRAME: nat := 16 * 1024 * 1024

  datatype FrameError = TooLarge | BadLength | EndOfStream | Undecodable

  /** What one read does: its answer, and the bytes it leaves in the stream. */
  datatype Parsed<M> = Parsed(answer: Result<M, FrameError>, rest: seq<byte>)

  function Frame(payload: seq<byte>): (bytes: seq<byte>)
    ensures |bytes| == 4 + |payload|
  {
    ToBytes(|payload|, 4) + payload
  }

  function Parse<M>(decode: seq<byte> -> Option<M>, stream: seq<byte>): Parsed<M> {
    if |stream| < 4 then Parsed(Err(EndOfStream), [])
    else
      var len := FromBytes(stream[..4]);
      if len == 0 || len > MAX_FRAME then Parsed(Err(BadLength), stream[4..])
      else if |stream| < 4 + len then Parsed(Err(EndOfStream), [])
      else
        match decode(stream[4..4 + len])
        case None => Parsed(Err(Undecodable), stream[4 + len..])
        case Some(m) => Parsed(Ok(m), stream[4 + len..])
  }

  /** A byte stream: writers append to it, the reader consumes it from the front. */
  class Stream {
    var data: seq<byte>

    constructor ()
      ensures data == []
    {
      data := [];
    }

    method WriteU32(n: u32)
      modifies this
      ensures data == old(data) + ToBytes(n, 4)
    {
      data := data + ToBytes(n, 4);
    }

    method WriteAll(bytes: seq<byte>)
      modifies this
      ensures data == old(data) + bytes
    {
      data := data + bytes;
    }

    /** Takes exactly n bytes, or uses up the stream and fails. */
    method ReadExact(n: nat) returns (r: Result<seq<byte>, FrameError>)
      modifies this
      ensures r == if |old(data)| < n then Err(EndOfStream) else Ok(old(data)[..n])
      ensures data == if |old(data)| < n then [] else old(data)[n..]
    {
      if |data| < n {
        data := [];
        return Err(EndOfStream);
      }
      r := Ok(data[..n]);
      data := data[n..];
    }

    /** A message that is too long is refused before anything is written. */
    method WriteFrame<M>(encode: M -> seq<byte>, m: M) returns (r: Result<(), FrameError>)
      modifies this
      ensures r == if |encode(m)| > MAX_FRAME then Err(TooLarge) else Ok(())
      ensures data == if r.Ok? then old(data) + Frame(encode(m)) else old(data)
    {
      var bytes := encode(m);
      if |bytes| > MAX_FRAME {
        return Err(TooLarge);
      }
      WriteU32(|bytes|);
      WriteAll(bytes);
      r := Ok(());
    }

    method ReadFrame<M>(decode: seq<byte> -> Option<M>) returns (r: Result<M, FrameError>)
      modifies this
      ensures Parsed(r, data) == Parse(decode, old(data))
    {
      var prefix := ReadExact(4);
      if prefix.Err? {
        return Err(prefix.error);
      }
      var len := FromBytes(prefix.value);
      if len == 0 || len > MAX_FRAME {
        return Err(BadLength);
      }
      var buf := ReadExact(len);
      if buf.Err? {
        return Err(buf.error);
      }
      assert buf.value == old(data)[4..4 + len] && data == old(data)[4 + len..];
      var m := decode(buf.value);
      match m {
        case None => return Err(Undecodable);
        case Some(msg) => return Ok(msg);
      }
    }
  }

  // ---------- one frame ----------

  lemma LengthReadsBack(payload: seq<byte>, rest: seq<byte>)
    requires |payload| <= MAX_FRAME
    ensures var stream := Frame(payload) + rest;
            && FromBytes(stream[..4]) == |payload|
            && stream[4..4 + |payload|] == payload && stream[4 + |payload|..] == rest
  {
    Widths();
    FromToBytes(|payload|, 4);
    assert (Frame(payload) + rest)[..4] == ToBytes(|payload|, 4);
  }

  /**
   A frame the writer accepts is read back as the same message, with what follows left in place,
   exactly if the encoding is not empty; an empty one is written but refused on reading.
   */
  lemma ReadsBackIffNotEmpty<M>(encode: M -> seq<byte>, decode: seq<byte> -> Option<M>, m: M, rest: seq<byte>)
    requires |encode(m)| <= MAX_FRAME && decode(encode(m)) == Some(m)
    ensures Parse(decode, Frame(encode(m)) + rest) ==
            Parsed(if encode(m) != [] then Ok(m) else Err(BadLength), rest)
  {
    LengthReadsBack(encode(m), rest);
  }

  /** A frame that is cut short anywhere is never taken for a message. */
  lemma CutShortIsNoMessage<M>(decode: seq<byte> -> Option<M>, payload: seq<byte>, n: nat)
    requires 0 < |payload| <= MAX_FRAME && n < |Frame(payload)|
    ensures Parse(decode, Frame(payload)[..n]) == Parsed(Err(EndOfStream), [])
  {
    LengthReadsBack(payload, []);
    assert Frame(payload) + [] == Frame(payload);
    if n >= 4 {
      assert Frame(payload)[..n][..4] == Frame(payload)[..4];
    }
  }

  /** Whatever is read successfully was a well-formed frame at the front of the stream. */
  lemma ReadOnlyFrames<M>(decode: seq<byte> -> Option<M>, stream: seq<byte>) returns (payload: seq<byte>)
    requires Parse(decode, stream).answer.Ok?
    ensures 0 < |payload| <= MAX_FRAME && decode(payload) == Some(Parse(decode, stream).answer.value)
    ensures stream == Frame(payload) + Parse(decode, stream).rest
  {
    var len := FromBytes(stream[..4]);
    payload := stream[4..4 + len];
    ToFromBytes(stream[..4]);
    assert stream == stream[..4] + payload + stream[4 + len..];
  }

  // ---------- a connection ----------

  /** One direction of a connection: what is in flight, and what was sent and received so far. */
  datatype Wire<M> = Wire(flight: seq<byte>, sent: seq<M>, received: seq<M>, failed: bool)

  datatype Action<M> = Send(m: M) | Receive

  /**
   A writer sends a message (a refused one leaves no trace), or the reader reads one. A reader
   that finds less than a whole frame waits for more, so it changes nothing.
   */
  function Act<M>(encode: M -> seq<byte>, decode: seq<byte> -> Option<M>, w: Wire<M>, a: Action<M>): Wire<M> {
    match a
    case Send(m) =>
      if |encode(m)| > MAX_FRAME then w
      else Wire(w.flight + Frame(encode(m)), w.sent + [m], w.received, w.failed)
    case Receive =>
      var p := Parse(decode, w.flight);
      match p.answer
      case Ok(m) => Wire(p.rest, w.sent, w.received + [m], w.failed)
      case Err(EndOfStream) => w
      case Err(_) => Wire(p.rest, w.sent, w.received, true)
  }

  function Run<M>(encode: M -> seq<byte>, decode: seq<byte> -> Option<M>, actions: seq<Action<M>>): Wire<M> {
    if actions == [] then Wire([], [], [], false)
    else Act(encode, decode, Run(encode, decode, actions[..|actions| - 1]), actions[|actions| - 1])
  }

  /** The frames of several messages one after the other. */
  function Frames<M>(encode: M -> seq<byte>, ms: seq<M>): seq<byte> {
    if ms == [] then [] else Frame(encode(ms[0])) + Frames(encode, ms[1..])
  }

  lemma {:induction false} FramesAppend<M>(encode: M -> seq<byte>, ms: seq<M>, m: M)
    ensures Frames(encode, ms + [m]) == Frames(encode, ms) + Frame(encode(m))
  {
    if ms == [] {
      assert [m][1..] == [];
    } else {
      FramesAppend(encode, ms[1..], m);
      assert (ms + [m])[1..] == ms[1..] + [m];
    }
  }

  ghost predicate Faithful<M(!new)>(encode: M -> seq<byte>, decode: seq<byte> -> Option<M>) {
    forall m :: encode(m) != [] && decode(encode(m)) == Some(m)
  }

  ghost predicate Fits<M>(encode: M -> seq<byte>, ms: seq<M>) {
    forall k :: 0 <= k < |ms| ==> |encode(ms[k])| <= MAX_FRAME
  }

  /** The messages received are the first ones sent, and the rest are in flight as whole frames. */
  ghost predicate InOrder<M>(encode: M -> seq<byte>, w: Wire<M>) {
    && !w.failed && Fits(encode, w.sent) && |w.received| <= |w.sent|
    && w.received == w.sent[..|w.received|]
    && w.flight == Frames(encode, w.sent[|w.received|..])
  }

  lemma SendKeepsOrder<M(!new)>(encode: M -> seq<byte>, decode: seq<byte> -> Option<M>, w: Wire<M>, m: M)
    requires InOrder(encode, w)
    ensures InOrder(encode, Act(encode, decode, w, Send(m)))
  {
    hide Frames, Frame;
    if |encode(m)| <= MAX_FRAME {
      var next := Act(encode, decode, w, Send(m));
      var pending := w.sent[|w.received|..];
      FramesAppend(encode, pending, m);
      assert next.sent[|w.received|..] == pending + [m];
      assert next.sent[..|w.received|] == w.received;
    }
  }

  lemma ReceiveKeepsOrder<M(!new)>(encode: M -> seq<byte>, decode: seq<byte> -> Option<M>, w: Wire<M>)
    requires Faithful(encode, decode) && InOrder(encode, w)
    ensures InOrder(encode, Act(encode, decode, w, Receive))
    ensures var n := |Act(encode, decode, w, Receive).received|;
            n == |w.received| + if |w.received| < |w.sent| then 1 else 0
  {
    hide Frame, Parse;
    var n := |w.received|;
    if n == |w.sent| {
      NothingToRead(decode);
    } else {
      var m, later := w.sent[n], w.sent[n + 1..];
      assert w.sent[n..][0] == m && w.sent[n..][1..] == later;
      ReadsBackIffNotEmpty(encode, decode, m, Frames(encode, later));
      assert w.sent[..n + 1] == w.received + [m];
    }
  }

  lemma NothingToRead<M>(decode: seq<byte> -> Option<M>)
    ensures Parse(decode, []) == Parsed(Err(EndOfStream), [])
  {
  }

  /**
   However sending and receiving interleave, the messages received so far are a prefix of the
   messages sent, no read fails, and only whole frames of the remaining ones are in flight.
   */
  lemma {:induction false} EveryRunInOrder<M(!new)>(
    encode: M -> seq<byte>, decode: seq<byte> -> Option<M>, actions: seq<Action<M>>)
    requires Faithful(encode, decode)
    ensures InOrder(encode, Run(encode, decode, actions))
  {
    hide InOrder, Faithful, Act;
    if actions == [] {
      NewWireInOrder(encode);
    } else {
      EveryRunInOrder(encode, decode, actions[..|actions| - 1]);
      var w := Run(encode, decode, actions[..|actions| - 1]);
      match actions[|actions| - 1]
      case Send(m) => SendKeepsOrder(encode, decode, w, m);
      case Receive => ReceiveKeepsOrder(encode, decode, w);
    }
  }

  /** From any point of a run the next read gives the first message not received, or has to wait. */
  lemma NextRead<M(!new)>(encode: M -> seq<byte>, decode: seq<byte> -> Option<M>, actions: seq<Action<M>>)
    requires Faithful(encode, decode)
    ensures var w := Run(encode, decode, actions);
            && |w.received| <= |w.sent|
            && Parse(decode, w.flight).answer
               == if |w.received| < |w.sent| then Ok(w.sent[|w.received|]) else Err(EndOfStream)
  {
    hide Frame, Parse;
    EveryRunInOrder(encode, decode, actions);
    var w := Run(encode, decode, actions);
    var n := |w.received|;
    if n == |w.sent| {
      NothingToRead(decode);
    } else {
      assert w.sent[n..][0] == w.sent[n] && w.sent[n..][1..] == w.sent[n + 1..];
      ReadsBackIffNotEmpty(encode, decode, w.sent[n], Frames(encode, w.sent[n + 1..]));
    }
  }

  lemma NewWireInOrder<M>(encode: M -> seq<byte>)
    ensures InOrder(encode, Wire([], [], [], false))
  {
  }

  /** From any point of a run, as many reads as there are outstanding messages deliver them all. */
  lemma {:induction false} EverythingArrives<M(!new)>(
    encode: M -> seq<byte>, decode: seq<byte> -> Option<M>, w: Wire<M>, k: nat)
    requires Faithful(encode, decode) && InOrder(encode, w) && |w.received| + k == |w.sent|
    ensures ReadMany(encode, decode, w, k) == Wire([], w.sent, w.sent, false)
    decreases k
  {
    if k == 0 {
      assert w.sent[..|w.sent|] == w.sent;
      assert w.sent[|w.sent|..] == [];
    } else {
      ReceiveKeepsOrder(encode, decode, w);
      SentStays(encode, decode, w);
      EverythingArrives(encode, decode, Act(encode, decode, w, Receive), k - 1);
    }
  }

  lemma SentStays<M>(encode: M -> seq<byte>, decode: seq<byte> -> Option<M>, w: Wire<M>)
    ensures Act(encode, decode, w, Receive).sent == w.sent
  {
  }

  function ReadMany<M>(encode: M -> seq<byte>, decode: seq<byte> -> Option<M>, w: Wire<M>, k: nat): Wire<M>
    decreases k
  {
    if k == 0 then w else ReadMany(encode, decode, Act(encode, decode, w, Receive), k - 1)
  }

  /** The messages of a run that are short enough to be sent. */
  function Accepted<M>(encode: M -> seq<byte>, actions: seq<Action<M>>): seq<M> {
    if actions == [] then []
    else
      var last := actions[|actions| - 1];
      Accepted(encode, actions[..|actions| - 1])
      + if last.Send? && |encode(last.m)| <= MAX_FRAME then [last.m] else []
  }

  /** Every message the writer does not refuse is sent, in the order in which they were given. */
  lemma {:induction false} SentIsAccepted<M>(
    encode: M -> seq<byte>, decode: seq<byte> -> Option<M>, actions: seq<Action<M>>)
    ensures Run(encode, decode, actions).sent == Accepted(encode, actions)
  {
    if actions != [] {
      SentIsAccepted(encode, decode, actions[..|actions| - 1]);
    }
  }
}
