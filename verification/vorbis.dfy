/**
 * The Ogg Vorbis decoder as the players see it: a queue of decoded packets
 * that `ov_read` hands out a bounded number of bytes at a time.
 */
module Vorbis {
  import opened Bytes

  /** One decoded packet: PCM bytes, or an interruption in the bitstream
      (`OV_HOLE`, `OV_EBADLINK`, ...) that `ov_read` reports as a negative code. */
  datatype Packet = Pcm(samples: seq<byte>) | Gap(code: int)

  /** The decoded packets the file has left, in order. */
  type Decoder = seq<Packet>

  /** Every PCM packet holds bytes and every error code is negative. */
  predicate Valid(d: Decoder)
  {
    forall i :: 0 <= i < |d| ==> (d[i].Pcm? ==> |d[i].samples| > 0) && (d[i].Gap? ==> d[i].code < 0)
  }

  /** What one `ov_read` call returns: some bytes (positive count), an error
      (negative count) or end of file (zero). */
  datatype ReadResult = Got(bytes: seq<byte>) | Fault(code: int) | End
  {
    /** The signed `long` the C call returns. */
    function Ret(): int
    {
      match this
      case Got(b) => |b|
      case Fault(c) => c
      case End => 0
    }
  }

  /** A read result paired with the decoder state it leaves behind. */
  datatype Step = Step(result: ReadResult, rest: Decoder)

  /** All PCM bytes the decoder still holds, in order. */
  function Stream(d: Decoder): seq<byte>
  {
    if |d| == 0 then [] else (if d[0].Pcm? then d[0].samples else []) + Stream(d[1..])
  }

  /** The bytes of the positive results among `trace`, in order. */
  function Positives(trace: seq<ReadResult>): seq<byte>
  {
    if |trace| == 0 then [] else (if trace[0].Got? then trace[0].bytes else []) + Positives(trace[1..])
  }

  /** Termination measure: every read either consumes bytes or drops a packet. */
  function Size(d: Decoder): nat
  {
    |Stream(d)| + |d|
  }

  /**
   * `ov_read(file, buffer, request, ...)`: at most `request` bytes of the
   * current packet, the rest of which stays for the next call; a gap is
   * reported as its negative code; an exhausted file reads 0.
   */
  function Read(d: Decoder, request: nat): (s: Step)
    requires Valid(d) && request > 0
    ensures Valid(s.rest)
    ensures s.result.Got? ==> 0 < |s.result.bytes| <= request
    ensures s.result.Got? <==> s.result.Ret() > 0
    ensures s.result.Fault? <==> s.result.Ret() < 0
    ensures s.result.End? <==> |d| == 0
    ensures s.result.End? ==> s.rest == d
    ensures Positives([s.result]) + Stream(s.rest) == Stream(d)
    ensures !s.result.End? ==> Size(s.rest) < Size(d)
  {
    if |d| == 0 then Step(End, d)
    else
      var tail := d[1..];
      assert Stream(d) == (if d[0].Pcm? then d[0].samples else []) + Stream(tail);
      match d[0]
      case Gap(c) => Step(Fault(c), tail)
      case Pcm(s) =>
        if |s| <= request then Step(Got(s), tail)
        else
          var rest := [Pcm(s[request..])] + tail;
          assert rest[1..] == tail;
          assert s[..request] + s[request..] == s;
          Step(Got(s[..request]), rest)
  }

  /** A read takes from the front packet only: it is negative exactly when
      that packet is a gap, and then reports the gap's own code and drops
      it; otherwise it returns a prefix of the front PCM packet. */
  lemma ReadFront(d: Decoder, request: nat)
    requires Valid(d) && request > 0
    ensures var s := Read(d, request);
      && (s.result.Fault? <==> |d| > 0 && d[0].Gap?)
      && (s.result.Got? <==> |d| > 0 && d[0].Pcm?)
      && (s.result.Fault? ==> |d| > 0 && s.result.code == d[0].code && s.rest == d[1..])
      && (s.result.Got? ==> |d| > 0 && d[0].Pcm? && s.result.bytes <= d[0].samples)
  {
  }

  /** Collecting positive results distributes over concatenation of traces. */
  lemma {:induction false} PositivesAppend(a: seq<ReadResult>, b: seq<ReadResult>)
    ensures Positives(a + b) == Positives(a) + Positives(b)
    decreases |a|
  {
    if |a| == 0 {
      assert a + b == b;
    } else {
      assert (a + b)[1..] == a[1..] + b;
      PositivesAppend(a[1..], b);
    }
  }

  /** Reads that are not positive contribute no bytes. */
  lemma PositivesOfNonPositive(r: ReadResult)
    requires r.Ret() <= 0
    ensures Positives([r]) == []
  {
  }

  /** A decoder whose bitstream has no interruption left. */
  predicate GapFree(d: Decoder)
  {
    forall i :: 0 <= i < |d| ==> d[i].Pcm?
  }

  /** Reading a gap-free decoder never fails: it yields bytes until the
      stream is exhausted, then end of file. */
  lemma ReadGapFree(d: Decoder, request: nat)
    requires Valid(d) && request > 0 && GapFree(d)
    ensures var s := Read(d, request);
      && !s.result.Fault?
      && GapFree(s.rest)
      && (s.result.End? <==> Stream(d) == [])
  {
    if |d| > 0 {
      assert Stream(d) == d[0].samples + Stream(d[1..]);
      var s := Read(d, request);
      if |d[0].samples| > request {
        assert s.rest[1..] == d[1..];
      }
    }
  }
}
