/**
 * Chunk assembly in `playStream`: the inner read loop that fills one
 * buffer's worth of bytes from the decoder.
 */
module Chunks {
  import opened Bytes
  import opened Vorbis

  /** Bytes per streamed buffer (`CHUNK_SIZE`). */
  const CHUNK_SIZE: nat := 4096

  /** What one chunk assembly produced: the bytes, the decoder left over,
      whether this assembly saw the decoder run dry, and the `ov_read` results. */
  datatype Chunk = Chunk(data: seq<byte>, rest: Decoder, dry: bool, trace: seq<ReadResult>)

  /**
   * The inner `while (data.size() < CHUNK_SIZE && !buffersReady)` loop,
   * entered with `buffersReady` false: each `ov_read` asks only for the room
   * left; the first result that is not positive ends the chunk, and on the
   * refill path (`pad`) the chunk is then zero-filled to CHUNK_SIZE.
   */
  function FillFrom(d: Decoder, data: seq<byte>, pad: bool): (c: Chunk)
    requires Vorbis.Valid(d) && |data| <= CHUNK_SIZE
    decreases CHUNK_SIZE - |data|
    ensures Vorbis.Valid(c.rest)
    ensures |data| <= |c.data| <= CHUNK_SIZE
    ensures !c.dry || pad ==> |c.data| == CHUNK_SIZE
  {
    if |data| == CHUNK_SIZE then Chunk(data, d, false, [])
    else
      var s := Read(d, CHUNK_SIZE - |data|);
      if s.result.Ret() <= 0 then
        Chunk(if pad then data + Zeros(CHUNK_SIZE - |data|) else data, s.rest, true, [s.result])
      else
        var c := FillFrom(s.rest, data + s.result.bytes, pad);
        Chunk(c.data, c.rest, c.dry, [s.result] + c.trace)
  }

  /** `out` is the bytes `got`, then zeros only when a padded assembly ran
      dry; a dry assembly stopped short of a full chunk. */
  predicate Assembled(got: seq<byte>, out: seq<byte>, dry: bool, pad: bool)
  {
    && |got| <= |out|
    && out[..|got|] == got
    && (forall i :: |got| <= i < |out| ==> out[i] == 0)
    && (|out| > |got| ==> dry && pad)
    && (dry ==> |got| < CHUNK_SIZE)
  }

  /** The decoder loses no byte while a chunk is assembled: the bytes read
      plus what the decoder still holds are what it held before. */
  lemma {:induction false} FillFromConserves(d: Decoder, data: seq<byte>, pad: bool)
    requires Vorbis.Valid(d) && |data| <= CHUNK_SIZE
    decreases CHUNK_SIZE - |data|
    ensures var c := FillFrom(d, data, pad); Positives(c.trace) + Stream(c.rest) == Stream(d)
  {
    if |data| < CHUNK_SIZE {
      var s := Read(d, CHUNK_SIZE - |data|);
      if s.result.Ret() <= 0 {
        ConservesWhenDry(d, data, pad);
      } else {
        FillFromConserves(s.rest, data + s.result.bytes, pad);
        ConservesAfterRead(d, data, pad);
      }
    }
  }

  lemma ConservesWhenDry(d: Decoder, data: seq<byte>, pad: bool)
    requires Vorbis.Valid(d) && |data| < CHUNK_SIZE
    requires Read(d, CHUNK_SIZE - |data|).result.Ret() <= 0
    ensures var c := FillFrom(d, data, pad); Positives(c.trace) + Stream(c.rest) == Stream(d)
  {
    var s := Read(d, CHUNK_SIZE - |data|);
    var c := FillFrom(d, data, pad);
    assert c.trace == [s.result] && c.rest == s.rest;
    PositivesOfNonPositive(s.result);
  }

  lemma ConservesAfterRead(d: Decoder, data: seq<byte>, pad: bool)
    requires Vorbis.Valid(d) && |data| < CHUNK_SIZE
    requires Read(d, CHUNK_SIZE - |data|).result.Ret() > 0
    requires var s := Read(d, CHUNK_SIZE - |data|);
      var c' := FillFrom(s.rest, data + s.result.bytes, pad);
      Positives(c'.trace) + Stream(c'.rest) == Stream(s.rest)
    ensures var c := FillFrom(d, data, pad); Positives(c.trace) + Stream(c.rest) == Stream(d)
  {
    var s := Read(d, CHUNK_SIZE - |data|);
    var head := Positives([s.result]);
    var c := FillFrom(d, data, pad);
    var c' := FillFrom(s.rest, data + s.result.bytes, pad);
    assert c.trace == [s.result] + c'.trace && c.rest == c'.rest;
    PositivesAppend([s.result], c'.trace);
    var tail := Positives(c'.trace);
    assert A: Positives(c.trace) == head + tail;
    assert B: tail + Stream(c'.rest) == Stream(s.rest);
    assert C: head + Stream(s.rest) == Stream(d);
    assert Positives(c.trace) + Stream(c.rest) == (head + tail) + Stream(c'.rest);
    Assoc(head, tail, Stream(c'.rest));
  }

  /** Every chunk is the bytes it started with, then exactly the positive
      read results, then zeros only when a padded assembly ran dry. */
  lemma {:induction false} FillFromContents(d: Decoder, data: seq<byte>, pad: bool)
    requires Vorbis.Valid(d) && |data| <= CHUNK_SIZE
    decreases CHUNK_SIZE - |data|
    ensures var c := FillFrom(d, data, pad); Assembled(data + Positives(c.trace), c.data, c.dry, pad)
  {
    var c := FillFrom(d, data, pad);
    if |data| < CHUNK_SIZE {
      var s := Read(d, CHUNK_SIZE - |data|);
      if s.result.Ret() <= 0 {
        PositivesOfNonPositive(s.result);
        assert data + Positives(c.trace) == data;
      } else {
        var more := data + s.result.bytes;
        var c' := FillFrom(s.rest, more, pad);
        assert c.trace == [s.result] + c'.trace;
        assert c.data == c'.data && c.dry == c'.dry;
        PositivesAppend([s.result], c'.trace);
        assert Positives([s.result]) == s.result.bytes;
        Assoc(data, s.result.bytes, Positives(c'.trace));
        FillFromContents(s.rest, more, pad);
      }
    }
  }

  /** One chunk assembly from an empty `data` vector; with `buffersReady`
      already set the loop does not run. */
  function Fill(d: Decoder, ready: bool, pad: bool): (c: Chunk)
    requires Vorbis.Valid(d)
    ensures Vorbis.Valid(c.rest)
  {
    if ready then Chunk([], d, false, []) else FillFrom(d, [], pad)
  }

  /**
   * What one chunk assembly from empty delivers. No byte of the decoder is
   * lost; the chunk is the bytes read, padded with zeros only once the
   * decoder ran dry; every read but the last brought bytes, and the last
   * did exactly when the assembly did not run dry; a refill (`pad`) before
   * `buffersReady` always yields a whole chunk. With `buffersReady` already
   * set nothing is read and the chunk stays empty.
   */
  lemma FillSound(d: Decoder, ready: bool, pad: bool)
    requires Vorbis.Valid(d)
    ensures var c := Fill(d, ready, pad);
      && Positives(c.trace) + Stream(c.rest) == Stream(d)
      && ZeroPadded(c.data, Positives(c.trace), CHUNK_SIZE)
      && (!c.dry ==> c.data == Positives(c.trace))
      && (!ready && pad ==> |c.data| == CHUNK_SIZE)
      && StopsAtFirstFailure(c.trace, c.dry)
      && (c.dry ==> |Positives(c.trace)| < CHUNK_SIZE)
      && (ready ==> c.trace == [] && c.data == [] && !c.dry)
  {
    if !ready {
      FillFromConserves(d, [], pad);
      FillFromReads(d, [], pad);
      FreshChunk(d, pad);
    }
  }

  /** The reads of one assembly stop at the first result that is not
      positive: every result but the last brought bytes, and the last did
      exactly when the assembly did not run dry. */
  predicate StopsAtFirstFailure(trace: seq<ReadResult>, dry: bool)
  {
    if |trace| == 0 then !dry
    else if |trace| == 1 then trace[0].Got? <==> !dry
    else trace[0].Got? && StopsAtFirstFailure(trace[1..], dry)
  }

  /** A chunk assembly ran dry exactly when its last `ov_read` was not
      positive, and that read was its only unsuccessful one. */
  lemma {:induction false} FillFromReads(d: Decoder, data: seq<byte>, pad: bool)
    requires Vorbis.Valid(d) && |data| <= CHUNK_SIZE
    decreases CHUNK_SIZE - |data|
    ensures var c := FillFrom(d, data, pad); StopsAtFirstFailure(c.trace, c.dry)
  {
    var c := FillFrom(d, data, pad);
    if |data| < CHUNK_SIZE {
      var s := Read(d, CHUNK_SIZE - |data|);
      if s.result.Ret() > 0 {
        var c' := FillFrom(s.rest, data + s.result.bytes, pad);
        FillFromReads(s.rest, data + s.result.bytes, pad);
        assert c.trace == [s.result] + c'.trace && c.dry == c'.dry;
        assert c.trace[1..] == c'.trace;
      }
    }
  }

  /** An assembly that started empty: its chunk is exactly the bytes read,
      unpadded when `pad` is off; padded, it is those bytes then zeros. */
  lemma FreshChunk(d: Decoder, pad: bool)
    requires Vorbis.Valid(d)
    ensures var c := FillFrom(d, [], pad);
      && (!pad ==> c.data == Positives(c.trace))
      && (c.dry ==> |Positives(c.trace)| < CHUNK_SIZE)
      && (!c.dry ==> c.data == Positives(c.trace))
      && ZeroPadded(c.data, Positives(c.trace), CHUNK_SIZE)
  {
    var c := FillFrom(d, [], pad);
    FillFromContents(d, [], pad);
    assert [] + Positives(c.trace) == Positives(c.trace);
  }

  /** Reads that all succeeded, followed by reads that stop at their first
      failure, stop at that same failure. */
  lemma {:induction false} StopsAppend(a: seq<ReadResult>, b: seq<ReadResult>, dry: bool)
    requires StopsAtFirstFailure(a, false)
    requires StopsAtFirstFailure(b, dry)
    ensures StopsAtFirstFailure(a + b, dry)
    decreases |a|
  {
    if |a| == 0 {
      assert a + b == b;
    } else if |a| == 1 {
      assert (a + b)[1..] == b;
    } else {
      assert (a + b)[1..] == a[1..] + b;
      StopsAppend(a[1..], b, dry);
    }
  }

  /** On a gap-free decoder an assembly runs dry only at the very end of the
      stream. */
  lemma {:induction false} FillFromGapFree(d: Decoder, data: seq<byte>, pad: bool)
    requires Vorbis.Valid(d) && |data| <= CHUNK_SIZE && GapFree(d)
    decreases CHUNK_SIZE - |data|
    ensures var c := FillFrom(d, data, pad); GapFree(c.rest) && (c.dry ==> Stream(c.rest) == [])
  {
    if |data| < CHUNK_SIZE {
      var s := Read(d, CHUNK_SIZE - |data|);
      ReadGapFree(d, CHUNK_SIZE - |data|);
      if s.result.Ret() > 0 {
        FillFromGapFree(s.rest, data + s.result.bytes, pad);
      }
    }
  }
}
