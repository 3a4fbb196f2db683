/**
 * What `playStream` has done so far: the `alBufferData` calls it made, and
 * the state it carries from one step of the engine to the next.
 */
module StreamState {
  import opened Bytes
  import opened Vorbis
  import opened Format
  import opened OpenAL
  import opened Chunks

  /** Buffers in the streaming ring (`NUM_BUFFERS` in the streaming build). */
  const NUM_BUFFERS: nat := 4

  /** One `alBufferData(buffer, format, data, size, rate)` call. */
  datatype Upload = Upload(buffer: BufferId, format: SampleFormat, data: seq<byte>, rate: int)

  /** Every byte handed to `alBufferData`, in call order. */
  function Payload(uploads: seq<Upload>): seq<byte>
  {
    if |uploads| == 0 then [] else uploads[0].data + Payload(uploads[1..])
  }

  /** The buffers filled, in call order. */
  function Buffers(uploads: seq<Upload>): (ids: seq<BufferId>)
    ensures |ids| == |uploads|
  {
    if |uploads| == 0 then [] else [uploads[0].buffer] + Buffers(uploads[1..])
  }

  /** Every upload holds exactly CHUNK_SIZE bytes. */
  predicate Full(uploads: seq<Upload>)
  {
    |uploads| == 0 || (|uploads[0].data| == CHUNK_SIZE && Full(uploads[1..]))
  }

  /** Every upload but possibly the last holds exactly CHUNK_SIZE bytes, and
      none holds more. */
  predicate FullBeforeLast(uploads: seq<Upload>)
  {
    if |uploads| == 0 then true
    else if |uploads| == 1 then |uploads[0].data| <= CHUNK_SIZE
    else |uploads[0].data| == CHUNK_SIZE && FullBeforeLast(uploads[1..])
  }

  /** Every upload uses the stream's format and frequency. */
  predicate Tagged(uploads: seq<Upload>, format: SampleFormat, rate: int)
  {
    |uploads| == 0 || (uploads[0].format == format && uploads[0].rate == rate && Tagged(uploads[1..], format, rate))
  }

  /** Prepending one upload. */
  lemma UploadsCons(up: Upload, rest: seq<Upload>)
    ensures Buffers([up] + rest) == [up.buffer] + Buffers(rest)
    ensures Payload([up] + rest) == up.data + Payload(rest)
    ensures Full([up] + rest) <==> |up.data| == CHUNK_SIZE && Full(rest)
    ensures forall format, rate :: Tagged([up] + rest, format, rate) <==> up.format == format && up.rate == rate && Tagged(rest, format, rate)
  {
    assert ([up] + rest)[1..] == rest;
  }

  lemma {:induction false} PayloadAppend(a: seq<Upload>, b: seq<Upload>)
    ensures Payload(a + b) == Payload(a) + Payload(b)
    decreases |a|
  {
    if |a| == 0 {
      assert a + b == b;
    } else {
      assert (a + b)[1..] == a[1..] + b;
      PayloadAppend(a[1..], b);
      Assoc(a[0].data, Payload(a[1..]), Payload(b));
    }
  }

  lemma {:induction false} BuffersAppend(a: seq<Upload>, b: seq<Upload>)
    ensures Buffers(a + b) == Buffers(a) + Buffers(b)
    decreases |a|
  {
    if |a| == 0 {
      assert a + b == b;
    } else {
      assert (a + b)[1..] == a[1..] + b;
      BuffersAppend(a[1..], b);
    }
  }

  lemma {:induction false} FullAppend(a: seq<Upload>, b: seq<Upload>)
    ensures Full(a + b) <==> Full(a) && Full(b)
    decreases |a|
  {
    if |a| == 0 {
      assert a + b == b;
    } else {
      assert (a + b)[1..] == a[1..] + b;
      FullAppend(a[1..], b);
    }
  }

  lemma {:induction false} TaggedAppend(a: seq<Upload>, b: seq<Upload>, format: SampleFormat, rate: int)
    ensures Tagged(a + b, format, rate) <==> Tagged(a, format, rate) && Tagged(b, format, rate)
    decreases |a|
  {
    if |a| == 0 {
      assert a + b == b;
    } else {
      assert (a + b)[1..] == a[1..] + b;
      TaggedAppend(a[1..], b, format, rate);
    }
  }

  /** Whole chunks added in two stages are whole chunks added overall. */
  lemma FullChain(a: seq<Upload>, b: seq<Upload>, c: seq<Upload>)
    requires a <= b && b <= c
    requires Full(b[|a|..]) && Full(c[|b|..])
    ensures a <= c && Full(c[|a|..])
  {
    SuffixSplit(a, b, c);
    FullAppend(b[|a|..], c[|b|..]);
  }

  /** A full upload sequence trivially has all but its last upload full. */
  lemma {:induction false} FullIsFullBeforeLast(uploads: seq<Upload>)
    requires Full(uploads)
    ensures FullBeforeLast(uploads)
    decreases |uploads|
  {
    if |uploads| > 1 {
      FullIsFullBeforeLast(uploads[1..]);
    }
  }

  /** The engine's state between steps: the stream's format and frequency,
      the decoder, `buffersReady`, the source, and every `ov_read` result and
      `alBufferData` call so far. */
  datatype Engine = Engine(
    format: SampleFormat,
    rate: int,
    decoder: Decoder,
    ready: bool,
    source: Source,
    trace: seq<ReadResult>,
    uploads: seq<Upload>)
  {
    predicate Valid()
    {
      Vorbis.Valid(decoder) && source.Valid()
    }
  }

  /**
   * The byte-level invariant of a stream that started from decoder `d0`:
   * the decoder has lost no byte, the buffers hold the bytes read followed
   * by at most one chunk's worth of zero padding, and there is no padding
   * at all until the decoder has run dry; every `ov_read` so far brought
   * bytes except a last one that set `buffersReady`.
   */
  predicate Consistent(e: Engine, d0: Decoder)
  {
    && StopsAtFirstFailure(e.trace, e.ready)
    && Positives(e.trace) + Stream(e.decoder) == Stream(d0)
    && ZeroPadded(Payload(e.uploads), Positives(e.trace), CHUNK_SIZE)
    && (!e.ready ==> Payload(e.uploads) == Positives(e.trace))
  }

  /** Every upload uses the stream's format and frequency, every upload but
      the last is a whole chunk, and while the decoder has not run dry every
      upload is. */
  predicate Shaped(e: Engine)
  {
    && Tagged(e.uploads, e.format, e.rate)
    && FullBeforeLast(e.uploads)
    && (!e.ready ==> Full(e.uploads))
  }
}
