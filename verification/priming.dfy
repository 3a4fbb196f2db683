/**
 * The priming phase of `playStream`: fill up to NUM_BUFFERS buffers,
 * queue the filled ones in one call and start playback.
 */
module Priming {
  import opened Bytes
  import opened Vorbis
  import opened Format
  import opened OpenAL
  import opened Chunks
  import opened StreamState

  /** The result of the priming loop before anything is queued. */
  datatype Primed = Primed(rest: Decoder, ready: bool, trace: seq<ReadResult>, uploads: seq<Upload>)

  /**
   * The `for (index = 0; index < NUM_BUFFERS && !buffersReady; index++)`
   * loop over the remaining `slots`: assemble a chunk (never padded), hand
   * it to the next buffer, and stop after the chunk during which the decoder
   * ran dry; that chunk is still handed over, however short.
   */
  function PrimeSlots(format: SampleFormat, rate: int, slots: seq<BufferId>, d: Decoder): (p: Primed)
    requires Vorbis.Valid(d)
    decreases |slots|
    ensures Vorbis.Valid(p.rest)
    ensures |slots| > 0 ==> 0 < |p.uploads| <= |slots|
    ensures |slots| == 0 ==> p.uploads == [] && !p.ready
  {
    if |slots| == 0 then Primed(d, false, [], [])
    else
      var c := FillFrom(d, [], false);
      var up := Upload(slots[0], format, c.data, rate);
      if c.dry then Primed(c.rest, true, c.trace, [up])
      else
        var p := PrimeSlots(format, rate, slots[1..], c.rest);
        Primed(p.rest, p.ready, c.trace + p.trace, [up] + p.uploads)
  }

  /** The buffers are filled in `slots` order. */
  lemma {:induction false} PrimeSlotsBuffers(format: SampleFormat, rate: int, slots: seq<BufferId>, d: Decoder)
    requires Vorbis.Valid(d)
    decreases |slots|
    ensures var p := PrimeSlots(format, rate, slots, d); Buffers(p.uploads) == slots[..|p.uploads|]
  {
    if |slots| > 0 {
      var c := FillFrom(d, [], false);
      var up := Upload(slots[0], format, c.data, rate);
      if c.dry {
        UploadsCons(up, []);
        assert [up] + [] == [up];
      } else {
        var rest := slots[1..];
        var p := PrimeSlots(format, rate, rest, c.rest);
        PrimeSlotsBuffers(format, rate, rest, c.rest);
        UploadsCons(up, p.uploads);
        PrefixCons(slots, |p.uploads|);
      }
    }
  }

  /** Every buffer is in the stream's format and frequency; every one but
      the last is a whole chunk, and all of them are, one per slot, unless
      the decoder ran dry. */
  lemma {:induction false} PrimeSlotsShape(format: SampleFormat, rate: int, slots: seq<BufferId>, d: Decoder)
    requires Vorbis.Valid(d)
    decreases |slots|
    ensures var p := PrimeSlots(format, rate, slots, d);
      && Tagged(p.uploads, format, rate)
      && FullBeforeLast(p.uploads)
      && (!p.ready ==> |p.uploads| == |slots| && Full(p.uploads))
  {
    if |slots| > 0 {
      var c := FillFrom(d, [], false);
      var up := Upload(slots[0], format, c.data, rate);
      if c.dry {
        UploadsCons(up, []);
        assert [up] + [] == [up];
      } else {
        var rest := slots[1..];
        var p := PrimeSlots(format, rate, rest, c.rest);
        PrimeSlotsShape(format, rate, rest, c.rest);
        UploadsCons(up, p.uploads);
        if |p.uploads| > 0 {
          assert ([up] + p.uploads)[1..] == p.uploads;
        }
      }
    }
  }

  /** The priming loop loses no byte: the bytes read and the bytes the
      decoder still holds make up the stream. */
  lemma {:induction false} PrimeSlotsConserves(format: SampleFormat, rate: int, slots: seq<BufferId>, d: Decoder)
    requires Vorbis.Valid(d)
    decreases |slots|
    ensures var p := PrimeSlots(format, rate, slots, d); Positives(p.trace) + Stream(p.rest) == Stream(d)
  {
    if |slots| > 0 {
      var c := FillFrom(d, [], false);
      FillFromConserves(d, [], false);
      if !c.dry {
        var rest := slots[1..];
        var p := PrimeSlots(format, rate, rest, c.rest);
        PrimeSlotsConserves(format, rate, rest, c.rest);
        PositivesAppend(c.trace, p.trace);
        Assoc(Positives(c.trace), Positives(p.trace), Stream(p.rest));
      }
    }
  }

  /** The priming loop pads nothing: the buffers hold exactly the bytes
      read. */
  lemma {:induction false} PrimeSlotsContents(format: SampleFormat, rate: int, slots: seq<BufferId>, d: Decoder)
    requires Vorbis.Valid(d)
    decreases |slots|
    ensures var p := PrimeSlots(format, rate, slots, d); Payload(p.uploads) == Positives(p.trace)
  {
    if |slots| > 0 {
      var c := FillFrom(d, [], false);
      var up := Upload(slots[0], format, c.data, rate);
      FreshChunk(d, false);
      if c.dry {
        UploadsCons(up, []);
        assert [up] + [] == [up];
      } else {
        var rest := slots[1..];
        var p := PrimeSlots(format, rate, rest, c.rest);
        PrimeSlotsContents(format, rate, rest, c.rest);
        UploadsCons(up, p.uploads);
        PositivesAppend(c.trace, p.trace);
      }
    }
  }

  /** The buffer filled while the decoder ran dry is short. */
  lemma {:induction false} PrimeSlotsShortLast(format: SampleFormat, rate: int, slots: seq<BufferId>, d: Decoder)
    requires Vorbis.Valid(d)
    decreases |slots|
    ensures var p := PrimeSlots(format, rate, slots, d);
      p.ready ==> |p.uploads[|p.uploads| - 1].data| < CHUNK_SIZE
  {
    if |slots| > 0 {
      var c := FillFrom(d, [], false);
      var up := Upload(slots[0], format, c.data, rate);
      if c.dry {
        FreshChunk(d, false);
        assert PrimeSlots(format, rate, slots, d).uploads == [up];
      } else {
        var rest := slots[1..];
        var p := PrimeSlots(format, rate, rest, c.rest);
        PrimeSlotsShortLast(format, rate, rest, c.rest);
        if p.ready {
          LastOfCons(up, p.uploads);
        }
      }
    }
  }

  /** `buffersReady` is set exactly at the first `ov_read` that returns zero
      or less, and no read follows it. */
  lemma {:induction false} PrimeSlotsReads(format: SampleFormat, rate: int, slots: seq<BufferId>, d: Decoder)
    requires Vorbis.Valid(d)
    decreases |slots|
    ensures var p := PrimeSlots(format, rate, slots, d); StopsAtFirstFailure(p.trace, p.ready)
  {
    if |slots| > 0 {
      var c := FillFrom(d, [], false);
      FillFromReads(d, [], false);
      if !c.dry {
        var p := PrimeSlots(format, rate, slots[1..], c.rest);
        PrimeSlotsReads(format, rate, slots[1..], c.rest);
        StopsAppend(c.trace, p.trace, p.ready);
      }
    }
  }

  /**
   * Priming as a whole: fill the buffers, queue the `index` filled ones with
   * one `alSourceQueueBuffers` call and `alSourcePlay` the source. At least
   * one and at most NUM_BUFFERS buffers are filled, in `ids` order, and
   * exactly those are queued.
   */
  function Prime(format: SampleFormat, rate: int, ids: seq<BufferId>, d: Decoder): (e: Engine)
    requires Vorbis.Valid(d) && |ids| == NUM_BUFFERS
    ensures e.Valid() && e.format == format && e.rate == rate
    ensures 0 < |e.uploads| <= NUM_BUFFERS
    ensures e.source.queue == Buffers(e.uploads) == ids[..|e.uploads|]
    ensures e.source.processed == 0 && e.source.state == Playing
    ensures Tagged(e.uploads, format, rate) && FullBeforeLast(e.uploads)
    ensures !e.ready ==> |e.uploads| == NUM_BUFFERS && Full(e.uploads)
  {
    var p := PrimeSlots(format, rate, ids, d);
    PrimeSlotsBuffers(format, rate, ids, d);
    PrimeSlotsShape(format, rate, ids, d);
    var queued := Enqueue(Fresh, ids[..|p.uploads|]);
    Engine(format, rate, p.rest, p.ready, Play(queued), p.trace, p.uploads)
  }

  /** After priming, the engine holds the byte invariant without any
      padding and the shape of the uploads, and a short buffer only appears
      once the decoder ran dry. */
  lemma PrimeConsistent(format: SampleFormat, rate: int, ids: seq<BufferId>, d: Decoder)
    requires Vorbis.Valid(d) && |ids| == NUM_BUFFERS
    ensures var e := Prime(format, rate, ids, d);
      && Consistent(e, d) && Shaped(e)
      && Payload(e.uploads) == Positives(e.trace)
      && (e.ready ==> |e.uploads[|e.uploads| - 1].data| < CHUNK_SIZE)
  {
    var p := PrimeSlots(format, rate, ids, d);
    PrimeSlotsContents(format, rate, ids, d);
    PrimeSlotsConserves(format, rate, ids, d);
    PrimeSlotsShortLast(format, rate, ids, d);
    PrimeSlotsReads(format, rate, ids, d);
    assert ZeroPadded(Payload(p.uploads), Positives(p.trace), CHUNK_SIZE);
    var e := Prime(format, rate, ids, d);
    assert e.uploads == p.uploads && e.trace == p.trace && e.decoder == p.rest && e.ready == p.ready;
  }

  /** The queued buffers form a ring when the generated ones are distinct. */
  lemma PrimeRing(format: SampleFormat, rate: int, ids: seq<BufferId>, d: Decoder)
    requires Vorbis.Valid(d) && |ids| == NUM_BUFFERS && Distinct(ids)
    ensures Ring(Prime(format, rate, ids, d).source.queue, ids)
  {
    PrefixRing(ids, |Prime(format, rate, ids, d).uploads|);
  }

  /**
   * On a gap-free decoder of `n` bytes the priming loop runs dry exactly
   * when `n` is less than the slots' worth of chunks, and it then fills
   * `n / CHUNK_SIZE + 1` buffers: when `n` is a multiple of CHUNK_SIZE the
   * last of them is empty, because the loop only learns of the end of the
   * stream from a read that returns 0 at the start of a new buffer.
   */
  lemma {:induction false} PrimeSlotsCount(format: SampleFormat, rate: int, slots: seq<BufferId>, d: Decoder)
    requires Vorbis.Valid(d) && GapFree(d)
    decreases |slots|
    ensures var p := PrimeSlots(format, rate, slots, d); var n := |Stream(d)|;
      && (p.ready <==> n < |slots| * CHUNK_SIZE)
      && (p.ready ==> (|p.uploads| - 1) * CHUNK_SIZE <= n < |p.uploads| * CHUNK_SIZE)
      && (p.ready ==> Stream(p.rest) == [])
  {
    if |slots| > 0 {
      var c := FillFrom(d, [], false);
      FreshChunk(d, false);
      FillFromConserves(d, [], false);
      FillFromGapFree(d, [], false);
      assert |Stream(d)| == |c.data| + |Stream(c.rest)|;
      if !c.dry {
        var rest := slots[1..];
        PrimeSlotsCount(format, rate, rest, c.rest);
        assert |slots| * CHUNK_SIZE == |rest| * CHUNK_SIZE + CHUNK_SIZE;
      }
    }
  }

  /** The number of buffers priming queues for a gap-free decoder of `n`
      bytes: all NUM_BUFFERS when the stream fills them, and otherwise
      `n / CHUNK_SIZE + 1`, holding the whole stream. */
  lemma PrimeCount(format: SampleFormat, rate: int, ids: seq<BufferId>, d: Decoder)
    requires Vorbis.Valid(d) && GapFree(d) && |ids| == NUM_BUFFERS
    ensures var e := Prime(format, rate, ids, d); var n := |Stream(d)|;
      && (e.ready <==> n < NUM_BUFFERS * CHUNK_SIZE)
      && |e.source.queue| == (if e.ready then n / CHUNK_SIZE + 1 else NUM_BUFFERS)
      && (e.ready ==> Payload(e.uploads) == Stream(d))
  {
    var p := PrimeSlots(format, rate, ids, d);
    PrimeSlotsCount(format, rate, ids, d);
    PrimeSlotsContents(format, rate, ids, d);
    PrimeSlotsConserves(format, rate, ids, d);
    var e := Prime(format, rate, ids, d);
    assert e.uploads == p.uploads && e.ready == p.ready;
  }

  /** A stream of exactly one chunk primes two buffers, the second of them
      empty. */
  lemma ExactChunkPrimesEmptyBuffer(ids: seq<BufferId>)
    requires |ids| == NUM_BUFFERS
    ensures var e := Prime(Mono16, 44100, ids, [Pcm(Zeros(CHUNK_SIZE))]);
      && e.source.queue == ids[..2]
      && |e.uploads[0].data| == CHUNK_SIZE
      && e.uploads[1].data == []
  {
    var d := [Pcm(Zeros(CHUNK_SIZE))];
    assert Stream(d[1..]) == [];
    assert Stream(d) == Zeros(CHUNK_SIZE);
    PrimeCount(Mono16, 44100, ids, d);
    var e := Prime(Mono16, 44100, ids, d);
    assert |e.uploads| == 2;
    UploadsCons(e.uploads[0], e.uploads[1..]);
    UploadsCons(e.uploads[1], []);
    assert e.uploads == [e.uploads[0]] + e.uploads[1..];
    assert e.uploads[1..] == [e.uploads[1]] + [];
  }
}
