/**
 * `playStream` as a whole: detect the format, prime the ring of buffers,
 * then poll until every buffer has played.
 */
module PlayStream {
  import opened Wrappers
  import opened Bytes
  import opened Vorbis
  import opened Format
  import opened OpenAL
  import opened Chunks
  import opened StreamState
  import opened Priming
  import opened Polling

  /**
   * `playStream` on decoder `d` with the stream's `channels` and `rate`,
   * the NUM_BUFFERS buffer names `ids` from `alGenBuffers`, and the device's
   * progress `ticks`. An unsupported channel count is fatal before anything
   * is read; otherwise the source ends primed and polled.
   */
  function PlayStream(d: Decoder, channels: int, rate: int, ids: seq<BufferId>, ticks: seq<Tick>): (r: Result<Outcome, Failure>)
    requires Vorbis.Valid(d) && |ids| == NUM_BUFFERS
    ensures r.Ok? <==> channels == 1 || channels == 2
    ensures r.Err? ==> r.error == UnsupportedChannels(channels)
    ensures r.Ok? ==> Channels(r.value.engine.format) == channels && r.value.engine.rate == rate
    ensures r.Ok? && r.value.Drained? ==> |r.value.engine.source.queue| == 0
  {
    match DetectFormat(channels)
    case Err(f) => Err(f)
    case Ok(format) => Ok(Run(Prime(format, rate, ids, d), ticks))
  }

  /**
   * What a stream hands to OpenAL, however far it got: the buffers hold the
   * decoded bytes in order, each exactly once, followed by at most one
   * chunk of zero padding and no padding before the decoder ran dry; every
   * buffer but the last is a whole chunk in the stream's format and
   * frequency, and every buffer uploaded after priming is a whole chunk;
   * every read but the last brought bytes; at most NUM_BUFFERS buffers
   * are ever queued; and when the generated buffer names are distinct the
   * queue holds each of them at most once.
   */
  lemma PlayStreamDelivers(d: Decoder, channels: int, rate: int, ids: seq<BufferId>, ticks: seq<Tick>)
    requires Vorbis.Valid(d) && |ids| == NUM_BUFFERS
    ensures var r := PlayStream(d, channels, rate, ids, ticks);
      r.Ok? ==> var e := r.value.engine;
        && Positives(e.trace) + Stream(e.decoder) == Stream(d)
        && ZeroPadded(Payload(e.uploads), Positives(e.trace), CHUNK_SIZE)
        && (!e.ready ==> Payload(e.uploads) == Positives(e.trace))
        && StopsAtFirstFailure(e.trace, e.ready)
        && Tagged(e.uploads, e.format, rate)
        && FullBeforeLast(e.uploads)
        && (var primed := Prime(e.format, rate, ids, d).uploads;
            primed <= e.uploads && Full(e.uploads[|primed|..]))
        && |e.source.queue| <= NUM_BUFFERS
        && (Distinct(ids) ==> Ring(e.source.queue, ids))
  {
    var f := DetectFormat(channels);
    if f.Ok? {
      var e0 := Prime(f.value, rate, ids, d);
      var e := Run(e0, ticks).engine;
      PrimeConsistent(f.value, rate, ids, d);
      RunInvariant(e0, ticks, d, ids);
      RunNeverGrows(e0, ticks);
      if Distinct(ids) {
        PrimeRing(f.value, rate, ids, d);
      }
    }
  }

  /** The stream ends only after the decoder has run dry, with the source
      neither playing nor paused and nothing queued. */
  lemma PlayStreamEndsAfterDecoding(d: Decoder, channels: int, rate: int, ids: seq<BufferId>, ticks: seq<Tick>)
    requires Vorbis.Valid(d) && |ids| == NUM_BUFFERS
    ensures var r := PlayStream(d, channels, rate, ids, ticks);
      r.Ok? && r.value.Drained? ==>
        && r.value.engine.ready
        && |r.value.engine.source.queue| == 0
        && r.value.engine.source.state != Playing
        && r.value.engine.source.state != Paused
  {
    var f := DetectFormat(channels);
    if f.Ok? {
      RunDrainsOnlyWhenDry(Prime(f.value, rate, ids, d), ticks);
    }
  }
}
