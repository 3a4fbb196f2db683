/** `playFile`: decode the whole file into memory and play it as one buffer. */
module PlayFile {
  import opened Bytes
  import opened Wrappers
  import opened Vorbis
  import opened Format

  /** Size of the stack buffer `ovBuffer` every `ov_read` call is given. */
  const READ_BUFFER_SIZE: nat := 4096

  /** What `playFile` hands to `alBufferData`: format, frequency and all decoded bytes. */
  datatype Loaded = Loaded(format: SampleFormat, rate: int, data: seq<byte>)

  /** No read in `trace` reported end of file. */
  predicate Unfinished(trace: seq<ReadResult>)
  {
    forall i :: 0 <= i < |trace| ==> !trace[i].End?
  }

  /** Every read in `trace` fit in `ovBuffer`. */
  predicate Bounded(trace: seq<ReadResult>)
  {
    forall i :: 0 <= i < |trace| ==> trace[i].Got? ==> |trace[i].bytes| <= READ_BUFFER_SIZE
  }

  /** The results of calling `ov_read` into `ovBuffer` on decoder `d`
      again and again, up to and including the first that returns 0. */
  function Reads(d: Decoder): seq<ReadResult>
    requires Valid(d)
    decreases Size(d)
  {
    var s := Read(d, READ_BUFFER_SIZE);
    if s.result.End? then [End] else [s.result] + Reads(s.rest)
  }

  /** The decoder left after replaying `trace` against `d`, when every
      entry is what the next `ov_read` into `ovBuffer` returns; `None` at
      the first entry that is not. */
  function Replay(d: Decoder, trace: seq<ReadResult>): (r: Option<Decoder>)
    requires Valid(d)
    decreases |trace|
    ensures r.Some? ==> Valid(r.value)
  {
    if |trace| == 0 then Some(d)
    else
      var s := Read(d, READ_BUFFER_SIZE);
      if s.result != trace[0] then None else Replay(s.rest, trace[1..])
  }

  /** One more read extends a replay by its result. */
  lemma {:induction false} ReplayAppend(d0: Decoder, trace: seq<ReadResult>, d: Decoder)
    requires Valid(d0) && Replay(d0, trace) == Some(d)
    decreases |trace|
    ensures var s := Read(d, READ_BUFFER_SIZE); Replay(d0, trace + [s.result]) == Some(s.rest)
  {
    if |trace| > 0 {
      var s0 := Read(d0, READ_BUFFER_SIZE);
      var x := Read(d, READ_BUFFER_SIZE).result;
      assert (trace + [x])[1..] == trace[1..] + [x];
      ReplayAppend(s0.rest, trace[1..], d);
    }
  }

  /** A replay that ends at its first 0 is exactly the reads `Reads`
      makes. */
  lemma {:induction false} ReplayIsReads(d: Decoder, trace: seq<ReadResult>)
    requires Valid(d) && Replay(d, trace).Some?
    requires |trace| > 0 && trace[|trace| - 1].End?
    requires forall i :: 0 <= i < |trace| - 1 ==> !trace[i].End?
    decreases |trace|
    ensures trace == Reads(d)
  {
    var s := Read(d, READ_BUFFER_SIZE);
    if |trace| > 1 {
      assert !trace[0].End?;
      ReplayIsReads(s.rest, trace[1..]);
    }
  }

  /** What holds after every pass of the read loop of `playFile`: `buffer`
      holds the positive reads of `trace`, and `eof` is set just when the
      last read returned 0. */
  predicate Reading(d0: Decoder, d: Decoder, buffer: seq<byte>, trace: seq<ReadResult>, eof: bool)
  {
    && Valid(d)
    && buffer == Positives(trace)
    && buffer + Stream(d) == Stream(d0)
    && Bounded(trace)
    && (!eof ==> Unfinished(trace))
    && (eof ==> |trace| > 0 && trace[|trace| - 1].End? && d == [] && forall i :: 0 <= i < |trace| - 1 ==> !trace[i].End?)
  }

  /** One more `ov_read` keeps `Reading`, whatever it returned, with its
      positive bytes appended to the buffer. */
  lemma ReadExtends(d0: Decoder, d: Decoder, buffer: seq<byte>, trace: seq<ReadResult>)
    requires Reading(d0, d, buffer, trace, false)
    ensures var s := Read(d, READ_BUFFER_SIZE);
      Reading(d0, s.rest, buffer + Positives([s.result]), trace + [s.result], s.result.Ret() == 0)
  {
    var s := Read(d, READ_BUFFER_SIZE);
    var t := trace + [s.result];
    PositivesAppend(trace, [s.result]);
    assert forall i :: 0 <= i < |trace| ==> t[i] == trace[i];
    assert t[..|trace|] == trace;
  }

  /** One more `ov_read` keeps `Reading` along each branch of the loop
      body: a 0 sets `eof`, a negative result leaves the buffer alone, a
      positive one appends its bytes. */
  lemma ReadStep(d0: Decoder, d: Decoder, buffer: seq<byte>, trace: seq<ReadResult>)
    requires Reading(d0, d, buffer, trace, false)
    ensures var s := Read(d, READ_BUFFER_SIZE); var t := trace + [s.result];
      && (s.result.Ret() == 0 ==> Reading(d0, s.rest, buffer, t, true))
      && (s.result.Ret() < 0 ==> Reading(d0, s.rest, buffer, t, false))
      && (s.result.Ret() > 0 ==> Reading(d0, s.rest, buffer + s.result.bytes, t, false))
  {
    var s := Read(d, READ_BUFFER_SIZE);
    ReadExtends(d0, d, buffer, trace);
    if s.result.Got? {
      assert Positives([s.result]) == s.result.bytes;
    } else {
      assert Positives([s.result]) == [];
      assert buffer + [] == buffer;
    }
  }

  /**
   * The read-accumulation loop of `playFile`: call `ov_read` until it
   * returns 0, skipping negative results and appending positive ones.
   */
  method ReadAll(d0: Decoder) returns (buffer: seq<byte>, trace: seq<ReadResult>)
    requires Valid(d0)
    ensures trace == Reads(d0)
    ensures buffer == Positives(trace)
    ensures buffer == Stream(d0)
    ensures |trace| > 0 && trace[|trace| - 1].End?
    ensures forall i :: 0 <= i < |trace| - 1 ==> !trace[i].End?
    ensures forall i :: 0 <= i < |trace| ==> trace[i].Got? ==> |trace[i].bytes| <= READ_BUFFER_SIZE
  {
    var d := d0;
    buffer := [];
    trace := [];
    var eof := false;
    while !eof
      invariant Reading(d0, d, buffer, trace, eof)
      invariant Replay(d0, trace) == Some(d)
      decreases if eof then 0 else 1, Size(d)
    {
      var step := Read(d, READ_BUFFER_SIZE);
      ReadStep(d0, d, buffer, trace);
      ReplayAppend(d0, trace, d);
      trace := trace + [step.result];
      d := step.rest;
      if step.result.Ret() == 0 {
        eof := true;
      } else if step.result.Ret() < 0 {
        // a decoding error is skipped
      } else {
        buffer := buffer + step.result.bytes;
      }
    }
    ReplayIsReads(d0, trace);
  }

  /**
   * `playFile` up to `alBufferData`: the whole file is read first, and only
   * then is the channel count checked, so an unsupported layout fails after
   * decoding.
   */
  method PlayFile(d: Decoder, channels: int, rate: int) returns (r: Result<Loaded, Failure>)
    requires Valid(d)
    ensures r.Ok? <==> channels == 1 || channels == 2
    ensures r.Ok? ==> r.value.data == Stream(d) && r.value.rate == rate
    ensures r.Ok? ==> Channels(r.value.format) == channels
    ensures r.Err? ==> r.error == UnsupportedChannels(channels)
  {
    var buffer, _ := ReadAll(d);
    var format := DetectFormat(channels);
    if format.Err? {
      return Err(format.error);
    }
    r := Ok(Loaded(format.value, rate, buffer));
  }
}
