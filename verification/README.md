# oals-sandbox in Dafny

This is a model of the two players in oals-sandbox, an OpenAL and Ogg Vorbis demo, together with its WAVE header loader.

- **`playFile`** calls `ov_read` into a 4096-byte stack buffer until it returns 0. It appends every positive result to one vector, skips negative ones, and only then picks the OpenAL sample format from the channel count.
- **`playStream`** plays the stream through a ring of `NUM_BUFFERS` (4) OpenAL buffers of `CHUNK_SIZE` (4096) bytes:
  - It primes as many of them as the decoder can fill, queues them with one call, and starts the source.
  - It then polls. Each pass unqueues every processed buffer, refills it and queues it again. A refill that hits the end of the stream is zero-padded to a whole chunk.
  - Once `buffersReady` is set, unqueued buffers are dropped.
  - The loop ends when the source is neither playing nor paused and nothing is queued.
- **`wave_load`** copies a 12-byte RIFF header, a 24-byte fmt subchunk, an 8-byte data header and `subchunk2Size` bytes of samples out of a file. It does no validation, and every byte past the end of the file reads as zero.

The external world becomes parameters of the model:

- **The Vorbis decoder** is a queue of decoded packets (`Vorbis.Decoder`). Each packet is either PCM bytes or a gap that `ov_read` reports as a negative code. `Vorbis.Read` hands out at most the requested number of bytes of the front packet.
- **The OpenAL source** is its queue of buffer names, the number of those that have been processed, and its state (`OpenAL.Source`). A source plays its queue in order, so the processed buffers are the oldest ones and `alSourceUnqueueBuffers` hands out the one at the front (`OpenAL.Unqueue`).
- **The device's progress** between two polls is a `Tick`: how many more buffers finished and the state the source now reports. A stream runs over a finite sequence of ticks.
- **`wave_load`** takes the file's bytes, or `None` when the file cannot be opened.

Every `alBufferData` call is recorded as an `Upload`, and every `ov_read` result in a trace. The contracts speak about those records:

- Conservation: the bytes read plus the bytes the decoder still holds are the whole stream.
- The buffers hold exactly the bytes read, in order, followed by at most one chunk of zeros. No zeros appear before the decoder runs dry.
- Every buffer but the last is a whole chunk, in the stream's format and frequency. Every buffer uploaded after priming is a whole chunk.
- The queue never holds more than `NUM_BUFFERS` buffers. When the names `alGenBuffers` returned are distinct, it stays a ring of those buffers.
- The loop ends only after the decoder ran dry, with nothing queued.
- `wave_load` round-trips: decoding an encoded file gives back its header and data, and a file that holds all the data its header announces is the encoding of what it loads to, followed by whatever trailing bytes it has.

Where the code does something its own comments or an obvious reading would not suggest, the model follows the code:

- **Exact chunk boundary while priming.** A stream whose length is an exact multiple of `CHUNK_SIZE` (fewer than four chunks) primes one extra, EMPTY buffer and queues it, because the end of the stream is only noticed by a read returning 0 at the start of the next buffer (main.cpp:209-223). `Priming.PrimeCount` states the count, `n / CHUNK_SIZE + 1`. `Priming.ExactChunkPrimesEmptyBuffer` shows it for a one-chunk stream.
- **Refill at end of stream.** A refill whose first read already returns 0 still uploads and queues a whole chunk of zeros (main.cpp:287-310), because the padding happens before the `data.size() > 0` test. See `Polling.RecycleAtEndQueuesSilence`.
- **Short last buffer while priming.** The buffer primed last when the decoder runs dry is uploaded short and unpadded (main.cpp:212-223). Only refills pad.
- **Negative reads.** `playStream` treats a negative `ov_read` result like end of file and sets `buffersReady`. `playFile` skips it and keeps reading.
- **Late format check in `playFile`.** `playFile` decodes the whole file before it checks the channel count. `playStream` checks it before reading anything.

## Model

| member | source | states |
|---|---|---|
| Format.DetectFormat | main.cpp:89-101 | succeeds exactly for 1 or 2 channels, with a format of that many channels; otherwise fails naming the channel count |
| Format.DetectFormatInvertsChannels | main.cpp:91-96 | detection recovers every supported format from its own channel count |
| Vorbis.Read | main.cpp:117 | `ov_read` returns positive exactly with 1..request bytes, negative exactly with an error code, 0 exactly on an exhausted decoder; the bytes returned plus those left are the bytes before, and every read that is not 0 makes progress |
| Vorbis.ReadFront | main.cpp:117 | a read takes from the front packet only: negative exactly when it is a gap, reporting that gap's code and dropping it; positive exactly when it is PCM, returning a prefix of it |
| PlayFile.ReadExtends | main.cpp:116-126 | one more `ov_read` keeps the loop's invariant: buffer is the positive reads, nothing lost, every read fits `ovBuffer`, `eof` set exactly by a 0 |
| PlayFile.ReadStep | main.cpp:118-125 | along each branch of the loop body the invariant holds again: a 0 sets `eof`, a negative result leaves the buffer unchanged, a positive one appends exactly its bytes |
| PlayFile.ReplayAppend | main.cpp:116-117 | a trace that replays the reads so far, extended by the next `ov_read`, replays to what that read leaves |
| PlayFile.ReplayIsReads | main.cpp:116-126 | a trace that replays the decoder's reads and ends at its first 0 is exactly the reads the loop makes |
| PlayFile.ReadAll | main.cpp:112-127 | the returned trace is exactly the successive `ov_read` results from the decoder up to the first 0 (`Reads`); the buffer is the concatenation of the positive reads and equals the whole decoded stream; the last read returned 0 and no earlier one did; every read fit in 4096 bytes |
| PlayFile.PlayFile | main.cpp:106-137 | the loaded data is the whole stream at the stream's rate and channel count; an unsupported channel count fails with that count |
| Chunks.FillFrom | main.cpp:284-295 | a chunk never exceeds CHUNK_SIZE, never shrinks, and is exactly CHUNK_SIZE unless the unpadded assembly ran dry |
| Chunks.FillFromConserves | main.cpp:212-220 | the bytes read while assembling a chunk plus those the decoder keeps are the bytes it held before |
| Chunks.FillFromContents | main.cpp:284-295 | a chunk is its starting bytes, then exactly the positive reads, then zeros only when a padded assembly ran dry; running dry means it was short of a chunk |
| Chunks.FillFromReads | main.cpp:212-220 | every read of an assembly but the last returned bytes, and the last did exactly when the assembly did not run dry |
| Chunks.FillSound | main.cpp:282-295 | a refill chunk loses no decoder byte, is the bytes read then zeros only once the decoder ran dry, stops reading at the first non-positive result, and is a whole chunk before `buffersReady`; with `buffersReady` set nothing is read and the chunk is empty |
| Chunks.FreshChunk | main.cpp:282-295 | a chunk assembled from empty is the bytes read, unpadded when padding is off, and short of a chunk when it ran dry |
| Chunks.FillFromGapFree | main.cpp:286-288 | on a decoder without gaps an assembly runs dry only at the end of the stream |
| OpenAL.Enqueue | main.cpp:234 | `alSourceQueueBuffers` appends the buffers at the back of the queue, unplayed, and keeps the state; the refill loop uses it at main.cpp:305 |
| OpenAL.Unqueue | main.cpp:274 | `alSourceUnqueueBuffers` of one buffer, defined only when one has been processed: the oldest processed buffer leaves the front, the rest keep their order, and the processed count drops by one |
| OpenAL.Play | main.cpp:244 | `alSourcePlay` sets the state to playing and leaves the queue and the processed count alone |
| OpenAL.Advance | main.cpp:259-266 | the device finishes at most the ticks' count of queued buffers, all of them when it finishes fewer, and sets the state |
| OpenAL.RingRotate | main.cpp:272-310 | dropping the oldest buffers and requeueing the oldest of those keeps the queue a ring of distinct generated buffers |
| Priming.PrimeSlots | main.cpp:209-228 | at least one and at most one buffer per slot is filled; with no slots nothing is |
| Priming.PrimeSlotsBuffers | main.cpp:209-223 | the buffers are filled in the order they were generated |
| Priming.PrimeSlotsShape | main.cpp:209-223 | every primed buffer has the stream's format and rate, all but the last are whole chunks, and all of them are when the decoder did not run dry |
| Priming.PrimeSlotsConserves | main.cpp:212-220 | the bytes read while priming plus those left are the stream |
| Priming.PrimeSlotsContents | main.cpp:212-223 | the primed buffers hold exactly the positive reads, in order, with no padding |
| Priming.PrimeSlotsShortLast | main.cpp:212-216 | when the decoder ran dry the last primed buffer is shorter than a chunk |
| Priming.PrimeSlotsReads | main.cpp:212-219 | `buffersReady` is set exactly by the first non-positive read, and no read follows it |
| Priming.Prime | main.cpp:206-248 | 1..NUM_BUFFERS buffers are filled and exactly those are queued, in order, before playing; all are whole chunks unless the decoder ran dry |
| Priming.PrimeConsistent | main.cpp:206-228 | after priming the byte invariant holds with no padding, and a short buffer only appears once the decoder ran dry |
| Priming.PrimeRing | main.cpp:234 | the primed queue is a ring of distinct generated buffers |
| Priming.PrimeSlotsCount | main.cpp:209-220 | on a gap-free stream of n bytes priming runs dry exactly when n is under the slots' capacity, and then fills n / CHUNK_SIZE + 1 buffers: the whole chunks n holds, plus the one in which it ran dry |
| Priming.PrimeCount | main.cpp:209-234 | priming queues all NUM_BUFFERS when the stream fills them, else n / CHUNK_SIZE + 1 buffers holding the whole stream |
| Priming.ExactChunkPrimesEmptyBuffer | main.cpp:209-223 | a stream of exactly one chunk primes two buffers, the second empty |
| Polling.Recycle | main.cpp:282-310 | before `buffersReady` the freed buffer gets one whole chunk in the stream's format and is queued at the back; after it nothing changes |
| Polling.RecycleAtEndQueuesSilence | main.cpp:284-310 | a refill at the end of the stream uploads and queues CHUNK_SIZE zero bytes and sets `buffersReady` |
| Polling.RecycleConsistent | main.cpp:282-310 | a refill keeps the byte invariant (no loss, reads then at most one chunk of zeros, no zeros before running dry) and the buffer shape |
| Polling.RecycleAll | main.cpp:272-312 | unqueueing n buffers lowers the processed count by exactly n and keeps the state |
| Polling.RecycleAllFrozen | main.cpp:284 | after `buffersReady` no read, upload or requeue happens and the unqueued buffers just leave |
| Polling.RecycleAllUploads | main.cpp:272-312 | uploads are only appended, at most one per unqueued buffer and exactly one each before running dry |
| Polling.RecycleAllQueue | main.cpp:272-312 | the n oldest buffers leave the queue and those refilled, the oldest of them in order, rejoin at the back |
| Polling.RefillQueue | main.cpp:272-312 | the queue statement of `RecycleAllQueue` when the first buffer is refilled |
| Polling.RecycleAllFull | main.cpp:272-312 | every upload of the unqueue-refill loop is a whole chunk |
| Polling.RecycleAllConsistent | main.cpp:272-312 | the unqueue-refill loop keeps the byte invariant and the buffer shape |
| Polling.PollOnce | main.cpp:257-321 | a pass leaves nothing processed, and ends the stream exactly when the state read is neither playing nor paused and nothing is queued |
| Polling.PollQueue | main.cpp:266-312 | a pass unqueues exactly the processed count, the oldest buffers, and requeues all of them while the decoder has data |
| Polling.PollInvariant | main.cpp:257-321 | a pass keeps the byte invariant, the buffer shape and the ring, and only appends whole chunks |
| Polling.PollDrains | main.cpp:314-320 | once the decoder ran dry and the stopped device played every queued buffer, the next pass ends the stream |
| Polling.Run | main.cpp:254-323 | when the loop ends, nothing is queued and the source is neither playing nor paused |
| Polling.RunInvariant | main.cpp:254-323 | the loop keeps the byte invariant, the buffer shape and the ring, and every upload it adds is a whole chunk |
| Polling.RunAppends | main.cpp:254-323 | the loop only appends uploads, and after `buffersReady` reads and uploads nothing |
| Polling.RunNeverGrows | main.cpp:254-323 | the loop never makes the queue longer, since a pass requeues at most the buffers it unqueued |
| Polling.RunDrainsOnlyWhenDry | main.cpp:254-323 | with buffers queued, the loop cannot end before the decoder has run dry |
| PlayStream.PlayStream | main.cpp:195-325 | succeeds exactly for 1 or 2 channels, streams in that format and rate, and a finished stream has nothing queued |
| PlayStream.PlayStreamDelivers | main.cpp:195-325 | the buffers hold the decoded bytes in order then at most one chunk of zeros, none before running dry; all but the last are whole chunks, and so is every one uploaded after priming; at most NUM_BUFFERS buffers are ever queued, and with distinct generated buffer names the queue is a ring of them |
| PlayStream.PlayStreamEndsAfterDecoding | main.cpp:314-321 | the stream ends only after the decoder ran dry, with nothing queued and the source neither playing nor paused |
| LittleEndian.LeOfLeBytes | src/wave.h:21 | decoding the little-endian bytes of a value gives the value |
| LittleEndian.LeBytesOfLe | src/wave.h:21 | every byte string is the little-endian encoding of its own value |
| Wave.U16RoundTrip | src/wave.h:29-30 | the 16-bit field codec is a bijection with 2-byte strings |
| Wave.U32RoundTrip | src/wave.h:31-32 | the 32-bit field codec is a bijection with 4-byte strings |
| Wave.RiffRoundTrip | src/wave.h:18-23 | the RIFF header codec is a bijection with 12-byte blocks |
| Wave.FmtRoundTrip | src/wave.h:25-35 | the fmt subchunk codec is a bijection with 24-byte blocks |
| Wave.Field | src/wave.cpp:19-26 | a field read is the file's n bytes at its offset when they lie inside the file, the part inside followed by zeros when it runs past the end, and all zeros when it starts past the end |
| Wave.Load | src/wave.cpp:6-31 | a file that cannot be opened gives the zero `WaveFile`; the data is `subchunk2Size` bytes long, that size is bytes 40-43 little-endian, and data byte i is file byte 44+i or zero |
| Wave.EncodeLayout | src/wave.h:44-49 | an encoded file is the header at 0-11, fmt at 12-35, data header at 36-43 and the data from 44 |
| Wave.LoadEncode | src/wave.cpp:19-26 | loading a well-formed file gives back the header and data it was written from |
| Wave.EncodeLoad | src/wave.cpp:19-26 | a file holding all its announced data is the encoding of what it loads to, up to trailing bytes |
| Wave.LoadSameBytes | src/wave.cpp:19-26 | files that agree byte for byte, counting missing bytes as zero, load the same |
| Wave.LoadZeroExtension | src/wave.cpp:25-26 | a file that ends early loads like the same file continued with zeros |
| Wave.LoadBlankFile | src/wave.cpp:9-16 | an empty or all-zero file of any length loads like one that cannot be opened |
| Wave.ZerosDecode | src/wave.cpp:14-16 | all-zero blocks decode to the zero-initialised header and fmt subchunk |
| Wave.DataIgnoresHeaders | src/wave.cpp:22-26 | the data subchunk depends only on bytes 36 onwards; `subchunk1Size` never moves it |

## Left out

- Error checks: every `hasAlError`/`hasAlcError` check and the `exit` that follows it are left out. The model assumes every OpenAL call succeeds. The exception is `detectFormat`'s fatal exit, which is modelled as `Err(UnsupportedChannels)`.
- Setup and teardown: `main` (device, context, source and buffer creation, `ov_fopen`), `cleanup`, `ov_clear` and src/main.cpp are setup and teardown with no logic of their own. The buffer names from `alGenBuffers` are a parameter.
- `printf` output and the 1 ms `sleep_for` between polls are left out. Neither affects what is read, uploaded or queued.
- `playFile` after `alBufferData`: binding the buffer with `alSourcei`, playing it, and the busy-wait on `AL_SOURCE_STATE` (main.cpp:147-170) are left out. They only hand the one buffer to the device.
- PlayFile.ReadAll: the decoder is a finite queue of packets, so every negative read is transient and the read loop always ends. With a real decoder whose `ov_read` keeps failing, the C loop never sees a 0 and spins forever. The model does not show that.
- Vorbis.Read: the Vorbis decoder itself is left out. Bitstream parsing, `currentSection`, word size, endianness and signedness arguments, and rounding to whole sample frames are not modelled. `ov_read` is a queue of already-decoded packets.
- Polling.Run: the polling loop runs over a finite sequence of device ticks. Ending as `Pending` means the ticks ran out, not that the C loop stopped. What the device does when it runs out of queued buffers is a choice of the ticks, not something the model derives.
- Priming.PrimeSlotsCount and Priming.PrimeCount are stated only for decoders without gaps. With a gap, priming stops early at the first negative read, as `Priming.PrimeSlotsReads` states.
- Integer widths: `ov_read`'s `long`, `ALint`, `size_t` and `int` never reach their limits here. Counts are at most 4096 and at most 4, and `CHUNK_SIZE - data.size()` is only computed while `data.size() < CHUNK_SIZE`. So the model uses unbounded integers. The WAVE fields are exactly `uint16`/`uint32`.
- Wave.Load: the host is assumed little-endian, and the structs are assumed to have no padding. Both hold for the field layouts in src/wave.h on common targets. Allocation failure in `data.data.resize` for a huge `subchunk2Size` is not modelled.
