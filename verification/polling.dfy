/**
 * The streaming loop of `playStream`: each pass unqueues every processed
 * buffer, refills and requeues it while the decoder has data, and ends once
 * the source has stopped with nothing left queued.
 */
module Polling {
  import opened Bytes
  import opened Vorbis
  import opened Format
  import opened OpenAL
  import opened Chunks
  import opened StreamState

  /** `e'` is `e` after one refill of buffer `id`: one more upload, of a whole
      chunk, in the stream's format and frequency. */
  predicate Refilled(e: Engine, e': Engine, id: BufferId)
  {
    && e.uploads <= e'.uploads
    && |e'.uploads| == |e.uploads| + 1
    && var u := e'.uploads[|e.uploads|];
       u.buffer == id && u.format == e.format && u.rate == e.rate && |u.data| == CHUNK_SIZE
  }

  /**
   * The body of `while (freeQueues > 0)` after the unqueue: assemble a
   * chunk, zero-padded if the decoder runs dry, and when it holds any byte
   * upload it to the freed buffer and queue that buffer again. Once
   * `buffersReady` is set nothing is read and the buffer is dropped.
   */
  function Recycle(e: Engine, id: BufferId): (r: Engine)
    requires e.Valid()
    ensures r.Valid() && r.format == e.format && r.rate == e.rate
    ensures r.source.processed == e.source.processed && r.source.state == e.source.state
    ensures e.ready ==> r == e
    ensures !e.ready ==> r.source.queue == e.source.queue + [id] && Refilled(e, r, id)
  {
    var c := Fill(e.decoder, e.ready, true);
    var e' := e.(decoder := c.rest, ready := e.ready || c.dry, trace := e.trace + c.trace);
    if |c.data| > 0 then
      var up := Upload(id, e.format, c.data, e.rate);
      e'.(source := Enqueue(e.source, [id]), uploads := e.uploads + [up])
    else
      e'
  }

  /** A refill that finds the stream already exhausted still uploads and
      queues a whole chunk, all of it zeros, and sets `buffersReady`. */
  lemma RecycleAtEndQueuesSilence(e: Engine, id: BufferId)
    requires e.Valid() && !e.ready && e.decoder == []
    ensures var r := Recycle(e, id);
      && r.ready
      && r.source.queue == e.source.queue + [id]
      && r.uploads == e.uploads + [Upload(id, e.format, Zeros(CHUNK_SIZE), e.rate)]
  {
    var c := FillFrom(e.decoder, [], true);
    var s := Read(e.decoder, CHUNK_SIZE);
    assert s.result == End;
    assert c.dry && c.data == [] + Zeros(CHUNK_SIZE);
    assert [] + Zeros(CHUNK_SIZE) == Zeros(CHUNK_SIZE);
    assert Fill(e.decoder, e.ready, true) == c;
    var r := Recycle(e, id);
    assert |c.data| > 0;
  }

  /** One refill keeps the byte invariant and the shape of the uploads. */
  lemma RecycleConsistent(e: Engine, id: BufferId, d0: Decoder)
    requires e.Valid() && Consistent(e, d0) && Shaped(e)
    ensures Consistent(Recycle(e, id), d0) && Shaped(Recycle(e, id))
  {
    if !e.ready {
      var r := Recycle(e, id);
      var c := Fill(e.decoder, false, true);
      FillSound(e.decoder, false, true);
      var up := Upload(id, e.format, c.data, e.rate);
      var p := Positives(e.trace);
      assert r.uploads == e.uploads + [up];
      assert r.trace == e.trace + c.trace;
      StopsAppend(e.trace, c.trace, c.dry);
      PositivesAppend(e.trace, c.trace);
      PayloadAppend(e.uploads, [up]);
      UploadsCons(up, []);
      assert [up] + [] == [up];
      assert Payload(r.uploads) == p + c.data;
      Assoc(p, Positives(c.trace), Stream(c.rest));
      ZeroPaddedPrefix(p, c.data, Positives(c.trace), CHUNK_SIZE);
      FullAppend(e.uploads, [up]);
      TaggedAppend(e.uploads, [up], e.format, e.rate);
      FullIsFullBeforeLast(r.uploads);
    }
  }

  /** The uploads `e'` made after those of `e`. */
  function Added(e: Engine, e': Engine): seq<Upload>
    requires |e.uploads| <= |e'.uploads|
  {
    e'.uploads[|e.uploads|..]
  }

  /**
   * The whole `while (freeQueues > 0)` loop for `n` processed buffers: each
   * pass unqueues the oldest buffer and recycles it.
   */
  function RecycleAll(e: Engine, n: nat): (r: Engine)
    requires e.Valid() && n <= e.source.processed
    decreases n
    ensures r.Valid() && r.format == e.format && r.rate == e.rate
    ensures r.source.processed == e.source.processed - n && r.source.state == e.source.state
  {
    if n == 0 then e
    else
      var (id, src) := Unqueue(e.source);
      RecycleAll(Recycle(e.(source := src), id), n - 1)
  }

  /** The first pass of the loop, on its own. */
  lemma RecycleAllUnfold(e: Engine, n: nat)
    requires e.Valid() && 0 < n <= e.source.processed
    ensures var (id, src) := Unqueue(e.source);
      RecycleAll(e, n) == RecycleAll(Recycle(e.(source := src), id), n - 1)
  {
  }

  /** Once `buffersReady` is set, the `n` unqueued buffers are simply
      dropped: nothing is read, uploaded or queued again. */
  lemma {:induction false} RecycleAllFrozen(e: Engine, n: nat)
    requires e.Valid() && n <= e.source.processed && e.ready
    decreases n
    ensures var r := RecycleAll(e, n);
      && r.ready && r.decoder == e.decoder && r.trace == e.trace && r.uploads == e.uploads
      && r.source.queue == e.source.queue[n..]
  {
    if n > 0 {
      var (id, src) := Unqueue(e.source);
      var k := n - 1;
      RecycleAllFrozen(e.(source := src), k);
      SliceCons(id, src.queue, k);
    }
  }

  /** Recycling `n` buffers only appends uploads, at most one per buffer, and
      exactly one per buffer while the decoder has data; `buffersReady`
      never goes back to false. */
  lemma {:induction false} RecycleAllUploads(e: Engine, n: nat)
    requires e.Valid() && n <= e.source.processed
    decreases n
    ensures var r := RecycleAll(e, n);
      && e.uploads <= r.uploads
      && |r.uploads| <= |e.uploads| + n
      && (e.ready ==> r.ready)
      && (!r.ready ==> |r.uploads| == |e.uploads| + n)
  {
    if n > 0 {
      var (id, src) := Unqueue(e.source);
      var e2 := Recycle(e.(source := src), id);
      var k := n - 1;
      var r := RecycleAll(e2, k);
      assert RecycleAll(e, n) == r;
      RecycleAllUploads(e2, k);
      PrefixTrans(e.uploads, e2.uploads, r.uploads);
    }
  }

  /**
   * Unqueueing `n` processed buffers: the `n` oldest leave the queue, and
   * the buffers uploaded again are the oldest of those, in order, queued
   * behind the rest.
   */
  lemma {:induction false} RecycleAllQueue(e: Engine, n: nat)
    requires e.Valid() && n <= e.source.processed
    decreases n, 1
    ensures var r := RecycleAll(e, n);
      && |e.uploads| <= |r.uploads| <= |e.uploads| + n
      && r.source.queue == e.source.queue[n..] + Buffers(Added(e, r))
      && Buffers(Added(e, r)) == e.source.queue[..|Added(e, r)|]
  {
    RecycleAllUploads(e, n);
    if e.ready {
      RecycleAllFrozen(e, n);
      var r := RecycleAll(e, n);
      assert Added(e, r) == [];
    } else if n > 0 {
      RefillQueue(e, n);
    }
  }

  /** `RecycleAllQueue` when the first unqueued buffer is refilled. */
  lemma {:induction false} RefillQueue(e: Engine, n: nat)
    requires e.Valid() && 0 < n <= e.source.processed && !e.ready
    decreases n, 0
    ensures var r := RecycleAll(e, n);
      && |e.uploads| <= |r.uploads| <= |e.uploads| + n
      && r.source.queue == e.source.queue[n..] + Buffers(Added(e, r))
      && Buffers(Added(e, r)) == e.source.queue[..|Added(e, r)|]
  {
    var e2 := RefillStep(e, n);
    var k := n - 1;
    var u, q := QueueTail(e2, k);
    QueueStep(e.source.queue, k, e.uploads, e2.uploads, u, e2.source.queue, q);
  }

  /** `RecycleAllQueue` with the uploads and the queue at the end named. */
  lemma QueueTail(e: Engine, n: nat) returns (u: seq<Upload>, q: seq<BufferId>)
    requires e.Valid() && n <= e.source.processed
    decreases n, 2
    ensures u == RecycleAll(e, n).uploads && q == RecycleAll(e, n).source.queue
    ensures e.uploads <= u && |u| <= |e.uploads| + n
    ensures q == e.source.queue[n..] + Buffers(u[|e.uploads|..])
    ensures Buffers(u[|e.uploads|..]) == e.source.queue[..|u| - |e.uploads|]
  {
    RecycleAllQueue(e, n);
    RecycleAllUploads(e, n);
    u := RecycleAll(e, n).uploads;
    q := RecycleAll(e, n).source.queue;
  }

  /** The first pass of `RecycleAll` before `buffersReady`: the buffer
      unqueued first is refilled and queued at the back. */
  lemma RefillStep(e: Engine, n: nat) returns (e2: Engine)
    requires e.Valid() && 0 < n <= e.source.processed && !e.ready
    ensures e2.Valid() && n - 1 <= e2.source.processed
    ensures RecycleAll(e, n) == RecycleAll(e2, n - 1)
    ensures e.uploads <= e2.uploads && |e2.uploads| == |e.uploads| + 1
    ensures e2.uploads[|e.uploads|].buffer == e.source.queue[0]
    ensures e2.source.queue == e.source.queue[1..] + [e.source.queue[0]]
  {
    var (id, src) := Unqueue(e.source);
    e2 := Recycle(e.(source := src), id);
    RecycleAllUnfold(e, n);
  }

  /** `RefillQueue` on the sequences alone: `u`, `u2`, `ur` are the uploads
      before, after the first refill and at the end; `q`, `q2`, `rq` the
      queues. */
  lemma QueueStep(q: seq<BufferId>, k: nat, u: seq<Upload>, u2: seq<Upload>, ur: seq<Upload>, q2: seq<BufferId>, rq: seq<BufferId>)
    requires k < |q|
    requires u <= u2 && |u2| == |u| + 1 && u2[|u|].buffer == q[0]
    requires q2 == q[1..] + [q[0]]
    requires u2 <= ur && |ur| <= |u2| + k
    requires rq == q2[k..] + Buffers(ur[|u2|..])
    requires Buffers(ur[|u2|..]) == q2[..|ur| - |u2|]
    ensures |u| <= |ur| <= |u| + k + 1
    ensures rq == q[k + 1..] + Buffers(ur[|u|..])
    ensures Buffers(ur[|u|..]) == q[..|ur| - |u|]
  {
    var more := ur[|u2|..];
    SuffixStep(u, u2, ur);
    UploadsCons(u2[|u|], more);
    assert q == [q[0]] + q[1..];
    RotateStep(q[1..], q[0], k, rq, Buffers(more));
  }

  /** One refill step of the queue: `id` leaves the front and joins the
      back, ahead of the buffers `b` refilled after it. */
  lemma RotateStep<T>(q1: seq<T>, id: T, k: nat, rq: seq<T>, b: seq<T>)
    requires |b| <= k <= |q1|
    requires rq == (q1 + [id])[k..] + b
    requires b == (q1 + [id])[..|b|]
    ensures rq == ([id] + q1)[k + 1..] + ([id] + b)
    ensures [id] + b == ([id] + q1)[..|b| + 1]
  {
    SliceSnoc(q1, id, k);
    SliceSnoc(q1, id, |b|);
    SliceCons(id, q1, |b|);
    SliceCons(id, q1, k);
    Assoc(q1[k..], [id], b);
  }

  /** Every upload a refill adds is a whole chunk. */
  lemma RecycleFull(e: Engine, id: BufferId)
    requires e.Valid()
    ensures var r := Recycle(e, id); e.uploads <= r.uploads && Full(Added(e, r))
  {
    var r := Recycle(e, id);
    if !e.ready {
      assert Added(e, r) == [r.uploads[|e.uploads|]];
      assert Added(e, r)[1..] == [];
    }
  }

  /** Every upload the unqueue-refill loop adds is a whole chunk: only a
      priming buffer can be short. */
  lemma {:induction false} RecycleAllFull(e: Engine, n: nat)
    requires e.Valid() && n <= e.source.processed
    decreases n, 0
    ensures var r := RecycleAll(e, n); e.uploads <= r.uploads && Full(Added(e, r))
  {
    if n > 0 {
      var e2 := FullStep(e, n);
      var u := FullTail(e2, n - 1);
      FullChain(e.uploads, e2.uploads, u);
    }
  }

  /** `RecycleAllFull` with the uploads at the end named. */
  lemma FullTail(e: Engine, n: nat) returns (u: seq<Upload>)
    requires e.Valid() && n <= e.source.processed
    decreases n, 1
    ensures u == RecycleAll(e, n).uploads && e.uploads <= u && Full(u[|e.uploads|..])
  {
    RecycleAllFull(e, n);
    u := RecycleAll(e, n).uploads;
  }

  /** The first pass of `RecycleAll`, for `RecycleAllFull`: it adds nothing
      or one whole chunk. */
  lemma FullStep(e: Engine, n: nat) returns (e2: Engine)
    requires e.Valid() && 0 < n <= e.source.processed
    ensures e2.Valid() && n - 1 <= e2.source.processed
    ensures RecycleAll(e, n) == RecycleAll(e2, n - 1)
    ensures e.uploads <= e2.uploads && Full(Added(e, e2))
  {
    var (id, src) := Unqueue(e.source);
    e2 := Recycle(e.(source := src), id);
    RecycleAllUnfold(e, n);
    RecycleFull(e.(source := src), id);
  }

  /** Recycling `n` buffers keeps the byte invariant and the shape of the
      uploads. */
  lemma {:induction false} RecycleAllConsistent(e: Engine, n: nat, d0: Decoder)
    requires e.Valid() && n <= e.source.processed
    requires Consistent(e, d0) && Shaped(e)
    decreases n
    ensures Consistent(RecycleAll(e, n), d0) && Shaped(RecycleAll(e, n))
  {
    if n > 0 {
      var e2 := ConsistentStep(e, n, d0);
      RecycleAllConsistent(e2, n - 1, d0);
    }
  }

  /** The first pass of `RecycleAll`, for `RecycleAllConsistent`: it keeps
      the byte invariant and the shape. */
  lemma ConsistentStep(e: Engine, n: nat, d0: Decoder) returns (e2: Engine)
    requires e.Valid() && 0 < n <= e.source.processed
    requires Consistent(e, d0) && Shaped(e)
    ensures e2.Valid() && n - 1 <= e2.source.processed
    ensures RecycleAll(e, n) == RecycleAll(e2, n - 1)
    ensures Consistent(e2, d0) && Shaped(e2)
  {
    var (id, src) := Unqueue(e.source);
    e2 := Recycle(e.(source := src), id);
    RecycleAllUnfold(e, n);
    RecycleConsistent(e.(source := src), id, d0);
  }

  /** One pass of `while (!eof)`: the engine afterwards, and whether the pass
      set `eof`. */
  datatype Poll = Poll(engine: Engine, drained: bool)

  /**
   * One pass of the streaming loop, with `t` the device's progress since
   * the last pass: read `AL_SOURCE_STATE` and `AL_BUFFERS_PROCESSED`,
   * recycle that many buffers, then end the stream when the state read at
   * the start was neither playing nor paused and nothing is queued.
   */
  function PollOnce(e: Engine, t: Tick): (p: Poll)
    requires e.Valid()
    ensures p.engine.Valid() && p.engine.format == e.format && p.engine.rate == e.rate
    ensures p.engine.source.processed == 0 && p.engine.source.state == t.state
    ensures p.drained <==> t.state != Playing && t.state != Paused && |p.engine.source.queue| == 0
  {
    var src := Advance(e.source, t);
    var state := src.state;
    var freeQueues := src.processed;
    var r := RecycleAll(e.(source := src), freeQueues);
    Poll(r, state != Playing && state != Paused && |r.source.queue| == 0)
  }

  /**
   * A pass unqueues exactly the `m` buffers the source reported processed,
   * the oldest ones; the buffers it refills are the oldest of those, queued
   * again behind the rest, all `m` of them while the decoder has data.
   */
  lemma PollQueue(e: Engine, t: Tick)
    requires e.Valid()
    ensures var m := Advance(e.source, t).processed; var r := PollOnce(e, t).engine;
      && e.uploads <= r.uploads
      && |r.uploads| <= |e.uploads| + m <= |e.uploads| + |e.source.queue|
      && r.source.queue == e.source.queue[m..] + Buffers(Added(e, r))
      && Buffers(Added(e, r)) == e.source.queue[..|Added(e, r)|]
      && (!r.ready ==> |Added(e, r)| == m)
      && (e.ready ==> r.ready && r.decoder == e.decoder && r.trace == e.trace && r.uploads == e.uploads)
  {
    var src := Advance(e.source, t);
    var e' := e.(source := src);
    var m := src.processed;
    RecycleAllUploads(e', m);
    RecycleAllQueue(e', m);
    if e.ready {
      RecycleAllFrozen(e', m);
    }
  }

  /** A pass keeps the byte invariant, the shape of the uploads and the
      ring, and only appends whole chunks. */
  lemma PollInvariant(e: Engine, t: Tick, d0: Decoder, ids: seq<BufferId>)
    requires e.Valid() && Consistent(e, d0) && Shaped(e)
    ensures var r := PollOnce(e, t).engine;
      && Consistent(r, d0) && Shaped(r)
      && e.uploads <= r.uploads && Full(Added(e, r))
      && (Ring(e.source.queue, ids) ==> Ring(r.source.queue, ids))
  {
    var src := Advance(e.source, t);
    var r := PollOnce(e, t).engine;
    RecycleAllConsistent(e.(source := src), src.processed, d0);
    RecycleAllFull(e.(source := src), src.processed);
    PollQueue(e, t);
    if Ring(e.source.queue, ids) {
      RingRotate(e.source.queue, src.processed, |Added(e, r)|, ids);
    }
  }

  /** Once the decoder has run dry and the device has stopped after playing
      every queued buffer, the next pass ends the stream. */
  lemma PollDrains(e: Engine, t: Tick)
    requires e.Valid() && e.ready
    requires t.state == Stopped && e.source.processed + t.played >= |e.source.queue|
    ensures PollOnce(e, t).drained
  {
    PollQueue(e, t);
  }

  /** How the loop ended: `eof` was set, or the device's progress ran out
      first. */
  datatype Outcome = Drained(engine: Engine) | Pending(engine: Engine)

  /** The `while (!eof)` loop over the device's progress `ticks`, one pass
      per tick, stopping at the first pass that sets `eof`. */
  function Run(e: Engine, ticks: seq<Tick>): (o: Outcome)
    requires e.Valid()
    decreases |ticks|
    ensures o.engine.Valid() && o.engine.format == e.format && o.engine.rate == e.rate
    ensures o.Drained? ==> |o.engine.source.queue| == 0
    ensures o.Drained? ==> o.engine.source.state != Playing && o.engine.source.state != Paused
  {
    if |ticks| == 0 then Pending(e)
    else
      var p := PollOnce(e, ticks[0]);
      if p.drained then Drained(p.engine) else Run(p.engine, ticks[1..])
  }

  /** The loop keeps the byte invariant, the shape of the uploads and the
      ring, and every upload it adds is a whole chunk. */
  lemma {:induction false} RunInvariant(e: Engine, ticks: seq<Tick>, d0: Decoder, ids: seq<BufferId>)
    requires e.Valid() && Consistent(e, d0) && Shaped(e)
    decreases |ticks|
    ensures var r := Run(e, ticks).engine;
      && Consistent(r, d0) && Shaped(r)
      && e.uploads <= r.uploads && Full(Added(e, r))
      && (Ring(e.source.queue, ids) ==> Ring(r.source.queue, ids))
  {
    if |ticks| > 0 {
      var p := PollOnce(e, ticks[0]);
      var rest := ticks[1..];
      PollInvariant(e, ticks[0], d0, ids);
      if !p.drained {
        var r := Run(p.engine, rest).engine;
        assert Run(e, ticks) == Run(p.engine, rest);
        RunInvariant(p.engine, rest, d0, ids);
        FullChain(e.uploads, p.engine.uploads, r.uploads);
      }
    } else {
      assert Added(e, e) == [];
    }
  }

  /** The loop only ever appends uploads, and once the decoder has run dry
      it reads and uploads nothing more. */
  lemma {:induction false} RunAppends(e: Engine, ticks: seq<Tick>)
    requires e.Valid()
    decreases |ticks|
    ensures var r := Run(e, ticks).engine;
      && e.uploads <= r.uploads
      && (e.ready ==> r.ready && r.decoder == e.decoder && r.trace == e.trace && r.uploads == e.uploads)
  {
    if |ticks| > 0 {
      var p := PollOnce(e, ticks[0]);
      var rest := ticks[1..];
      PollQueue(e, ticks[0]);
      if !p.drained {
        assert Run(e, ticks) == Run(p.engine, rest);
        RunAppends(p.engine, rest);
        PrefixTrans(e.uploads, p.engine.uploads, Run(p.engine, rest).engine.uploads);
      }
    }
  }

  /** The loop never makes the queue longer: a pass requeues at most the
      buffers it unqueued. */
  lemma {:induction false} RunNeverGrows(e: Engine, ticks: seq<Tick>)
    requires e.Valid()
    decreases |ticks|
    ensures |Run(e, ticks).engine.source.queue| <= |e.source.queue|
  {
    if |ticks| > 0 {
      var p := PollOnce(e, ticks[0]);
      var rest := ticks[1..];
      PollQueue(e, ticks[0]);
      if !p.drained {
        assert Run(e, ticks) == Run(p.engine, rest);
        RunNeverGrows(p.engine, rest);
      }
    }
  }

  /** While the decoder has data every pass requeues every buffer it
      unqueues, so the loop cannot end before the decoder has run dry. */
  lemma {:induction false} RunDrainsOnlyWhenDry(e: Engine, ticks: seq<Tick>)
    requires e.Valid() && |e.source.queue| > 0
    decreases |ticks|
    ensures Run(e, ticks).Drained? ==> Run(e, ticks).engine.ready
  {
    if |ticks| > 0 {
      var p := PollOnce(e, ticks[0]);
      var rest := ticks[1..];
      PollQueue(e, ticks[0]);
      if !p.engine.ready {
        assert |p.engine.source.queue| == |e.source.queue|;
      }
      if !p.drained {
        assert Run(e, ticks) == Run(p.engine, rest);
        if p.engine.ready {
          RunAppends(p.engine, rest);
        } else {
          RunDrainsOnlyWhenDry(p.engine, rest);
        }
      }
    }
  }
}
