/**
 * A fake OpenAL streaming source: the queue of buffer names attached to it,
 * how many of those (from the front) have finished playing, and its state.
 */
module OpenAL {

  /** A buffer name as returned by `alGenBuffers`. */
  type BufferId = nat

  /** `AL_SOURCE_STATE`. */
  datatype PlayState = Initial | Playing | Paused | Stopped

  /** The part of a source a streaming player observes. */
  datatype Source = Source(queue: seq<BufferId>, processed: nat, state: PlayState)
  {
    /** Processed buffers are always queued ones. */
    predicate Valid()
    {
      processed <= |queue|
    }
  }

  /** What the device did between two polls: it finished `played` more
      buffers and now reports `state`. */
  datatype Tick = Tick(played: nat, state: PlayState)

  /** A source freshly made by `alGenSources`. */
  const Fresh: Source := Source([], 0, Initial)

  /** No buffer name appears twice in `q`. */
  predicate Distinct(q: seq<BufferId>)
  {
    forall i, j :: 0 <= i < j < |q| ==> q[i] != q[j]
  }

  /** `alSourceQueueBuffers`: the buffers join the back of the queue, unplayed. */
  function Enqueue(s: Source, ids: seq<BufferId>): (r: Source)
    requires s.Valid()
    ensures r.Valid()
    ensures r.queue == s.queue + ids
    ensures r.processed == s.processed && r.state == s.state
  {
    s.(queue := s.queue + ids)
  }

  /** `alSourceUnqueueBuffers(source, 1, &id)`: the oldest processed buffer
      leaves the front of the queue. OpenAL refuses the call when nothing has
      been processed, so it is only defined when something has. */
  function Unqueue(s: Source): (r: (BufferId, Source))
    requires s.Valid() && s.processed > 0
    ensures r.1.Valid()
    ensures [r.0] + r.1.queue == s.queue
    ensures r.1.processed == s.processed - 1 && r.1.state == s.state
  {
    (s.queue[0], s.(queue := s.queue[1..], processed := s.processed - 1))
  }

  /** `alSourcePlay`. */
  function Play(s: Source): (r: Source)
    requires s.Valid()
    ensures r.Valid() && r.state == Playing
    ensures r.queue == s.queue && r.processed == s.processed
  {
    s.(state := Playing)
  }

  /** The device's own progress: up to `t.played` more queued buffers finish
      (never more than are queued) and the state becomes `t.state`. */
  function Advance(s: Source, t: Tick): (r: Source)
    requires s.Valid()
    ensures r.Valid()
    ensures r.queue == s.queue && r.state == t.state
    ensures s.processed <= r.processed <= s.processed + t.played
    ensures r.processed < s.processed + t.played ==> r.processed == |s.queue|
  {
    var more := if s.processed + t.played <= |s.queue| then t.played else |s.queue| - s.processed;
    s.(processed := s.processed + more, state := t.state)
  }

  /** The queue of a streaming ring: distinct buffers, all drawn from the
      generated `ids`. */
  predicate Ring(q: seq<BufferId>, ids: seq<BufferId>)
  {
    Distinct(q) && forall i :: 0 <= i < |q| ==> q[i] in ids
  }

  /** Dropping the `m` oldest buffers and queueing the `j <= m` oldest of
      them again keeps a ring a ring. */
  lemma RingRotate(q: seq<BufferId>, m: nat, j: nat, ids: seq<BufferId>)
    requires Ring(q, ids) && j <= m <= |q|
    ensures Ring(q[m..] + q[..j], ids)
  {
  }

  /** The first `n` of distinct generated buffers form a ring. */
  lemma PrefixRing(ids: seq<BufferId>, n: nat)
    requires Distinct(ids) && n <= |ids|
    ensures Ring(ids[..n], ids)
  {
  }
}
