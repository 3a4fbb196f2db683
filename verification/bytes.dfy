/** Raw bytes and the zero padding the streaming engine appends. */
module Bytes {

  /** An 8-bit value, as stored in a `char` PCM buffer or a `uint8_t` file byte. */
  newtype byte = x: int | 0 <= x < 256

  /** `n` bytes of silence (`0x00`). */
  function Zeros(n: nat): (z: seq<byte>)
    ensures |z| == n
    ensures forall i :: 0 <= i < n ==> z[i] == 0
  {
    seq(n, _ => 0)
  }

  /** `payload` is `data` followed by at most `limit` zero bytes. */
  predicate ZeroPadded(payload: seq<byte>, data: seq<byte>, limit: nat)
  {
    && |data| <= |payload| <= |data| + limit
    && payload[..|data|] == data
    && forall i :: |data| <= i < |payload| ==> payload[i] == 0
  }

  /** Concatenation is associative; stated once so that proofs over long
      byte streams can regroup without re-deriving it element by element. */
  lemma Assoc<T>(a: seq<T>, b: seq<T>, c: seq<T>)
    ensures (a + b) + c == a + (b + c)
  {
  }

  /** A prefix one longer is the first element before a prefix of the rest. */
  lemma PrefixCons<T>(s: seq<T>, k: nat)
    requires 0 < |s| && k < |s|
    ensures s[..k + 1] == [s[0]] + s[1..][..k]
  {
  }

  /** A common prefix keeps `ZeroPadded`. */
  lemma ZeroPaddedPrefix(p: seq<byte>, payload: seq<byte>, data: seq<byte>, limit: nat)
    requires ZeroPadded(payload, data, limit)
    ensures ZeroPadded(p + payload, p + data, limit)
  {
    assert (p + payload)[..|p + data|] == p + payload[..|data|];
    assert forall i :: |p + data| <= i < |p + payload| ==> (p + payload)[i] == payload[i - |p|];
  }

  /** Dropping and taking after one element is put in front. */
  lemma SliceCons<T>(x: T, s: seq<T>, m: nat)
    requires m <= |s|
    ensures ([x] + s)[m + 1..] == s[m..]
    ensures ([x] + s)[..m + 1] == [x] + s[..m]
  {
  }

  /** Dropping and taking after one element is put at the back. */
  lemma SliceSnoc<T>(s: seq<T>, x: T, m: nat)
    requires m <= |s|
    ensures (s + [x])[m..] == s[m..] + [x]
    ensures (s + [x])[..m] == s[..m]
  {
  }

  /** The last element survives putting one more in front. */
  lemma LastOfCons<T>(x: T, s: seq<T>)
    requires |s| > 0
    ensures ([x] + s)[|s|] == s[|s| - 1]
  {
  }

  /** Being a prefix is transitive. */
  lemma PrefixTrans<T>(a: seq<T>, b: seq<T>, c: seq<T>)
    requires a <= b && b <= c
    ensures a <= c
  {
  }

  /** What `c` adds to `a` is what `b` adds to `a`, then what `c` adds to
      `b`. */
  lemma SuffixSplit<T>(a: seq<T>, b: seq<T>, c: seq<T>)
    requires a <= b && b <= c
    ensures c[|a|..] == b[|a|..] + c[|b|..]
  {
    assert c == b + c[|b|..];
  }

  /** What `c` adds to `a` is the one element `b` adds, then what `c` adds
      to `b`. */
  lemma SuffixStep<T>(a: seq<T>, b: seq<T>, c: seq<T>)
    requires a <= b && |b| == |a| + 1 && b <= c
    ensures c[|a|..] == [b[|a|]] + c[|b|..]
  {
  }
}
