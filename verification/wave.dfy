/**
 * `wave_load`: the canonical 44-byte RIFF WAVE header and the sample data
 * behind it, copied field by field out of the file with no validation.
 */
module Wave {
  import opened Wrappers
  import opened Bytes
  import opened LittleEndian

  newtype uint16 = x: int | 0 <= x < 0x1_0000
  newtype uint32 = x: int | 0 <= x < 0x1_0000_0000

  /** A four-character chunk tag such as "RIFF", kept as raw bytes. */
  type FourCC = s: seq<byte> | |s| == 4 witness [0, 0, 0, 0]

  /** Bytes 0-11 of the file. */
  datatype RiffHeader = RiffHeader(chunkId: FourCC, chunkSize: uint32, format: FourCC)

  /** Bytes 12-35 of the file. */
  datatype FmtSubchunk = FmtSubchunk(
    subchunk1Id: FourCC,
    subchunk1Size: uint32,
    audioFormat: uint16,
    numChannels: uint16,
    sampleRate: uint32,
    byteRate: uint32,
    blockAlign: uint16,
    bitsPerSample: uint16)

  /** Bytes 36-43 of the file and the `subchunk2Size` bytes after them. */
  datatype DataSubchunk = DataSubchunk(subchunk2Id: FourCC, subchunk2Size: uint32, data: seq<byte>)

  datatype WaveFile = WaveFile(riff: RiffHeader, fmt: FmtSubchunk, data: DataSubchunk)

  const NoTag: FourCC := [0, 0, 0, 0]

  /** The value-initialised `WaveFile {}`. */
  const Blank: WaveFile := WaveFile(
    RiffHeader(NoTag, 0, NoTag),
    FmtSubchunk(NoTag, 0, 0, 0, 0, 0, 0, 0),
    DataSubchunk(NoTag, 0, []))

  /** Byte `k` as `wave_load` sees it: the file's byte, or the zero the
      destination was initialised with when the read stopped at end of
      file before reaching it. */
  function ByteAt(file: seq<byte>, k: nat): byte
  {
    if k < |file| then file[k] else 0
  }

  /** The `n` bytes from offset `off`: the slice of the file that lies
      inside it, then zeros for whatever lies past end of file. */
  function Field(file: seq<byte>, off: nat, n: nat): (f: seq<byte>)
    ensures |f| == n
    ensures off + n <= |file| ==> f == file[off..off + n]
    ensures off < |file| < off + n ==> f == file[off..] + Zeros(off + n - |file|)
    ensures |file| <= off ==> f == Zeros(n)
  {
    var f := seq(n, i requires 0 <= i < n => ByteAt(file, off + i));
    var g := if |file| <= off then Zeros(n)
      else if off + n <= |file| then file[off..off + n]
      else file[off..] + Zeros(off + n - |file|);
    assert f == g by {
      forall i | 0 <= i < n ensures f[i] == g[i] {
        assert f[i] == ByteAt(file, off + i);
        if off < |file| < off + n && |file| <= off + i {
          var z := Zeros(off + n - |file|);
          assert g[i] == z[i - (|file| - off)];
        }
      }
    }
    f
  }

  function U16(b: seq<byte>): uint16
    requires |b| == 2
  {
    Widths();
    Le(b) as uint16
  }

  function U32(b: seq<byte>): uint32
    requires |b| == 4
  {
    Widths();
    Le(b) as uint32
  }

  function U16Bytes(x: uint16): (b: seq<byte>)
    ensures |b| == 2
  {
    Widths();
    LeBytes(x as nat, 2)
  }

  function U32Bytes(x: uint32): (b: seq<byte>)
    ensures |b| == 4
  {
    Widths();
    LeBytes(x as nat, 4)
  }

  /** `file.read((char*)&riff, sizeof(riff))` on a little-endian host. */
  function DecodeRiff(b: seq<byte>): RiffHeader
    requires |b| == 12
  {
    RiffHeader(b[0..4], U32(b[4..8]), b[8..12])
  }

  function EncodeRiff(r: RiffHeader): (b: seq<byte>)
    ensures |b| == 12
  {
    r.chunkId + U32Bytes(r.chunkSize) + r.format
  }

  /** `file.read((char*)&fmt, sizeof(fmt))` on a little-endian host. */
  function DecodeFmt(b: seq<byte>): FmtSubchunk
    requires |b| == 24
  {
    FmtSubchunk(b[0..4], U32(b[4..8]), U16(b[8..10]), U16(b[10..12]),
      U32(b[12..16]), U32(b[16..20]), U16(b[20..22]), U16(b[22..24]))
  }

  function EncodeFmt(f: FmtSubchunk): (b: seq<byte>)
    ensures |b| == 24
  {
    f.subchunk1Id + U32Bytes(f.subchunk1Size) + U16Bytes(f.audioFormat) + U16Bytes(f.numChannels)
      + U32Bytes(f.sampleRate) + U32Bytes(f.byteRate) + U16Bytes(f.blockAlign) + U16Bytes(f.bitsPerSample)
  }

  /**
   * `wave_load` on the contents of the named file, `None` when it cannot be
   * opened. The RIFF header is bytes 0-11, the fmt subchunk bytes 12-35 and
   * the data header always bytes 36-43; then `subchunk2Size` bytes of
   * sample data, zero where the file ends early.
   */
  function Load(file: Option<seq<byte>>): (w: WaveFile)
    ensures file.None? ==> w == Blank
    ensures |w.data.data| == w.data.subchunk2Size as nat
    ensures file.Some? ==> w.data.subchunk2Size as nat == Le(Field(file.value, 40, 4))
    ensures file.Some? ==> forall i :: 0 <= i < |w.data.data| ==> w.data.data[i] == ByteAt(file.value, 44 + i)
  {
    match file
    case None => Blank
    case Some(f) =>
      var size := U32(Field(f, 40, 4));
      WaveFile(
        DecodeRiff(Field(f, 0, 12)),
        DecodeFmt(Field(f, 12, 24)),
        DataSubchunk(Field(f, 36, 4), size, Field(f, 44, size as nat)))
  }

  /** The bytes of a well-formed WAVE file with header and data `w`. */
  function Encode(w: WaveFile): (f: seq<byte>)
    requires |w.data.data| == w.data.subchunk2Size as nat
    ensures |f| == 44 + |w.data.data|
  {
    EncodeRiff(w.riff) + EncodeFmt(w.fmt) + w.data.subchunk2Id + U32Bytes(w.data.subchunk2Size) + w.data.data
  }

  lemma U16RoundTrip(x: uint16, b: seq<byte>)
    requires |b| == 2
    ensures U16(U16Bytes(x)) == x && U16Bytes(U16(b)) == b
  {
    Widths();
    LeOfLeBytes(x as nat, 2);
    LeBytesOfLe(b);
  }

  lemma U32RoundTrip(x: uint32, b: seq<byte>)
    requires |b| == 4
    ensures U32(U32Bytes(x)) == x && U32Bytes(U32(b)) == b
  {
    Widths();
    LeOfLeBytes(x as nat, 4);
    LeBytesOfLe(b);
  }

  /** The RIFF header codec is a bijection between headers and 12-byte
      blocks. */
  lemma RiffRoundTrip(r: RiffHeader, b: seq<byte>)
    requires |b| == 12
    ensures DecodeRiff(EncodeRiff(r)) == r
    ensures EncodeRiff(DecodeRiff(b)) == b
  {
    var e := EncodeRiff(r);
    assert e[0..4] == r.chunkId && e[4..8] == U32Bytes(r.chunkSize) && e[8..12] == r.format;
    U32RoundTrip(r.chunkSize, b[4..8]);
    assert b == b[0..4] + b[4..8] + b[8..12];
  }

  /** The fmt subchunk codec is a bijection between subchunks and 24-byte
      blocks. */
  lemma FmtRoundTrip(f: FmtSubchunk, b: seq<byte>)
    requires |b| == 24
    ensures DecodeFmt(EncodeFmt(f)) == f
    ensures EncodeFmt(DecodeFmt(b)) == b
  {
    FmtDecodeEncode(f);
    FmtEncodeDecode(b);
  }

  /** Decoding an encoded fmt subchunk gives it back. */
  lemma FmtDecodeEncode(f: FmtSubchunk)
    ensures DecodeFmt(EncodeFmt(f)) == f
  {
    var e := EncodeFmt(f);
    var front := f.subchunk1Id + U32Bytes(f.subchunk1Size) + U16Bytes(f.audioFormat) + U16Bytes(f.numChannels)
      + U32Bytes(f.sampleRate) + U32Bytes(f.byteRate) + U16Bytes(f.blockAlign);
    var last := U16Bytes(f.bitsPerSample);
    assert e == front + last && |front| == 22;
    assert e[0..4] == f.subchunk1Id;
    assert e[4..8] == U32Bytes(f.subchunk1Size);
    assert e[8..10] == U16Bytes(f.audioFormat);
    assert e[10..12] == U16Bytes(f.numChannels);
    assert e[12..16] == U32Bytes(f.sampleRate);
    assert e[16..20] == U32Bytes(f.byteRate);
    assert e[20..22] == U16Bytes(f.blockAlign);
    assert e[22..24] == last by {
      assert forall i :: 0 <= i < 2 ==> e[22 + i] == last[i];
    }
    U32RoundTrip(f.subchunk1Size, U32Bytes(f.subchunk1Size));
    U16RoundTrip(f.audioFormat, U16Bytes(f.audioFormat));
    U16RoundTrip(f.numChannels, U16Bytes(f.numChannels));
    U32RoundTrip(f.sampleRate, U32Bytes(f.sampleRate));
    U32RoundTrip(f.byteRate, U32Bytes(f.byteRate));
    U16RoundTrip(f.blockAlign, U16Bytes(f.blockAlign));
    U16RoundTrip(f.bitsPerSample, U16Bytes(f.bitsPerSample));
  }

  /** Encoding a decoded 24-byte block gives it back. */
  lemma FmtEncodeDecode(b: seq<byte>)
    requires |b| == 24
    ensures EncodeFmt(DecodeFmt(b)) == b
  {
    U32RoundTrip(U32(b[4..8]), b[4..8]);
    U16RoundTrip(U16(b[8..10]), b[8..10]);
    U16RoundTrip(U16(b[10..12]), b[10..12]);
    U32RoundTrip(U32(b[12..16]), b[12..16]);
    U32RoundTrip(U32(b[16..20]), b[16..20]);
    U16RoundTrip(U16(b[20..22]), b[20..22]);
    U16RoundTrip(U16(b[22..24]), b[22..24]);
    assert b == b[0..4] + b[4..8] + b[8..10] + b[10..12] + b[12..16] + b[16..20] + b[20..22] + b[22..24];
  }

  /** Where each part of an encoded file lies. */
  lemma EncodeLayout(w: WaveFile)
    requires |w.data.data| == w.data.subchunk2Size as nat
    ensures var f := Encode(w);
      && f[0..12] == EncodeRiff(w.riff)
      && f[12..36] == EncodeFmt(w.fmt)
      && f[36..40] == w.data.subchunk2Id
      && f[40..44] == U32Bytes(w.data.subchunk2Size)
      && f[44..] == w.data.data
  {
  }

  /** Loading a well-formed file gives back exactly the header and data it
      was written from. */
  lemma LoadEncode(w: WaveFile)
    requires |w.data.data| == w.data.subchunk2Size as nat
    ensures Load(Some(Encode(w))) == w
  {
    var f := Encode(w);
    EncodeLayout(w);
    RiffRoundTrip(w.riff, f[0..12]);
    FmtRoundTrip(w.fmt, f[12..36]);
    U32RoundTrip(w.data.subchunk2Size, f[40..44]);
    assert f[44..44 + |w.data.data|] == f[44..];
  }

  /** Conversely, a file that holds all the data its header announces is
      the encoding of what it loads to, up to any bytes after that data. */
  lemma EncodeLoad(f: seq<byte>)
    requires |f| >= 44 && |f| >= 44 + U32(f[40..44]) as nat
    ensures Encode(Load(Some(f))) == f[..44 + U32(f[40..44]) as nat]
  {
    var n := U32(f[40..44]) as nat;
    var w := Load(Some(f));
    EncodeLayout(w);
    RiffRoundTrip(w.riff, f[0..12]);
    FmtRoundTrip(w.fmt, f[12..36]);
    U32RoundTrip(w.data.subchunk2Size, f[40..44]);
    var e := Encode(w);
    assert e == f[..44 + n] by {
      assert forall i :: 0 <= i < 12 ==> e[i] == e[0..12][i];
      assert forall i :: 12 <= i < 36 ==> e[i] == e[12..36][i - 12];
      assert forall i :: 36 <= i < 40 ==> e[i] == e[36..40][i - 36];
      assert forall i :: 40 <= i < 44 ==> e[i] == e[40..44][i - 40];
      assert forall i :: 44 <= i < 44 + n ==> e[i] == e[44..][i - 44];
    }
  }

  /** Two files that agree byte for byte, counting bytes past the end as
      zero, load the same. */
  lemma LoadSameBytes(f: seq<byte>, g: seq<byte>)
    requires forall k: nat :: ByteAt(f, k) == ByteAt(g, k)
    ensures Load(Some(f)) == Load(Some(g))
  {
    forall off: nat, n: nat ensures Field(f, off, n) == Field(g, off, n) {
      forall i | 0 <= i < n ensures Field(f, off, n)[i] == Field(g, off, n)[i] {
        FieldAt(f, off, n, i);
        FieldAt(g, off, n, i);
      }
    }
  }

  /** Byte `i` of a field is the file's byte at `off + i`, zero past the end. */
  lemma FieldAt(file: seq<byte>, off: nat, n: nat, i: nat)
    requires i < n
    ensures Field(file, off, n)[i] == ByteAt(file, off + i)
  {
  }

  /** Nothing `wave_load` reads distinguishes a file that ends early from
      one that goes on with zero bytes: whatever lies past end of file
      loads as zero. */
  lemma LoadZeroExtension(f: seq<byte>, m: nat)
    ensures Load(Some(f + Zeros(m))) == Load(Some(f))
  {
    forall k: nat ensures ByteAt(f + Zeros(m), k) == ByteAt(f, k) {
    }
    LoadSameBytes(f + Zeros(m), f);
  }

  /** An empty or all-zero file loads like one that could not be opened:
      `wave_load` cannot tell them apart. */
  lemma LoadBlankFile(m: nat)
    ensures Load(Some(Zeros(m))) == Load(None)
  {
    LoadZeroExtension([], m);
    assert [] + Zeros(m) == Zeros(m);
    ZerosDecode();
  }

  /** All-zero fields decode to zero. */
  lemma ZerosDecode()
    ensures DecodeRiff(Zeros(12)) == Blank.riff
    ensures DecodeFmt(Zeros(24)) == Blank.fmt
    ensures U32(Zeros(4)) == 0
  {
    LeZeros(2);
    LeZeros(4);
    var r := Zeros(12);
    assert r[0..4] == NoTag && r[4..8] == Zeros(4) && r[8..12] == NoTag;
    var f := Zeros(24);
    assert f[0..4] == NoTag && f[4..8] == Zeros(4) && f[12..16] == Zeros(4) && f[16..20] == Zeros(4);
    assert f[8..10] == Zeros(2) && f[10..12] == Zeros(2) && f[20..22] == Zeros(2) && f[22..24] == Zeros(2);
  }

  lemma {:induction false} LeZeros(n: nat)
    ensures Le(Zeros(n)) == 0
  {
    if n > 0 {
      assert Zeros(n)[1..] == Zeros(n - 1);
      LeZeros(n - 1);
    }
  }

  /**
   * The data subchunk depends only on bytes 36 onwards: whatever the first
   * 36 bytes say, `subchunk1Size` included, the data header is read at
   * bytes 36-43 and the data right after it.
   */
  lemma DataIgnoresHeaders(f: seq<byte>, g: seq<byte>)
    requires |f| >= 36 && |g| == 36
    ensures Load(Some(g + f[36..])).data == Load(Some(f)).data
  {
    var h := g + f[36..];
    forall off: nat, n: nat | off >= 36 ensures Field(h, off, n) == Field(f, off, n) {
      forall i | 0 <= i < n ensures Field(h, off, n)[i] == Field(f, off, n)[i] {
        FieldAt(h, off, n, i);
        FieldAt(f, off, n, i);
      }
    }
  }
}
