/** Choosing the OpenAL sample format from the Vorbis channel count. */
module Format {
  import opened Wrappers

  /** The two 16-bit PCM layouts the players hand to `alBufferData`. */
  datatype SampleFormat = Mono16 | Stereo16

  /** Why a player gives up. */
  datatype Failure = UnsupportedChannels(channels: int)

  /** The number of interleaved channels a sample format carries. */
  function Channels(f: SampleFormat): (n: int)
  {
    match f
    case Mono16 => 1
    case Stereo16 => 2
  }

  /** `detectFormat`: one channel is mono, two are stereo, anything else is fatal. */
  function DetectFormat(channels: int): (r: Result<SampleFormat, Failure>)
    ensures r.Ok? <==> channels == 1 || channels == 2
    ensures r.Ok? ==> Channels(r.value) == channels
    ensures r.Err? ==> r.error == UnsupportedChannels(channels)
  {
    if channels == 1 then Ok(Mono16)
    else if channels == 2 then Ok(Stereo16)
    else Err(UnsupportedChannels(channels))
  }

  /** Detection inverts `Channels`: every supported format is recognised from its own channel count. */
  lemma DetectFormatInvertsChannels(f: SampleFormat)
    ensures DetectFormat(Channels(f)) == Ok(f)
  {
  }
}
