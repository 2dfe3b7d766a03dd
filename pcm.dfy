/** The raw-PCM fallback decoder of the voice service: headerless 16-bit
    little-endian signed mono samples at 24 000 Hz, normalised with the divisor
    32768 for negative and 32767 for non-negative samples. */
module Pcm {

  newtype byte = x: int | 0 <= x < 256

  predicate IsInt16(v: int) { -32768 <= v <= 32767 }

  /** The sample count of a buffer of `byteLength` bytes: an odd trailing byte is dropped. */
  function SampleCount(byteLength: nat): (n: nat)
    ensures 2 * n <= byteLength < 2 * n + 2
  {
    var adjustedLength := if byteLength % 2 == 0 then byteLength else byteLength - 1;
    adjustedLength / 2
  }

  /** `DataView.getInt16(offset, true)` on the bytes `lo`, `hi`: the 16-bit
      two's-complement value whose low byte is `lo`. */
  function Int16LE(lo: byte, hi: byte): (v: int)
    ensures IsInt16(v)
    ensures (v - (lo as int + 256 * hi as int)) % 65536 == 0
  {
    var u := lo as int + 256 * hi as int;
    if u >= 32768 then u - 65536 else u
  }

  /** The normalisation of one sample. */
  function Normalize(sample: int): (r: real)
    requires IsInt16(sample)
    ensures -1.0 <= r <= 1.0
    ensures r < 0.0 <==> sample < 0
    ensures sample == -32768 ==> r == -1.0
    ensures sample == 32767 ==> r == 1.0
  {
    if sample < 0 then sample as real / 32768.0 else sample as real / 32767.0
  }

  /** The signed samples a byte buffer holds. */
  function Samples(data: seq<byte>): (s: seq<int>)
    ensures |s| == SampleCount(|data|)
  {
    seq(SampleCount(|data|), i requires 0 <= i < SampleCount(|data|) => Int16LE(data[2 * i], data[2 * i + 1]))
  }

  /** The channel data the fallback decoder produces for `data`. */
  function Channel(data: seq<byte>): (c: seq<real>)
    ensures |c| == SampleCount(|data|)
  {
    var s := Samples(data);
    seq(|s|, i requires 0 <= i < |s| => Normalize(s[i]))
  }

  /** `pcmToAudioBuffer`: fills a fresh channel buffer sample by sample. */
  method PcmToAudioBuffer(data: seq<byte>) returns (channelData: array<real>)
    ensures fresh(channelData)
    ensures channelData[..] == Channel(data)
  {
    var byteLength := |data|;
    var adjustedLength := if byteLength % 2 == 0 then byteLength else byteLength - 1;
    var numSamples := adjustedLength / 2;
    channelData := new real[numSamples];
    var i := 0;
    while i < numSamples
      invariant 0 <= i <= numSamples
      invariant forall k :: 0 <= k < i ==> channelData[k] == Channel(data)[k]
    {
      var sample := Int16LE(data[i * 2], data[i * 2 + 1]);
      channelData[i] := if sample < 0 then sample as real / 32768.0 else sample as real / 32767.0;
      i := i + 1;
    }
  }

  // ---------------------------------------------------------------- properties

  /** Normalisation is strictly increasing, so distinct samples stay distinct. */
  lemma NormalizeIncreasing(a: int, b: int)
    requires IsInt16(a) && IsInt16(b) && a < b
    ensures Normalize(a) < Normalize(b)
  {
  }

  /** The inverse of the normalisation. */
  function Denormalize(x: real): real {
    if x < 0.0 then x * 32768.0 else x * 32767.0
  }

  lemma DenormalizeNormalize(v: int)
    requires IsInt16(v)
    ensures Denormalize(Normalize(v)) == v as real
  {
  }

  /** The two little-endian bytes of a 16-bit sample. */
  function EncodeSample(v: int): (b: seq<byte>)
    requires IsInt16(v)
    ensures |b| == 2 && Int16LE(b[0], b[1]) == v
  {
    var u := if v < 0 then v + 65536 else v;
    [(u % 256) as byte, (u / 256) as byte]
  }

  function Encode(samples: seq<int>): seq<byte>
    requires forall i :: 0 <= i < |samples| ==> IsInt16(samples[i])
  {
    if samples == [] then [] else EncodeSample(samples[0]) + Encode(samples[1..])
  }

  lemma {:induction false} EncodeLayout(samples: seq<int>)
    requires forall i :: 0 <= i < |samples| ==> IsInt16(samples[i])
    ensures |Encode(samples)| == 2 * |samples|
    ensures forall i :: 0 <= i < |samples| ==>
      Encode(samples)[2 * i] == EncodeSample(samples[i])[0] &&
      Encode(samples)[2 * i + 1] == EncodeSample(samples[i])[1]
  {
    if samples != [] {
      var tail := samples[1..];
      EncodeLayout(tail);
      var e := Encode(samples);
      assert e == EncodeSample(samples[0]) + Encode(tail);
      forall i | 0 <= i < |samples|
        ensures e[2 * i] == EncodeSample(samples[i])[0] && e[2 * i + 1] == EncodeSample(samples[i])[1]
      {
        if i > 0 {
          var j := i - 1;
          assert samples[i] == tail[j];
          assert e[2 * i] == Encode(tail)[2 * j];
          assert e[2 * i + 1] == Encode(tail)[2 * j + 1];
        }
      }
    }
  }

  lemma SampleAt(data: seq<byte>, i: nat)
    requires i < SampleCount(|data|)
    ensures Samples(data)[i] == Int16LE(data[2 * i], data[2 * i + 1])
  {
  }

  /** Decoding the little-endian encoding of 16-bit samples gives the samples back. */
  lemma DecodeEncode(samples: seq<int>)
    requires forall i :: 0 <= i < |samples| ==> IsInt16(samples[i])
    ensures Samples(Encode(samples)) == samples
  {
    EncodeLayout(samples);
    var e := Encode(samples);
    assert |Samples(e)| == |samples|;
    forall i | 0 <= i < |samples| ensures Samples(e)[i] == samples[i] {
      SampleAt(e, i);
      var pair := EncodeSample(samples[i]);
      assert e[2 * i] == pair[0] && e[2 * i + 1] == pair[1];
    }
  }

  /** So the fallback decoder yields the normalised value of every encoded sample
      (as an exact real; the channel itself stores it rounded to single precision). */
  lemma ChannelOfEncoding(samples: seq<int>)
    requires forall i :: 0 <= i < |samples| ==> IsInt16(samples[i])
    ensures |Channel(Encode(samples))| == |samples|
    ensures forall i :: 0 <= i < |samples| ==> Channel(Encode(samples))[i] == Normalize(samples[i])
  {
    DecodeEncode(samples);
  }

  /** An odd trailing byte does not change the decoded channel. */
  lemma TrailingByteIgnored(data: seq<byte>, b: byte)
    requires |data| % 2 == 0
    ensures Channel(data + [b]) == Channel(data)
  {
    var d := data + [b];
    assert SampleCount(|d|) == SampleCount(|data|);
    forall i | 0 <= i < SampleCount(|data|) ensures Samples(d)[i] == Samples(data)[i] {
      assert d[2 * i] == data[2 * i] && d[2 * i + 1] == data[2 * i + 1];
    }
    assert Samples(d) == Samples(data);
  }
}
