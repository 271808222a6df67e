/** AAC frames behind ADTS headers (section 6.2 of ISO/IEC 13818-7). */
module AacFrames {
  import opened Bytes

  /** The object types of an AudioSpecificConfig. */
  const OBJECT_MAIN := 1
  const OBJECT_LC := 2
  const OBJECT_SSR := 3
  const OBJECT_HE := 5
  const OBJECT_HE_V2 := 29

  type nibble = x: int | 0 <= x < 16

  /** Object type, and the two four-bit fields of the configuration. */
  datatype Config = Config(objectType: nat, rateIndex: nibble, channels: nibble)

  function Profile(objectType: nat): (p: nat)
    ensures p < 4
  {
    if objectType == OBJECT_MAIN then 0
    else if objectType == OBJECT_HE || objectType == OBJECT_HE_V2 || objectType == OBJECT_LC then 1
    else if objectType == OBJECT_SSR then 2
    else 3
  }

  /** The seven header bytes; every field keeps only its own bits. */
  function AdtsHeader(c: Config, frameLength: nat): (h: seq<byte>)
    ensures |h| == 7
  {
    [0xff, 0xf9,
     Profile(c.objectType) * 64 + c.rateIndex * 4 + c.channels / 4 % 2,
     c.channels % 4 * 64 + frameLength / 2048 % 4,
     frameLength / 8 % 256,
     frameLength % 8 * 32 + 0x1f,
     0xfc]
  }

  datatype Encoded = Nothing | Invalid | Frame(payload: seq<byte>)

  // ---- The decoder's view ----

  /**
   * Sync word; MPEG-2, layer 0 and no CRC; the private, copy and home bits zero; buffer fullness 0x7FF; one block of
   * data.
   */
  predicate Synced(h: seq<byte>)
    requires |h| >= 7
  {
    h[0] == 0xff && h[1] as int / 16 == 0xf && h[1] as int % 16 == 9 && h[2] as int / 2 % 2 == 0 &&
    h[3] as int / 4 % 16 == 0 && h[5] as int % 32 == 31 && h[6] as int / 4 == 63 && h[6] as int % 4 == 0
  }

  function ReadProfile(h: seq<byte>): nat
    requires |h| >= 7
  {
    h[2] as int / 64
  }

  function ReadRate(h: seq<byte>): nat
    requires |h| >= 7
  {
    h[2] as int / 4 % 16
  }

  function ReadChannels(h: seq<byte>): nat
    requires |h| >= 7
  {
    h[2] as int % 2 * 4 + h[3] as int / 64
  }

  function ReadFrameLength(h: seq<byte>): nat
    requires |h| >= 7
  {
    h[3] as int % 4 * 2048 + h[4] as int * 8 + h[5] as int / 32
  }

  lemma ProfileAndRate(c: Config, n: nat, tail: seq<byte>)
    ensures var f := AdtsHeader(c, n) + tail;
            Synced(f) && ReadProfile(f) == ProfileOf(c.objectType) && ReadRate(f) == c.rateIndex
  {
    var p, r, k := Profile(c.objectType), c.rateIndex, c.channels / 4 % 2;
    ThirdByte(p, r, k);
    FourthByte(c.channels % 4, n / 2048 % 4);
  }

  /** The profile of an object type: main, low complexity (HE as well), scalable sampling rate, reserved. */
  function ProfileOf(objectType: nat): nat {
    match objectType
    case 1 => 0
    case 2 => 1
    case 5 => 1
    case 29 => 1
    case 3 => 2
    case _ => 3
  }

  lemma FourthByte(a: nat, b: nat)
    requires a < 4 && b < 4
    ensures (a * 64 + b) / 4 % 16 == 0
  {
  }

  lemma ThirdByte(p: nat, r: nat, k: nat)
    requires p < 4 && r < 16 && k < 2
    ensures (p * 64 + r * 4 + k) / 64 == p && (p * 64 + r * 4 + k) / 4 % 16 == r && (p * 64 + r * 4 + k) % 2 == k
    ensures (p * 64 + r * 4 + k) / 2 % 2 == 0
  {
    assert (p * 64 + r * 4 + k) / 4 == p * 16 + r;
  }

  lemma Channels(c: Config, n: nat, tail: seq<byte>)
    ensures ReadChannels(AdtsHeader(c, n) + tail) == c.channels <==> c.channels < 8
  {
    hide Profile;
    var p, r, k := Profile(c.objectType), c.rateIndex, c.channels / 4 % 2;
    ThirdByte(p, r, k);
  }

  lemma LengthFields(n: nat)
    ensures n / 2048 % 4 * 2048 + n / 8 % 256 * 8 + n % 8 == n % 8192
  {
    var m, h := n / 8, n / 2048;
    assert h == m / 256;
    assert n == m * 8 + n % 8 && m == h * 256 + m % 256 && h == h / 4 * 4 + h % 4;
    LowPart(n, h / 4, h % 4 * 2048 + m % 256 * 8 + n % 8);
  }

  lemma LowPart(n: nat, q: nat, r: nat)
    requires n == q * 8192 + r && r < 8192
    ensures n % 8192 == r
  {
  }

  /** Every frame the encoder accepts: the length read back is the frame's exactly up to 8184 bytes of payload. */
  lemma FrameLength(c: Config, l: seq<byte>)
    requires 0 < |l| <= 0x1fff
    ensures var f := AdtsHeader(c, 7 + |l|) + l;
            ReadFrameLength(f) == |f| <==> |l| <= 8184
  {
    hide Profile;
    var n := 7 + |l|;
    LengthFields(n);
    assert (c.channels % 4 * 64 + n / 2048 % 4) % 4 == n / 2048 % 4;
    assert (n % 8 * 32 + 0x1f) / 32 == n % 8;
  }

  // ---- The encoder ----

  /** What a decoder makes of frame `f` with payload `l`: two fields can be wrong. */
  ghost predicate Decodes(c: Config, f: seq<byte>, l: seq<byte>) {
    |f| == 7 + |l| && f[7..] == l && Synced(f) &&
    ReadProfile(f) == ProfileOf(c.objectType) && ReadRate(f) == c.rateIndex &&
    (ReadChannels(f) == c.channels <==> c.channels < 8) &&
    (ReadFrameLength(f) == |f| <==> |l| <= 8184)
  }

  /**
   * AudioEncoder::EncodeAAC up to WriteAudioPes: a decoder finds the first sample behind its header, and the other
   * samples are never sent.
   */
  method EncodeAAC(c: Config, samples: seq<seq<byte>>) returns (r: Encoded)
    ensures r.Nothing? <==> samples == []
    ensures r.Invalid? <==> samples != [] && !(0 < |samples[0]| <= 0x1fff)
    ensures r.Frame? ==> Decodes(c, r.payload, samples[0])
  {
    if |samples| > 0 {
      var l := samples[0];
      if |l| <= 0 || |l| > 0x1fff {
        return Invalid;
      }
      ProfileAndRate(c, 7 + |l|, l);
      Channels(c, 7 + |l|, l);
      FrameLength(c, l);
      return Frame(AdtsHeader(c, 7 + |l|) + l);
    }
    return Nothing;
  }
}
