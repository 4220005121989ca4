/**
 Sample formats of the WAV player: PCM of 8 to 32 bits reduced to signed 16 bits, and
 IMA ADPCM blocks decoded nibble by nibble.
 */
module WavCodec {
  import opened WideText

  type Sample = x: int | -32768 <= x <= 32767

  // -------------------------------------------------------------------- PCM samples

  /** Two's complement reading of an unsigned number of the given width. */
  function Signed(v: nat, modulus: nat): (r: int)
    requires modulus > 0 && modulus % 2 == 0 && v < modulus
    ensures -(modulus / 2) <= r < modulus / 2
  {
    if v >= modulus / 2 then v - modulus else v
  }

  function Le16(lo: Byte, hi: Byte): (r: nat)
    ensures r < 0x1_0000
  {
    lo as int + 0x100 * hi as int
  }

  function Le24(p: seq<Byte>): (r: nat)
    requires |p| == 3
    ensures r < 0x100_0000
  {
    p[0] as int + 0x100 * p[1] as int + 0x1_0000 * p[2] as int
  }

  function Le32(p: seq<Byte>): (r: nat)
    requires |p| == 4
    ensures r < 0x1_0000_0000
  {
    p[0] as int + 0x100 * p[1] as int + 0x1_0000 * p[2] as int + 0x100_0000 * p[3] as int
  }

  predicate Pcm(bits: nat) {
    bits == 8 || bits == 16 || bits == 24 || bits == 32
  }

  /** pcm_sample on the bytes of one channel */
  function PcmSample(p: seq<Byte>, bits: nat): Sample
    requires Pcm(bits) && |p| == bits / 8
  {
    if bits == 8 then (p[0] as int - 128) * 256
    else if bits == 16 then Signed(Le16(p[0], p[1]), 0x1_0000)
    else if bits == 24 then Signed(Le24(p), 0x100_0000) / 0x100
    else Signed(Le32(p), 0x1_0000_0000) / 0x1_0000
  }

  /** Above 8 bits the sample is its two most significant bytes. */
  lemma {:induction false} PcmSampleTop(p: seq<Byte>, bits: nat)
    requires Pcm(bits) && |p| == bits / 8 && bits > 8
    ensures PcmSample(p, bits) == Signed(Le16(p[|p| - 2], p[|p| - 1]), 0x1_0000)
  {
    if bits == 24 {
      assert Le24(p) / 0x100 == Le16(p[1], p[2]);
    } else if bits == 32 {
      assert Le32(p) / 0x1_0000 == Le16(p[2], p[3]);
    }
  }

  /** An 8-bit sample is unsigned: it sounds like the 16-bit sample whose high byte has the other sign. */
  lemma {:induction false} PcmSampleEight(b: Byte)
    ensures PcmSample([b], 8) == PcmSample([0, (b + 128) % 256], 16)
  {
    HighByteOnly((b + 128) % 256);
    if b >= 128 { assert (b + 128) % 256 == b - 128; } else { assert (b + 128) % 256 == b + 128; }
  }

  lemma {:induction false} HighByteOnly(h: Byte)
    ensures PcmSample([0, h], 16) == if h >= 128 then (h - 256) * 256 else h * 256
  {
    assert Le16(0, h) == 256 * h as int;
  }

  /** A sample as it is written to the device, little end first. */
  function SampleBytes(x: Sample): (b: seq<Byte>)
    ensures |b| == 2 && Signed(Le16(b[0], b[1]), 0x1_0000) == x
  {
    var v := x % 0x1_0000;
    [v % 0x100, v / 0x100]
  }

  function Encode(xs: seq<Sample>): (b: seq<Byte>)
    ensures |b| == 2 * |xs|
  {
    if xs == [] then [] else SampleBytes(xs[0]) + Encode(xs[1..])
  }

  lemma {:induction false} EncodeConcat(a: seq<Sample>, b: seq<Sample>)
    ensures Encode(a + b) == Encode(a) + Encode(b)
  {
    if a == [] {
      assert a + b == b;
    } else {
      assert (a + b)[1..] == a[1..] + b;
      EncodeConcat(a[1..], b);
      assert SampleBytes(a[0]) + Encode(a[1..]) + Encode(b) == SampleBytes(a[0]) + (Encode(a[1..]) + Encode(b));
    }
  }

  lemma {:induction false} SampleBytesBack(lo: Byte, hi: Byte)
    ensures SampleBytes(Signed(Le16(lo, hi), 0x1_0000)) == [lo, hi]
  {
    var v := Le16(lo, hi);
    assert Signed(v, 0x1_0000) % 0x1_0000 == v;
    assert v % 0x100 == lo && v / 0x100 == hi;
  }

  // ---------------------------------------------------------------------- PCM frames

  datatype Format = Format(blockAlign: nat, channels: nat, bits: nat)

  predicate Playable(f: Format) {
    (f.channels == 1 || f.channels == 2) && Pcm(f.bits) && f.channels * (f.bits / 8) <= f.blockAlign
  }

  /** The first n frames lie inside the data. */
  predicate Fits(data: seq<Byte>, f: Format, n: nat) {
    n * f.blockAlign <= |data|
  }

  lemma {:induction false} FitsLess(data: seq<Byte>, f: Format, a: nat, b: nat)
    requires a <= b && Fits(data, f, b)
    ensures Fits(data, f, a)
  {
    assert a * f.blockAlign <= b * f.blockAlign;
  }

  /** Left and right sample of a frame; mono sounds on both sides. */
  function Frame(data: seq<Byte>, f: Format, n: nat): (r: seq<Sample>)
    requires Playable(f) && Fits(data, f, n + 1)
    ensures |r| == 2
  {
    var at, width := n * f.blockAlign, f.bits / 8;
    assert at + f.blockAlign == (n + 1) * f.blockAlign;
    var left := PcmSample(data[at..at + width], f.bits);
    [left, if f.channels == 2 then PcmSample(data[at + width..at + 2 * width], f.bits) else left]
  }

  /** A mono frame sounds alike on both sides, like both sides of the stereo frame that holds its bytes twice. */
  lemma {:induction false} MonoDoubled(bytes: seq<Byte>, bits: nat)
    requires Pcm(bits) && |bytes| == bits / 8
    ensures Frame(bytes, Format(bits / 8, 1, bits), 0) == Frame(bytes + bytes, Format(bits / 4, 2, bits), 0)
    ensures Frame(bytes, Format(bits / 8, 1, bits), 0) == [PcmSample(bytes, bits), PcmSample(bytes, bits)]
  {
    hide PcmSample;
    var w := bits / 8;
    assert bytes[0..w] == bytes;
    assert (bytes + bytes)[0..w] == bytes && (bytes + bytes)[w..2 * w] == bytes;
  }

  /** The stereo samples of frames a to b. */
  function Frames(data: seq<Byte>, f: Format, a: nat, b: nat): (r: seq<Sample>)
    requires Playable(f) && a <= b && Fits(data, f, b)
    ensures |r| == 2 * (b - a)
    decreases b - a
  {
    if a == b then [] else
    FitsLess(data, f, b - 1, b);
    Frames(data, f, a, b - 1) + Frame(data, f, b - 1)
  }

  function FrameCount(data: seq<Byte>, f: Format): nat
    requires f.blockAlign > 0
  {
    |data| / f.blockAlign
  }

  lemma {:induction false} FrameCountFits(data: seq<Byte>, f: Format)
    requires f.blockAlign > 0
    ensures Fits(data, f, FrameCount(data, f))
  {
  }

  lemma {:induction false} FramesConcat(data: seq<Byte>, f: Format, a: nat, b: nat, c: nat)
    requires Playable(f) && a <= b <= c && Fits(data, f, b) && Fits(data, f, c)
    ensures Frames(data, f, a, c) == Frames(data, f, a, b) + Frames(data, f, b, c)
    decreases c
  {
    if b < c {
      FitsLess(data, f, c - 1, c);
      FramesConcat(data, f, a, b, c - 1);
    }
  }

  lemma {:induction false} EncodeTwo(a: Sample, b: Sample)
    ensures Encode([a, b]) == SampleBytes(a) + SampleBytes(b)
  {
    assert [a, b][1..] == [b] && [b][1..] == [];
    assert Encode([b]) == SampleBytes(b) + [];
  }

  lemma {:induction false} FrameUnchanged(data: seq<Byte>, n: nat)
    requires (n + 1) * 4 <= |data|
    ensures Encode(Frame(data, Format(4, 2, 16), n)) == data[4 * n..4 * n + 4]
  {
    var at := 4 * n;
    var left, right := data[at..at + 2], data[at + 2..at + 4];
    SampleBytesBack(left[0], left[1]);
    SampleBytesBack(right[0], right[1]);
    EncodeTwo(PcmSample(left, 16), PcmSample(right, 16));
    assert [left[0], left[1]] == left && [right[0], right[1]] == right;
    assert left + right == data[at..at + 4];
  }

  lemma {:induction false} EncodeNothing()
    ensures Encode([]) == []
  {
  }

  lemma {:induction false} FourMore(data: seq<Byte>, k: nat)
    requires k + 4 <= |data|
    ensures data[..k + 4] == data[..k] + data[k..k + 4]
  {
  }

  /** 16-bit stereo passes through unchanged: the device gets the bytes of the whole frames. */
  lemma {:induction false} StereoUnchanged(data: seq<Byte>, n: nat)
    requires n * 4 <= |data|
    ensures Encode(Frames(data, Format(4, 2, 16), 0, n)) == data[..4 * n]
    decreases n
  {
    hide Encode, Frame;
    if n == 0 {
      EncodeNothing();
    } else {
      StereoUnchanged(data, n - 1);
      EncodeConcat(Frames(data, Format(4, 2, 16), 0, n - 1), Frame(data, Format(4, 2, 16), n - 1));
      FrameUnchanged(data, n - 1);
      FourMore(data, 4 * (n - 1));
    }
  }

  // ----------------------------------------------------------------------- IMA ADPCM

  const LOW_STEPS: seq<nat> := [7, 8, 9, 10, 11, 12, 13, 14, 16, 17, 19, 21, 23, 25, 28, 31]
  const STEPS_16: seq<nat> := [34, 37, 41, 45, 50, 55, 60, 66, 73, 80, 88, 97, 107, 118, 130, 143]
  const STEPS_32: seq<nat> := [157, 173, 190, 209, 230, 253, 279, 307, 337, 371, 408, 449, 494, 544, 598, 658]
  const STEPS_48: seq<nat> := [724, 796, 876, 963, 1060, 1166, 1282, 1411, 1552, 1707, 1878, 2066, 2272, 2499, 2749, 3024]
  const STEPS_64: seq<nat> :=
    [3327, 3660, 4026, 4428, 4871, 5358, 5894, 6484, 7132, 7845, 8630, 9493, 10442, 11487, 12635, 13899]
  const HIGH_STEPS: seq<nat> := [15289, 16818, 18500, 20350, 22385, 24623, 27086, 29794, 32767]

  type StepIndex = x: int | 0 <= x <= 88
  type Nibble = x: int | 0 <= x <= 15

  /** One step size per index. */
  type StepTable = s: seq<nat> | |s| == 89 witness seq(89, _ => 7)

  const STEPS: StepTable := LOW_STEPS + STEPS_16 + STEPS_32 + STEPS_48 + STEPS_64 + HIGH_STEPS

  datatype Ima = Ima(predictor: Sample, index: StepIndex)

  /** How the three magnitude bits move the index. */
  function IndexShift(m: nat): int
    requires m < 8
  {
    if m < 4 then -1 else 2 * (m - 3)
  }

  function Delta(step: nat, code: Nibble): nat {
    step / 8 + (if code % 2 == 1 then step / 4 else 0) + (if code / 2 % 2 == 1 then step / 2 else 0)
    + (if code / 4 % 2 == 1 then step else 0)
  }

  function Bit(on: bool, weight: nat): nat {
    if on then weight else 0
  }

  /** The shifts and adds compute (2m + 1) * step / 8 rounded down by at most 17/8. */
  lemma {:induction false} DeltaClose(step: nat, code: Nibble)
    ensures 0 <= (2 * (code % 8) + 1) * step - 8 * Delta(step, code) <= 17
  {
    var a, b, c := code % 2 == 1, code / 2 % 2 == 1, code / 4 % 2 == 1;
    assert code % 8 == Bit(a, 1) + Bit(b, 2) + Bit(c, 4);
    assert (2 * (code % 8) + 1) * step == step + Bit(a, 2 * step) + Bit(b, 4 * step) + Bit(c, 8 * step);
  }

  function ClampSample(x: int): Sample {
    if x > 32767 then 32767 else if x < -32768 then -32768 else x
  }

  function ClampIndex(x: int): StepIndex {
    if x < 0 then 0 else if x > 88 then 88 else x
  }

  function Next(steps: StepTable, s: Ima, code: Nibble): Ima {
    var d := Delta(steps[s.index], code);
    Ima(ClampSample(if code / 8 == 1 then s.predictor - d else s.predictor + d), ClampIndex(s.index + IndexShift(code % 8)))
  }

  /** Codes 0 to 7 never lower the predictor, codes 8 to 15 never raise it, and it moves by (2m + 1) eighths of the step. */
  lemma {:induction false} NextPredictor(steps: StepTable, s: Ima, code: Nibble)
    ensures var r := Next(steps, s, code); var step, m := steps[s.index], code % 8;
      && (code < 8 ==> r.predictor >= s.predictor)
      && (code >= 8 ==> r.predictor <= s.predictor)
      && var moved := if code < 8 then r.predictor - s.predictor else s.predictor - r.predictor;
         && 8 * moved <= (2 * m + 1) * step
         && (-32768 < r.predictor < 32767 ==> (2 * m + 1) * step <= 8 * moved + 17)
  {
    hide Delta;
    DeltaClose(steps[s.index], code);
  }

  /** The four small magnitudes lower the index by one, the others raise it by 2, 4, 6 or 8, within 0 to 88. */
  lemma {:induction false} NextIndex(steps: StepTable, s: Ima, code: Nibble)
    ensures var i, m := Next(steps, s, code).index, code % 8;
      && (m < 4 ==> i <= s.index && (i == s.index - 1 || (i == 0 && s.index == 0)))
      && (m == 4 ==> i == s.index + 2 || (i == 88 && s.index > 86))
      && (m == 5 ==> i == s.index + 4 || (i == 88 && s.index > 84))
      && (m == 6 ==> i == s.index + 6 || (i == 88 && s.index > 82))
      && (m == 7 ==> i == s.index + 8 || (i == 88 && s.index > 80))
  {
    hide Delta;
  }

  /** The table row by row, sixteen steps to a row. */
  function Row(j: nat): (r: seq<nat>)
    requires j < 6
    ensures |r| == if j < 5 then 16 else 9
  {
    match j
    case 0 => LOW_STEPS
    case 1 => STEPS_16
    case 2 => STEPS_32
    case 3 => STEPS_48
    case 4 => STEPS_64
    case 5 => HIGH_STEPS
  }

  lemma {:induction false} InRows(a: seq<nat>, b: seq<nat>, c: seq<nat>, d: seq<nat>, e: seq<nat>, f: seq<nat>, i: nat)
    requires |a| == |b| == |c| == |d| == |e| == 16 && |f| == 9 && i < 89
    ensures (a + b + c + d + e + f)[i] == [a, b, c, d, e, f][i / 16][i % 16]
  {
  }

  lemma {:induction false} StepAt(i: nat)
    requires i < 89
    ensures STEPS[i] == Row(i / 16)[i % 16]
  {
    InRows(Row(0), Row(1), Row(2), Row(3), Row(4), Row(5), i);
  }

  /** Eleven tenths, to the nearest whole number or one next to it. */
  predicate Grows(a: nat, b: nat) {
    10 * b <= 11 * a + 8 && 11 * a <= 10 * b + 8
  }

  lemma {:induction false} RowGrows(j: nat, k: nat)
    requires j < 6 && k < 16 && 16 * j + k < 87
    ensures Grows(Row(j)[k], if k < 15 then Row(j)[k + 1] else Row(j + 1)[0])
  {
  }

  /** The steps run from 7 to 32767, each eleven tenths of the one before up to rounding; the last is cut to 15 bits. */
  lemma {:induction false} StepsGrow(i: nat)
    requires i < 87
    ensures STEPS[0] == 7 && Grows(STEPS[i], STEPS[i + 1]) && STEPS[88] == 32767
  {
    hide Grows;
    StepAt(0);
    StepAt(88);
    StepAt(i);
    StepAt(i + 1);
    RowGrows(i / 16, i % 16);
    assert i % 16 < 15 ==> (i + 1) / 16 == i / 16 && (i + 1) % 16 == i % 16 + 1;
    assert i % 16 == 15 ==> (i + 1) / 16 == i / 16 + 1 && (i + 1) % 16 == 0;
  }

  /** The state after a sequence of nibbles. */
  function Decode(steps: StepTable, s: Ima, codes: seq<Nibble>): Ima {
    if codes == [] then s else Next(steps, Decode(steps, s, codes[..|codes| - 1]), codes[|codes| - 1])
  }

  /** The predictor at the start and after each nibble. */
  function Outputs(steps: StepTable, s: Ima, codes: seq<Nibble>): (r: seq<Sample>)
    ensures |r| == 1 + |codes|
    ensures r[|codes|] == Decode(steps, s, codes).predictor
  {
    if codes == [] then [s.predictor] else Outputs(steps, s, codes[..|codes| - 1]) + [Decode(steps, s, codes).predictor]
  }

  /** Low nibble first. */
  function NibbleAt(body: seq<Byte>, n: nat): Nibble
    requires n < 2 * |body|
  {
    if n % 2 == 0 then body[n / 2] % 16 else body[n / 2] / 16
  }

  function Nibbles(body: seq<Byte>): (r: seq<Nibble>)
    ensures |r| == 2 * |body|
  {
    seq(2 * |body|, n requires 0 <= n < 2 * |body| => NibbleAt(body, n))
  }

  /** Two nibbles make up each byte: nothing of the block is lost or read twice. */
  lemma {:induction false} NibblesBack(body: seq<Byte>, k: nat)
    requires k < |body|
    ensures Nibbles(body)[2 * k] as int + 16 * Nibbles(body)[2 * k + 1] as int == body[k]
  {
  }

  lemma {:induction false} OutputsAt(steps: StepTable, s: Ima, codes: seq<Nibble>, k: nat)
    requires k <= |codes|
    ensures Outputs(steps, s, codes)[k] == Decode(steps, s, codes[..k]).predictor
  {
    if k < |codes| {
      OutputsAt(steps, s, codes[..|codes| - 1], k);
      assert codes[..|codes| - 1][..k] == codes[..k];
    } else {
      assert codes[..k] == codes;
    }
  }

  /** The index depends on the nibbles only, and the predictors never move apart. */
  lemma {:induction false} NonExpansive(steps: StepTable, a: Ima, b: Ima, codes: seq<Nibble>)
    requires a.index == b.index && a.predictor <= b.predictor
    ensures var x, y := Decode(steps, a, codes), Decode(steps, b, codes);
      x.index == y.index && 0 <= y.predictor - x.predictor <= b.predictor - a.predictor
    decreases |codes|
  {
    if codes != [] { NonExpansive(steps, a, b, codes[..|codes| - 1]); }
  }

  /** Two decodings of the same nibbles stay as close, at every sample, as they started. */
  lemma {:induction false} OutputsNonExpansive(steps: StepTable, a: Ima, b: Ima, codes: seq<Nibble>, k: nat)
    requires a.index == b.index && a.predictor <= b.predictor && k <= |codes|
    ensures 0 <= Outputs(steps, b, codes)[k] - Outputs(steps, a, codes)[k] <= b.predictor - a.predictor
  {
    OutputsAt(steps, a, codes, k);
    OutputsAt(steps, b, codes, k);
    NonExpansive(steps, a, b, codes[..k]);
  }

  /** Decoders that agree once agree for good. */
  lemma {:induction false} Resynchronised(steps: StepTable, a: Ima, b: Ima, codes: seq<Nibble>, more: seq<Nibble>)
    requires Decode(steps, a, codes) == Decode(steps, b, codes)
    ensures Decode(steps, a, codes + more) == Decode(steps, b, codes + more)
    decreases |more|
  {
    if more == [] {
      assert codes + more == codes;
    } else {
      var n := |more| - 1;
      assert (codes + more)[..|codes + more| - 1] == codes + more[..n];
      Resynchronised(steps, a, b, codes, more[..n]);
    }
  }
}
