/**
 Playback of IMA ADPCM data: blocks of a header and packed nibbles, decoded one at a time
 into a sample buffer and written to the device.
 */
module WavIma {
  import opened Basics
  import opened WideText
  import opened WavCodec
  import opened WaveOut
  import opened WavPlay

  /** Each mono sample on both sides. */
  function Doubled(xs: seq<Sample>): (r: seq<Sample>)
    ensures |r| == 2 * |xs|
  {
    if xs == [] then [] else Doubled(xs[..|xs| - 1]) + [xs[|xs| - 1], xs[|xs| - 1]]
  }

  lemma {:induction false} DoubledOne(xs: seq<Sample>, x: Sample)
    ensures Doubled(xs + [x]) == Doubled(xs) + [x, x]
  {
    assert (xs + [x])[..|xs|] == xs;
  }

  predicate Decodable(block: seq<Byte>) {
    |block| >= 4 && block[2] <= 88
  }

  function Start(block: seq<Byte>): Ima
    requires Decodable(block)
  {
    Ima(Signed(Le16(block[0], block[1]), 0x1_0000), block[2])
  }

  /** The samples of a block: the header's own, then one per nibble. */
  function BlockSamples(steps: StepTable, block: seq<Byte>): (r: seq<Sample>)
    requires Decodable(block)
    ensures |r| == 1 + 2 * (|block| - 4)
  {
    Outputs(steps, Start(block), Nibbles(block[4..]))
  }

  function BlockSound(steps: StepTable, block: seq<Byte>): (r: seq<Byte>)
    requires Decodable(block)
    ensures |r| == 4 * (1 + 2 * (|block| - 4))
  {
    Encode(Doubled(BlockSamples(steps, block)))
  }

  /** What the blocks up to the first undecodable one sound like. */
  function ImaStream(steps: StepTable, data: seq<Byte>, align: nat): seq<Byte>
    requires align >= 4
    decreases |data|
  {
    if |data| < align || !Decodable(data[..align]) then []
    else BlockSound(steps, data[..align]) + ImaStream(steps, data[align..], align)
  }

  predicate AllDecodable(data: seq<Byte>, align: nat)
    requires align >= 4
    decreases |data|
  {
    |data| < align || (Decodable(data[..align]) && AllDecodable(data[align..], align))
  }

  function SoundSize(align: nat): nat
    requires align >= 4
  {
    4 * (1 + 2 * (align - 4))
  }

  /** How many stream writes the blocks up to the first undecodable one take. */
  function Tries(data: seq<Byte>, align: nat): nat
    requires align >= 4
    decreases |data|
  {
    if |data| < align || !Decodable(data[..align]) then 0 else Pieces(SoundSize(align)) + Tries(data[align..], align)
  }

  method StoreSample(pcm: array<Sample>, frames: nat, x: Sample, ghost xs: seq<Sample>)
    requires 2 * frames + 2 <= pcm.Length && |xs| == frames && pcm[..2 * frames] == Doubled(xs)
    modifies pcm
    ensures pcm[..2 * (frames + 1)] == Doubled(xs + [x])
  {
    DoubledOne(xs, x);
    pcm[2 * frames] := x;
    pcm[2 * frames + 1] := x;
    assert pcm[..2 * (frames + 1)] == old(pcm[..2 * frames]) + [x, x];
  }

  /** One nibble of play_ima's inner loop, with its shifts and clamps. */
  method DecodeNibble(steps: StepTable, s: Ima, code: Nibble) returns (r: Ima)
    ensures r == Next(steps, s, code)
  {
    var step := steps[s.index];
    var delta := step / 8;
    if code % 2 == 1 { delta := delta + step / 4; }
    if code / 2 % 2 == 1 { delta := delta + step / 2; }
    if code / 4 % 2 == 1 { delta := delta + step; }
    var predictor := s.predictor as int;
    predictor := if code / 8 == 1 then predictor - delta else predictor + delta;
    if predictor > 32767 { predictor := 32767; }
    if predictor < -32768 { predictor := -32768; }
    var index := s.index + IndexShift(code % 8);
    if index < 0 { index := 0; }
    if index > 88 { index := 88; }
    r := Ima(predictor, index);
  }

  lemma {:induction false} OutputsNext(steps: StepTable, start: Ima, codes: seq<Nibble>, n: nat)
    requires n < |codes|
    ensures Decode(steps, start, codes[..n + 1]) == Next(steps, Decode(steps, start, codes[..n]), codes[n])
    ensures Outputs(steps, start, codes[..n + 1]) ==
      Outputs(steps, start, codes[..n]) + [Decode(steps, start, codes[..n + 1]).predictor]
  {
    assert codes[..n + 1][..n] == codes[..n];
  }

  /** A whole block into a buffer that holds exactly its samples. */
  method DecodeBlock(steps: StepTable, block: seq<Byte>, pcm: array<Sample>) returns (frames: nat)
    requires Decodable(block) && pcm.Length == 2 * (1 + 2 * (|block| - 4))
    modifies pcm
    ensures frames == 1 + 2 * (|block| - 4) && pcm[..2 * frames] == Doubled(BlockSamples(steps, block))
  {
    var state := Start(block);
    assert pcm[..0] == Doubled([]) && [] + [state.predictor] == [state.predictor];
    StoreSample(pcm, 0, state.predictor, []);
    DecodeBody(steps, state, block[4..], pcm);
    frames := 1 + 2 * (|block| - 4);
  }

  /** The nibble loop. */
  method DecodeBody(steps: StepTable, start: Ima, body: seq<Byte>, pcm: array<Sample>)
    requires pcm.Length == 2 * (1 + 2 * |body|) && pcm[..2] == Doubled([start.predictor])
    modifies pcm
    ensures pcm[..2 * (1 + 2 * |body|)] == Doubled(Outputs(steps, start, Nibbles(body)))
  {
    var state, n := start, 0;
    ghost var codes := Nibbles(body);
    assert codes[..0] == [];
    while n < 2 * |body|
      invariant 0 <= n <= |codes| == 2 * |body| && state == Decode(steps, start, codes[..n])
      invariant pcm[..2 * (n + 1)] == Doubled(Outputs(steps, start, codes[..n]))
    {
      OutputsNext(steps, start, codes, n);
      state := DecodeNibble(steps, state, NibbleAt(body, n));
      StoreSample(pcm, n + 1, state.predictor, Outputs(steps, start, codes[..n]));
      n := n + 1;
    }
    assert codes[..n] == codes;
  }

  /** A recursive count of blocks keeps the products out of the loop. */
  predicate WholeBlocks(length: int, align: nat, blocks: nat)
    decreases blocks
  {
    if blocks == 0 then length == 0 else WholeBlocks(length - align, align, blocks - 1)
  }

  lemma {:induction false} OneBlockLess(length: nat, align: nat, blocks: nat)
    requires WholeBlocks(length, align, blocks) && length > 0
    ensures blocks > 0 && WholeBlocks(length - align, align, blocks - 1) && length >= align
  {
    NotNegative(length - align, align, blocks - 1);
  }

  lemma {:induction false} NotNegative(length: int, align: nat, blocks: nat)
    requires WholeBlocks(length, align, blocks)
    ensures length >= 0
    decreases blocks
  {
    if blocks > 0 { NotNegative(length - align, align, blocks - 1); }
  }

  lemma {:induction false} CountBlocks(align: nat, blocks: nat)
    ensures WholeBlocks(blocks * align, align, blocks)
    decreases blocks
  {
    if blocks > 0 {
      assert blocks * align - align == (blocks - 1) * align;
      CountBlocks(align, blocks - 1);
    }
  }

  lemma {:induction false} BlocksOf(length: nat, align: nat) returns (blocks: nat)
    requires align > 0 && length % align == 0
    ensures WholeBlocks(length, align, blocks)
  {
    blocks := length / align;
    CountBlocks(align, blocks);
  }

  /** The bytes of one block, decoded and written. */
  method PlayImaBlock(steps: StepTable, dev: Device, h: nat, block: seq<Byte>, pcm: array<Sample>)
    returns (ok: bool, ghost sound: seq<Byte>)
    requires Decodable(block) && pcm.Length == 2 * (1 + 2 * (|block| - 4))
    requires Shaped(dev.writes) && h != 0 && h == dev.handle
    modifies dev`writes, dev`attempts, pcm
    ensures sound == BlockSound(steps, block)
    ensures Shaped(dev.writes) && Wrote(Concat(old(dev.writes)), Concat(dev.writes), sound, ok)
    ensures ok <==> Accepted(dev.service, old(dev.attempts), Pieces(SoundSize(|block|)))
    ensures if ok then dev.attempts == old(dev.attempts) + Pieces(SoundSize(|block|))
            else dev.attempts > 0 && !dev.service.accepts(dev.attempts - 1)
  {
    hide Concat, Pieces, Accepted, Shaped, Encode, Doubled, BlockSamples;
    var frames := DecodeBlock(steps, block, pcm);
    var samples := pcm[..2 * frames];
    sound := Encode(samples);
    ok := WriteSamples(dev, h, samples);
  }

  datatype Outcome = Played | Refused | BadIndex

  /** What was sent and what the rest sounds like make up the whole. */
  ghost predicate Progress(steps: StepTable, before: seq<Byte>, now: seq<Byte>, rest: seq<Byte>, align: nat, total: seq<Byte>, good: bool)
    requires align >= 4
  {
    before <= now && now + ImaStream(steps, rest, align) == total && (good <==> AllDecodable(rest, align))
  }

  lemma {:induction false} ProgressNext(steps: StepTable, before: seq<Byte>, was: seq<Byte>, now: seq<Byte>, rest: seq<Byte>, align: nat,
                                        total: seq<Byte>, good: bool, sound: seq<Byte>, ok: bool)
    requires align >= 4 && |rest| >= align && Progress(steps, before, was, rest, align, total, good)
    requires Decodable(rest[..align]) && sound == BlockSound(steps, rest[..align]) && Wrote(was, now, sound, ok)
    ensures before <= now <= total
    ensures if ok then Progress(steps, before, now, rest[align..], align, total, good) else now != total
  {
    WroteNext(before, was, now, sound, ImaStream(steps, rest[align..], align), total, ok);
  }

  lemma {:induction false} WroteNext(before: seq<Byte>, was: seq<Byte>, now: seq<Byte>, sound: seq<Byte>, after: seq<Byte>,
                                     total: seq<Byte>, ok: bool)
    requires before <= was && was + (sound + after) == total && Wrote(was, now, sound, ok)
    ensures before <= now <= total && if ok then now + after == total else now != total
  {
    assert was + (sound + after) == was + sound + after;
    assert !ok ==> |now| < |was| + |sound|;
  }

  lemma {:induction false} ProgressStops(steps: StepTable, before: seq<Byte>, now: seq<Byte>, rest: seq<Byte>, align: nat,
                                         total: seq<Byte>, good: bool)
    requires align >= 4 && Progress(steps, before, now, rest, align, total, good)
    requires |rest| < align || !Decodable(rest[..align])
    ensures before <= now == total && (good <==> |rest| < align)
  {
    assert now + [] == now;
  }

  lemma {:induction false} ProgressStarts(steps: StepTable, before: seq<Byte>, data: seq<Byte>, align: nat)
    requires align >= 4
    ensures Progress(steps, before, before, data, align, before + ImaStream(steps, data, align), AllDecodable(data, align))
  {
  }

  /** How the block loop may end: all sent, or stopped at a bad index, or refused on the way. */
  predicate Ended(r: Outcome, before: seq<Byte>, now: seq<Byte>, total: seq<Byte>, good: bool) {
    && before <= now <= total && (r.Refused? <==> now != total)
    && (r.Played? ==> good) && (r.BadIndex? ==> !good)
  }

  lemma {:induction false} TriesNext(data: seq<Byte>, align: nat)
    requires 4 <= align <= |data| && Decodable(data[..align])
    ensures Tries(data, align) == Pieces(SoundSize(align)) + Tries(data[align..], align)
  {
  }

  lemma {:induction false} TriesNone(data: seq<Byte>, align: nat)
    requires align >= 4 && (|data| < align || !Decodable(data[..align]))
    ensures Tries(data, align) == 0
  {
  }

  /** The tries of the whole data: made and accepted before the rest, or still to come with it. */
  ghost predicate Trying(service: Service, first: nat, now: nat, rest: seq<Byte>, align: nat, end: nat)
    requires align >= 4
  {
    OnTrack(service, first, now, Tries(rest, align), end)
  }

  lemma {:induction false} TryingStops(service: Service, first: nat, now: nat, rest: seq<Byte>, align: nat, end: nat)
    requires align >= 4 && Trying(service, first, now, rest, align, end) && (|rest| < align || !Decodable(rest[..align]))
    ensures first <= end && Accepted(service, first, end - first)
  {
    TriesNone(rest, align);
  }

  lemma {:induction false} TryingNext(service: Service, first: nat, now: nat, rest: seq<Byte>, align: nat, end: nat)
    requires 4 <= align <= |rest| && Decodable(rest[..align]) && Trying(service, first, now, rest, align, end)
    ensures var n := Pieces(SoundSize(align));
      && first <= end && (Accepted(service, now, n) ==> Trying(service, first, now + n, rest[align..], align, end))
      && (!Accepted(service, now, n) ==> !Accepted(service, first, end - first))
  {
    TriesNext(rest, align);
    TrackOn(service, first, now, Pieces(SoundSize(align)), Tries(rest[align..], align), end);
  }

  /** One block of the loop. */
  method PlayNext(steps: StepTable, dev: Device, h: nat, rest: seq<Byte>, align: nat, pcm: array<Sample>,
                  ghost before: seq<Byte>, ghost total: seq<Byte>, ghost good: bool, ghost first: nat, ghost end: nat)
    returns (r: Outcome)
    requires 4 <= align <= |rest| && pcm.Length == 2 * (1 + 2 * (align - 4))
    requires Shaped(dev.writes) && h != 0 && h == dev.handle && first <= end
    requires Progress(steps, before, Concat(dev.writes), rest, align, total, good)
    requires Trying(dev.service, first, dev.attempts, rest, align, end)
    modifies dev`writes, dev`attempts, pcm
    ensures Shaped(dev.writes)
    ensures if r.Played? then Progress(steps, before, Concat(dev.writes), rest[align..], align, total, good)
                              && Trying(dev.service, first, dev.attempts, rest[align..], align, end)
            else Ended(r, before, Concat(dev.writes), total, good) && (r.Refused? <==> !Accepted(dev.service, first, end - first))
  {
    hide Concat, Pieces, Accepted, Shaped, Progress, Trying, Wrote, ImaStream;
    var block := rest[..align];
    if block[2] > 88 {
      ProgressStops(steps, before, Concat(dev.writes), rest, align, total, good);
      TryingStops(dev.service, first, dev.attempts, rest, align, end);
      return BadIndex;
    }
    ghost var was := Concat(dev.writes);
    TryingNext(dev.service, first, dev.attempts, rest, align, end);
    var ok;
    ghost var sound;
    ok, sound := PlayImaBlock(steps, dev, h, block, pcm);
    ProgressNext(steps, before, was, Concat(dev.writes), rest, align, total, good, sound, ok);
    return if ok then Played else Refused;
  }

  /** The block loop of play_ima. */
  method PlayBlocks(steps: StepTable, dev: Device, h: nat, data: seq<Byte>, align: nat, pcm: array<Sample>,
                    ghost count: nat, ghost before: seq<Byte>, ghost total: seq<Byte>, ghost good: bool) returns (r: Outcome)
    requires align >= 4 && WholeBlocks(|data|, align, count) && pcm.Length == 2 * (1 + 2 * (align - 4))
    requires Shaped(dev.writes) && h != 0 && h == dev.handle
    requires Progress(steps, before, Concat(dev.writes), data, align, total, good)
    modifies dev`writes, dev`attempts, pcm
    ensures Shaped(dev.writes) && Ended(r, before, Concat(dev.writes), total, good)
    ensures r.Refused? <==> !Accepted(dev.service, old(dev.attempts), Tries(data, align))
  {
    hide Concat, Accepted, Shaped, Progress, Trying, Tries, ImaStream;
    var rest := data;
    ghost var blocks, first, end := count, dev.attempts, dev.attempts + Tries(data, align);
    TryingStarts(dev.service, first, data, align);
    while rest != []
      invariant WholeBlocks(|rest|, align, blocks) && Shaped(dev.writes)
      invariant Progress(steps, before, Concat(dev.writes), rest, align, total, good)
      invariant Trying(dev.service, first, dev.attempts, rest, align, end)
      decreases |rest|
    {
      OneBlockLess(|rest|, align, blocks);
      r := PlayNext(steps, dev, h, rest, align, pcm, before, total, good, first, end);
      if !r.Played? { return; }
      rest := rest[align..];
      blocks := blocks - 1;
    }
    ProgressStops(steps, before, Concat(dev.writes), rest, align, total, good);
    TryingStops(dev.service, first, dev.attempts, rest, align, end);
    return Played;
  }

  lemma {:induction false} TryingStarts(service: Service, first: nat, data: seq<Byte>, align: nat)
    requires align >= 4
    ensures Trying(service, first, first, data, align, first + Tries(data, align))
  {
    TrackStarts(service, first, Tries(data, align));
  }

  /** What has to hold before the device is even opened. */
  predicate Willing(service: Service, handle: nat, data: seq<Byte>, align: nat, rate: nat) {
    4 <= align <= |data| && |data| % align == 0 && rate != 0 && handle == 0 && service.playback && service.starts
  }

  /** Every write the decodable blocks need will be accepted. */
  ghost predicate Heard(service: Service, attempts: nat, data: seq<Byte>, align: nat)
    requires align >= 4
  {
    Accepted(service, attempts, Tries(data, align))
  }

  /**
   play_ima. The device receives the samples of all blocks, or a prefix of them. It plays to the
   end exactly when all blocks are decodable and their writes accepted. A stream that can be
   closed stays open exactly when a block with a bad index is reached.
   */
  method PlayIma(dev: Device, data: seq<Byte>, align: nat, rate: nat) returns (ok: bool)
    requires Shaped(dev.writes)
    modifies dev
    ensures Shaped(dev.writes)
    ensures !Willing(dev.service, old(dev.handle), data, align, rate) ==>
      !ok && dev.writes == old(dev.writes) && dev.handle == old(dev.handle)
    ensures align >= 4 ==> SentSome(Concat(old(dev.writes)), Concat(dev.writes), ImaStream(STEPS, data, align))
    ensures ok ==> align >= 4 && Concat(dev.writes) == Concat(old(dev.writes)) + ImaStream(STEPS, data, align)
    ensures Willing(dev.service, old(dev.handle), data, align, rate) ==>
      var heard := Heard(dev.service, old(dev.attempts), data, align);
      && (ok <==> AllDecodable(data, align) && heard)
      && (dev.handle != 0 <==> !dev.service.stops || (!AllDecodable(data, align) && heard))
  {
    hide Concat, Accepted, Shaped, Progress, Tries, ImaStream, AllDecodable;
    if align >= 4 { SentNone(Concat(dev.writes), ImaStream(STEPS, data, align)); }
    if |data| < align || align < 4 || |data| % align != 0 { return false; }
    var h := dev.Open(rate);
    if h == 0 { return false; }
    ghost var count := BlocksOf(|data|, align);
    ghost var before, total := Concat(dev.writes), Concat(dev.writes) + ImaStream(STEPS, data, align);
    ProgressStarts(STEPS, before, data, align);
    var pcm := new Sample[2 * (1 + 2 * (align - 4))](_ => 0);
    var r := PlayBlocks(STEPS, dev, h, data, align, pcm, count, before, total, AllDecodable(data, align));
    if r.BadIndex? { return false; }
    var _ := dev.Close(h);
    ok := r.Played?;
  }

  /** A single block with index 89: nothing is sent, and the device stays open although it could be closed. */
  lemma {:induction false} LeftOpenExample(service: Service, attempts: nat)
    requires service.playback && service.starts && service.stops
    ensures var data := [0, 0, 89, 0];
      && Willing(service, 0, data, 4, 22050) && !AllDecodable(data, 4) && Heard(service, attempts, data, 4)
      && ImaStream(STEPS, data, 4) == []
  {
    var data := [0, 0, 89, 0];
    assert data[..4] == data && !Decodable(data);
    TriesNone(data, 4);
  }
}
