/**
 Playback of PCM data: frames of every supported layout turned into 16-bit stereo and
 written to the wave output device block by block.
 */
module WavPlay {
  import opened Basics
  import opened WideText
  import opened WavCodec
  import opened WaveOut

  const BLOCK: nat := 32768

  // ------------------------------------------------------------------ PCM playback

  /** Some of the sound has been added to what was sent before, and all of it iff the write succeeded. */
  predicate Wrote(was: seq<Byte>, now: seq<Byte>, sound: seq<Byte>, ok: bool) {
    SentSome(was, now, sound) && (ok <==> now == was + sound)
  }

  /** waveOutWrite of a run of samples */
  method WriteSamples(dev: Device, h: nat, samples: seq<Sample>) returns (ok: bool)
    requires Shaped(dev.writes) && h != 0 && h == dev.handle && samples != [] && |samples| % 2 == 0
    modifies dev`writes, dev`attempts
    ensures Shaped(dev.writes) && Wrote(Concat(old(dev.writes)), Concat(dev.writes), Encode(samples), ok)
    ensures ok <==> Accepted(dev.service, old(dev.attempts), Pieces(|Encode(samples)|))
    ensures if ok then dev.attempts == old(dev.attempts) + Pieces(|Encode(samples)|)
            else dev.attempts > 0 && !dev.service.accepts(dev.attempts - 1)
  {
    hide Concat, Pieces, Accepted, Shaped;
    ok := dev.Write(h, Encode(samples));
  }

  /** A block holds whole chunks, so cutting into blocks first makes no more writes. */
  lemma {:induction false} BlockPieces(frames: nat, count: nat)
    requires frames > 0 && count == if frames > BLOCK then BLOCK else frames
    ensures Pieces(4 * frames) == Pieces(4 * count) + Pieces(4 * (frames - count))
  {
    hide Pieces;
    PiecesNone();
    PiecesFront(4 * BLOCK, 32);
    if frames > BLOCK { PiecesFront(4 * frames, 32); }
  }

  /** One block of frames more, or the refusal that ends them. */
  lemma {:induction false} BlockTrack(service: Service, first: nat, now: nat, frames: nat, count: nat, end: nat)
    requires frames > 0 && count == (if frames > BLOCK then BLOCK else frames) && first <= end
    requires OnTrack(service, first, now, Pieces(4 * frames), end)
    ensures var n := Pieces(4 * count);
      && (Accepted(service, now, n) ==> OnTrack(service, first, now + n, Pieces(4 * (frames - count)), end))
      && (!Accepted(service, now, n) ==> !Accepted(service, first, end - first))
  {
    hide Pieces, OnTrack, Accepted;
    BlockPieces(frames, count);
    TrackOn(service, first, now, Pieces(4 * count), Pieces(4 * (frames - count)), end);
  }

  lemma {:induction false} TrackEnds(service: Service, first: nat, now: nat, end: nat)
    requires OnTrack(service, first, now, Pieces(0), end)
    ensures now == end && first <= end && Accepted(service, first, end - first)
  {
    PiecesNone();
  }

  /** play_pcm: frames to the device, at most a block at a time. */
  method PlayPcm(dev: Device, h: nat, samples: seq<Sample>) returns (ok: bool)
    requires Shaped(dev.writes) && h != 0 && h == dev.handle && |samples| % 2 == 0
    modifies dev`writes, dev`attempts
    ensures Shaped(dev.writes)
    ensures SentSome(Concat(old(dev.writes)), Concat(dev.writes), Encode(samples))
    ensures ok ==> Concat(dev.writes) == Concat(old(dev.writes)) + Encode(samples)
    ensures ok <==> Accepted(dev.service, old(dev.attempts), Pieces(2 * |samples|))
    ensures if ok then dev.attempts == old(dev.attempts) + Pieces(2 * |samples|)
            else dev.attempts > 0 && !dev.service.accepts(dev.attempts - 1)
  {
    hide Concat, Pieces, Accepted, Encode, OnTrack;
    var frames := |samples| / 2;
    var done := 0;
    ghost var before, all := Concat(dev.writes), Encode(samples);
    ghost var first, end := dev.attempts, dev.attempts + Pieces(4 * frames);
    SentNone(before, all);
    TrackStarts(dev.service, first, Pieces(4 * frames));
    while done < frames
      invariant 0 <= done <= frames && Shaped(dev.writes) && SentUpTo(before, Concat(dev.writes), all, 4 * done)
      invariant OnTrack(dev.service, first, dev.attempts, Pieces(4 * (frames - done)), end)
    {
      var count := if frames - done > BLOCK then BLOCK else frames - done;
      EncodeSlice(samples, 2 * done, 2 * (done + count));
      BlockTrack(dev.service, first, dev.attempts, frames - done, count, end);
      ghost var was := Concat(dev.writes);
      ok := WriteSamples(dev, h, samples[2 * done..2 * (done + count)]);
      SentNext(before, was, Concat(dev.writes), all, 4 * done, 4 * (done + count));
      if !ok { return; }
      done := done + count;
    }
    SentAll(before, Concat(dev.writes), all);
    TrackEnds(dev.service, first, dev.attempts, end);
    return true;
  }

  lemma {:induction false} EncodeSlice(xs: seq<Sample>, i: nat, j: nat)
    requires i <= j <= |xs|
    ensures Encode(xs[i..j]) == Encode(xs)[2 * i..2 * j]
  {
    assert xs == xs[..i] + (xs[i..j] + xs[j..]);
    EncodeConcat(xs[..i], xs[i..j] + xs[j..]);
    EncodeConcat(xs[i..j], xs[j..]);
  }

  method ReadFrame(data: seq<Byte>, f: Format, n: nat) returns (left: Sample, right: Sample)
    requires Playable(f) && Fits(data, f, n + 1)
    ensures [left, right] == Frame(data, f, n)
  {
    var at, width := n * f.blockAlign, f.bits / 8;
    assert at + f.blockAlign == (n + 1) * f.blockAlign;
    left := PcmSample(data[at..at + width], f.bits);
    right := if f.channels == 2 then PcmSample(data[at + width..at + 2 * width], f.bits) else left;
  }

  method StoreFrame(pcm: array<Sample>, frame: nat, left: Sample, right: Sample)
    requires 2 * frame + 2 <= pcm.Length
    modifies pcm
    ensures pcm[..2 * frame + 2] == old(pcm[..2 * frame]) + [left, right]
  {
    pcm[2 * frame] := left;
    pcm[2 * frame + 1] := right;
  }

  /** The inner loop of play_pcm_bytes: one block of frames into the sample buffer. */
  method FillBlock(data: seq<Byte>, f: Format, done: nat, count: nat, pcm: array<Sample>)
    requires Playable(f) && Fits(data, f, done + count) && 2 * count <= pcm.Length
    modifies pcm
    ensures pcm[..2 * count] == Frames(data, f, done, done + count)
  {
    var frame := 0;
    FitsLess(data, f, done, done + count);
    while frame < count
      invariant 0 <= frame <= count && Fits(data, f, done + frame)
      invariant pcm[..2 * frame] == Frames(data, f, done, done + frame)
    {
      FitsLess(data, f, done + frame + 1, done + count);
      var left, right := ReadFrame(data, f, done + frame);
      StoreFrame(pcm, frame, left, right);
      frame := frame + 1;
    }
  }

  /** The stereo stream of all whole frames. */
  function Stream(data: seq<Byte>, f: Format): seq<Byte>
    requires Playable(f)
  {
    FrameCountFits(data, f);
    Encode(Frames(data, f, 0, FrameCount(data, f)))
  }

  method PlayBlock(dev: Device, h: nat, data: seq<Byte>, f: Format, done: nat, count: nat, pcm: array<Sample>)
    returns (ok: bool)
    requires Playable(f) && Shaped(dev.writes) && h != 0 && h == dev.handle
    requires done + count <= FrameCount(data, f) && 2 * count <= pcm.Length
    modifies dev`writes, dev`attempts, pcm
    ensures Shaped(dev.writes) && |Stream(data, f)| == 4 * FrameCount(data, f)
    ensures var part := Stream(data, f)[4 * done..4 * (done + count)];
      && SentSome(Concat(old(dev.writes)), Concat(dev.writes), part)
      && (ok ==> Concat(dev.writes) == Concat(old(dev.writes)) + part)
    ensures ok <==> Accepted(dev.service, old(dev.attempts), Pieces(4 * count))
    ensures if ok then dev.attempts == old(dev.attempts) + Pieces(4 * count)
            else dev.attempts > 0 && !dev.service.accepts(dev.attempts - 1)
  {
    BlockOfStream(data, f, done, count);
    ok := FillAndPlay(dev, h, data, f, done, count, pcm);
  }

  lemma {:induction false} BlockOfStream(data: seq<Byte>, f: Format, done: nat, count: nat)
    requires Playable(f) && done + count <= FrameCount(data, f)
    ensures Fits(data, f, done + count) && |Stream(data, f)| == 4 * FrameCount(data, f)
    ensures Encode(Frames(data, f, done, done + count)) == Stream(data, f)[4 * done..4 * (done + count)]
  {
    FrameCountFits(data, f);
    FitsLess(data, f, done + count, FrameCount(data, f));
    StreamPart(data, f, done, done + count, FrameCount(data, f));
  }

  method FillAndPlay(dev: Device, h: nat, data: seq<Byte>, f: Format, done: nat, count: nat, pcm: array<Sample>)
    returns (ok: bool)
    requires Playable(f) && Shaped(dev.writes) && h != 0 && h == dev.handle
    requires Fits(data, f, done + count) && 2 * count <= pcm.Length
    modifies dev`writes, dev`attempts, pcm
    ensures Shaped(dev.writes)
    ensures SentSome(Concat(old(dev.writes)), Concat(dev.writes), Encode(Frames(data, f, done, done + count)))
    ensures ok ==> Concat(dev.writes) == Concat(old(dev.writes)) + Encode(Frames(data, f, done, done + count))
    ensures ok <==> Accepted(dev.service, old(dev.attempts), Pieces(4 * count))
    ensures if ok then dev.attempts == old(dev.attempts) + Pieces(4 * count)
            else dev.attempts > 0 && !dev.service.accepts(dev.attempts - 1)
  {
    FillBlock(data, f, done, count, pcm);
    ok := PlayPcm(dev, h, pcm[..2 * count]);
  }

  /** play_pcm_bytes after the device has been opened: fill a block, play it, go on. */
  method PlayFrames(dev: Device, h: nat, data: seq<Byte>, f: Format) returns (ok: bool)
    requires Playable(f) && Shaped(dev.writes) && h != 0 && h == dev.handle
    modifies dev`writes, dev`attempts
    ensures Shaped(dev.writes) && SentSome(Concat(old(dev.writes)), Concat(dev.writes), Stream(data, f))
    ensures ok ==> Concat(dev.writes) == Concat(old(dev.writes)) + Stream(data, f)
    ensures ok <==> Accepted(dev.service, old(dev.attempts), Pieces(4 * FrameCount(data, f)))
    ensures !ok ==> dev.attempts > 0 && !dev.service.accepts(dev.attempts - 1)
  {
    hide Concat, Pieces, Accepted, OnTrack, Stream;
    var frames := FrameCount(data, f);
    BlockOfStream(data, f, 0, 0);
    var pcm := new Sample[2 * BLOCK](_ => 0);
    var done := 0;
    ghost var before, all := Concat(dev.writes), Stream(data, f);
    ghost var first, end := dev.attempts, dev.attempts + Pieces(4 * frames);
    SentNone(before, all);
    TrackStarts(dev.service, first, Pieces(4 * frames));
    while done < frames
      invariant 0 <= done <= frames && Shaped(dev.writes) && SentUpTo(before, Concat(dev.writes), all, 4 * done)
      invariant OnTrack(dev.service, first, dev.attempts, Pieces(4 * (frames - done)), end)
    {
      var count := if frames - done > BLOCK then BLOCK else frames - done;
      BlockTrack(dev.service, first, dev.attempts, frames - done, count, end);
      ghost var was := Concat(dev.writes);
      ok := PlayBlock(dev, h, data, f, done, count, pcm);
      SentNext(before, was, Concat(dev.writes), all, 4 * done, 4 * (done + count));
      if !ok { return; }
      done := done + count;
    }
    SentAll(before, Concat(dev.writes), all);
    TrackEnds(dev.service, first, dev.attempts, end);
    return true;
  }

  lemma {:induction false} StreamPart(data: seq<Byte>, f: Format, a: nat, b: nat, n: nat)
    requires Playable(f) && a <= b <= n && Fits(data, f, b) && Fits(data, f, n)
    ensures Encode(Frames(data, f, a, b)) == Encode(Frames(data, f, 0, n))[4 * a..4 * b]
  {
    FitsLess(data, f, a, b);
    var all, front, part, rest := Frames(data, f, 0, n), Frames(data, f, 0, a), Frames(data, f, a, b), Frames(data, f, b, n);
    FramesConcat(data, f, 0, b, n);
    FramesConcat(data, f, 0, a, b);
    assert all == front + part + rest;
    assert all[2 * a..2 * b] == part;
    EncodeSlice(all, 2 * a, 2 * b);
  }

  /** play_pcm_bytes */
  method PlayPcmBytes(dev: Device, data: seq<Byte>, f: Format, encoding: nat, rate: nat) returns (ok: bool)
    requires Shaped(dev.writes)
    modifies dev
    ensures Shaped(dev.writes)
    ensures ok ==> Playable(f) && Concat(dev.writes) == Concat(old(dev.writes)) + Stream(data, f)
    ensures Playable(f) ==> SentSome(Concat(old(dev.writes)), Concat(dev.writes), Stream(data, f))
    ensures var willing := Playable(f) && data != [] && (encoding == 1 || encoding == 0xFFFE) && rate != 0 && old(dev.handle) == 0
                           && dev.service.playback && dev.service.starts;
      && (!willing ==> dev.writes == old(dev.writes))
      && (ok <==> willing && Accepted(dev.service, old(dev.attempts), Pieces(4 * FrameCount(data, f))))
      && (willing && !ok ==> dev.attempts > 0 && !dev.service.accepts(dev.attempts - 1))
    ensures old(dev.handle) == 0 && dev.service.stops ==> dev.handle == 0
  {
    if data == [] || !Playable(f) || (encoding != 1 && encoding != 0xFFFE) { return false; }
    SentNone(Concat(dev.writes), Stream(data, f));
    var h := dev.Open(rate);
    if h == 0 { return false; }
    ok := PlayFrames(dev, h, data, f);
    var _ := dev.Close(h);
  }
}
