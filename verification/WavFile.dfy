/**
 The WAV player's file side: the walk over RIFF chunks that picks up the format and the
 data, and the choice of the decoder.
 */
module WavFile {
  import opened Basics
  import opened WideText
  import opened WavCodec
  import opened WaveOut
  import opened WavPlay
  import opened WavIma

  const RIFF: seq<Byte> := [82, 73, 70, 70]
  const WAVE: seq<Byte> := [87, 65, 86, 69]
  const FMT: seq<Byte> := [102, 109, 116, 32]
  const DATA: seq<Byte> := [100, 97, 116, 97]

  datatype Chunk = Chunk(tag: seq<Byte>, body: seq<Byte>)

  function Le32At(b: seq<Byte>, i: nat): (r: nat)
    requires i + 4 <= |b|
    ensures r < UINT32
  {
    Le32(b[i..i + 4])
  }

  function Le16At(b: seq<Byte>, i: nat): nat
    requires i + 2 <= |b|
  {
    Le16(b[i], b[i + 1])
  }

  function Padded(n: nat): nat {
    n + n % 2
  }

  /** The chunks from an offset on; one that does not fit ends the list. */
  function Chunks(file: seq<Byte>, offset: nat): seq<Chunk>
    decreases |file| - offset
  {
    if offset + 8 > |file| || Le32At(file, offset + 4) > |file| - offset - 8 then [] else
    var size := Le32At(file, offset + 4);
    [Chunk(file[offset..offset + 4], file[offset + 8..offset + 8 + size])] + Chunks(file, offset + 8 + Padded(size))
  }

  /** The offset at which the chunks end. */
  function End(file: seq<Byte>, offset: nat): (end: nat)
    ensures offset <= end
    decreases |file| - offset
  {
    if offset + 8 > |file| || Le32At(file, offset + 4) > |file| - offset - 8 then offset
    else End(file, offset + 8 + Padded(Le32At(file, offset + 4)))
  }

  // ------------------------------------------------------------------ what is picked up

  /** The variables of main: have is 1 for a PCM format seen, 2 for IMA. */
  datatype Settings = Settings(have: nat, encoding: nat, channels: nat, rate: nat, align: nat, bits: nat, data: Option<seq<Byte>>)

  /** Lost is the walk that has left the file: its 32-bit offset has wrapped around. */
  datatype Found = Found(settings: Settings) | BadFormat | Lost

  const NOTHING := Settings(0, 0, 0, 0, 0, 0, None)

  /** A format chunk replaces all fields, but what was recognised before stays recognised. */
  function Absorb(s: Settings, c: Chunk): (r: Found)
    ensures !r.Lost?
  {
    if c.tag == FMT then
      if |c.body| < 16 then BadFormat else
      var encoding, channels, bits := Le16At(c.body, 0), Le16At(c.body, 2), Le16At(c.body, 14);
      var have :=
        if (encoding == 1 || encoding == 0xFFFE) && 1 <= channels <= 2 && Pcm(bits) then 1
        else if encoding == 0x11 && channels == 1 && bits == 4 then 2
        else s.have;
      Found(Settings(have, encoding, channels, Le32At(c.body, 4), Le16At(c.body, 12), bits, s.data))
    else if c.tag == DATA then Found(s.(data := Some(c.body)))
    else Found(s)
  }

  function AbsorbAll(s: Settings, cs: seq<Chunk>): (r: Found)
    ensures !r.Lost?
    decreases |cs|
  {
    if cs == [] then Found(s) else
    var r := Absorb(s, cs[0]);
    if r.BadFormat? then r else AbsorbAll(r.settings, cs[1..])
  }

  /** What the chunks from an offset on still add. */
  function Left(file: seq<Byte>, offset: nat, s: Settings): Found {
    AbsorbAll(s, Chunks(file, offset))
  }

  lemma {:induction false} LeftNext(file: seq<Byte>, offset: nat, s: Settings)
    requires offset + 8 <= |file| && Le32At(file, offset + 4) <= |file| - offset - 8
    ensures var size := Le32At(file, offset + 4);
      var got := Absorb(s, Chunk(file[offset..offset + 4], file[offset + 8..offset + 8 + size]));
      Left(file, offset, s) == if got.BadFormat? then BadFormat else Left(file, offset + 8 + Padded(size), got.settings)
  {
    hide Absorb, Padded, Le32At;
    var size := Le32At(file, offset + 4);
    var chunk, rest := Chunk(file[offset..offset + 4], file[offset + 8..offset + 8 + size]), Chunks(file, offset + 8 + Padded(size));
    assert Chunks(file, offset) == [chunk] + rest;
    assert ([chunk] + rest)[1..] == rest;
  }

  /** offset + 8 <= size, in 32-bit arithmetic */
  predicate More(offset: nat, length: nat) {
    (offset + 8) % UINT32 <= length
  }

  /** The bytes these chunks take up in a file. */
  function Used(cs: seq<Chunk>): nat {
    if cs == [] then 0 else 8 + Padded(|cs[0].body|) + Used(cs[1..])
  }

  /** The chunks leave eight bytes of the 32-bit range free. */
  predicate InRange(file: seq<Byte>) {
    12 + Used(Chunks(file, 12)) + 8 < UINT32
  }

  lemma {:induction false} EndUsed(file: seq<Byte>, offset: nat)
    ensures End(file, offset) == offset + Used(Chunks(file, offset))
    decreases |file| - offset
  {
    hide Padded;
    if offset + 8 <= |file| && Le32At(file, offset + 4) <= |file| - offset - 8 {
      var size := Le32At(file, offset + 4);
      EndUsed(file, offset + 8 + Padded(size));
      var chunk, rest := Chunk(file[offset..offset + 4], file[offset + 8..offset + 8 + size]), Chunks(file, offset + 8 + Padded(size));
      assert ([chunk] + rest)[1..] == rest && |chunk.body| == size;
    }
  }

  lemma {:induction false} EndBound(file: seq<Byte>, offset: nat)
    requires offset <= |file| + 1
    ensures End(file, offset) <= |file| + 1
    decreases |file| - offset
  {
    if offset + 8 <= |file| && Le32At(file, offset + 4) <= |file| - offset - 8 {
      EndBound(file, offset + 8 + Padded(Le32At(file, offset + 4)));
    }
  }

  /** Every file that leaves nine bytes of the address space free is in range. */
  lemma {:induction false} SmallInRange(file: seq<Byte>)
    requires 12 <= |file| < UINT32 - 9
    ensures InRange(file)
  {
    hide End, Chunks, Used;
    EndBound(file, 12);
    EndUsed(file, 12);
  }

  /** Where the chunks end, the test of the loop comes out right exactly when the file is in range. */
  lemma {:induction false} TestAtEnd(file: seq<Byte>)
    requires 12 <= |file| < UINT32
    ensures var end := 12 + Used(Chunks(file, 12));
      (More(end % UINT32, |file|) <==> end + 8 <= |file|) <==> InRange(file)
  {
    hide End, Chunks, Used;
    EndBound(file, 12);
    EndUsed(file, 12);
    WrappedTest(12 + Used(Chunks(file, 12)), |file|);
  }

  lemma {:induction false} WrappedTest(end: nat, length: nat)
    requires 12 <= end <= length + 1 && 12 <= length < UINT32
    ensures (More(end % UINT32, length) <==> end + 8 <= length) <==> end + 8 < UINT32
  {
    if end < UINT32 <= end + 8 { assert (end + 8) % UINT32 == end + 8 - UINT32; }
  }

  /** What the walk over a file makes of it, if it does not end at a bad format first. */
  function Walked(file: seq<Byte>): Found
    requires 12 <= |file|
  {
    var all := AbsorbAll(NOTHING, Chunks(file, 12));
    if all.BadFormat? || InRange(file) then all else Lost
  }

  /** The walk from an offset: what it adds, and where it ends. */
  ghost predicate Walk(file: seq<Byte>, offset: nat, s: Settings, end: Found, stop: nat) {
    Left(file, offset, s) == end && End(file, offset) == stop
  }

  lemma {:induction false} LeftOver(file: seq<Byte>, offset: nat, s: Settings)
    requires offset + 8 > |file| || Le32At(file, offset + 4) > |file| - offset - 8
    ensures Left(file, offset, s) == Found(s)
  {
  }

  lemma {:induction false} WalkStep(file: seq<Byte>, offset: nat, s: Settings, size: nat, got: Found, end: Found, stop: nat)
    requires offset + 8 + size <= |file| && size == Le32At(file, offset + 4) && Walk(file, offset, s, end, stop)
    requires got == Absorb(s, Chunk(file[offset..offset + 4], file[offset + 8..offset + 8 + size]))
    ensures offset + 8 + Padded(size) <= stop
    ensures if got.BadFormat? then end == BadFormat else Walk(file, offset + 8 + Padded(size), got.settings, end, stop)
  {
    hide Left, Absorb;
    LeftNext(file, offset, s);
  }

  lemma {:induction false} WalkEnds(file: seq<Byte>, offset: nat, s: Settings, end: Found, stop: nat)
    requires offset + 8 > |file| || Le32At(file, offset + 4) > |file| - offset - 8
    requires Walk(file, offset, s, end, stop)
    ensures end == Found(s) && stop == offset
  {
    LeftOver(file, offset, s);
  }

  /** One chunk; None when it does not fit into the file. The next offset is not wrapped yet. */
  method NextChunk(file: seq<Byte>, offset: nat, s: Settings, ghost end: Found, ghost stop: nat)
    returns (got: Option<Found>, next: nat)
    requires offset + 8 <= |file| < UINT32 && Walk(file, offset, s, end, stop)
    ensures got.None? ==> end == Found(s) && stop == offset
    ensures got == Some(BadFormat) ==> end == BadFormat
    ensures got.Some? ==> !got.value.Lost?
    ensures got.Some? && got.value.Found? ==>
      offset < next <= stop && next <= |file| + 1 && Walk(file, next, got.value.settings, end, stop)
  {
    hide Walk, Absorb;
    var size := Le32At(file, offset + 4);
    if size > |file| - offset - 8 {
      WalkEnds(file, offset, s, end, stop);
      return None, offset;
    }
    var r := Absorb(s, Chunk(file[offset..offset + 4], file[offset + 8..offset + 8 + size]));
    WalkStep(file, offset, s, size, r, end, stop);
    next := offset + 8 + size + size % 2;
    got := Some(r);
  }

  /** The chunk loop of main, in 32-bit arithmetic; when the offset wraps around, it is no longer in the file. */
  method WalkChunks(file: seq<Byte>) returns (r: Found)
    requires 12 <= |file| < UINT32
    ensures r == Walked(file)
  {
    hide Walk, End, Chunks, Used, AbsorbAll;
    var offset, s := 12, NOTHING;
    ghost var end, stop := Left(file, 12, NOTHING), End(file, 12);
    WalkStarts(file);
    EndUsed(file, 12);
    while More(offset, |file|)
      invariant 12 <= offset <= stop && offset < UINT32 && Walk(file, offset, s, end, stop)
      decreases stop - offset
    {
      if offset + 8 >= UINT32 {
        WalkEnds(file, offset, s, end, stop);
        return Lost;
      }
      var got, next := NextChunk(file, offset, s, end, stop);
      if got.None? { return Found(s); }
      if got.value.BadFormat? { return BadFormat; }
      if next >= UINT32 {
        WalkEnds(file, next, got.value.settings, end, stop);
        return Lost;
      }
      s, offset := got.value.settings, next;
    }
    WalkEnds(file, offset, s, end, stop);
    return Found(s);
  }

  lemma {:induction false} WalkStarts(file: seq<Byte>)
    ensures Walk(file, 12, NOTHING, Left(file, 12, NOTHING), End(file, 12))
  {
  }

  // ---------------------------------------------------------------------- the program

  /** What main does with a file: an exit code, or a way to play it. */
  datatype Plan = Astray | Exit(code: nat) | PlayAsPcm(data: seq<Byte>, format: Format, encoding: nat, rate: nat)
                | PlayAsIma(data: seq<Byte>, align: nat, rate: nat)

  function Choose(r: Found): Plan {
    if r.Lost? then Astray else if r.BadFormat? then Exit(3) else
    var s := r.settings;
    if s.have == 0 || s.data.None? || s.data.value == [] || s.rate == 0 then Exit(4)
    else if s.have == 2 then PlayAsIma(s.data.value, s.align, s.rate)
    else PlayAsPcm(s.data.value, Format(s.align, s.channels, s.bits), s.encoding, s.rate)
  }

  function PlanFor(file: seq<Byte>): Plan {
    if |file| < 12 then Exit(1)
    else if file[..4] != RIFF || file[8..12] != WAVE then Exit(2)
    else Choose(Walked(file))
  }

  /** The device got what the plan promises: everything with exit code 0, some of it with 5. */
  predicate Carried(plan: Plan, code: Option<nat>, before: seq<Byte>, now: seq<Byte>) {
    match plan
    case Astray => code == None && now == before
    case Exit(c) => code == Some(c) && now == before
    case PlayAsPcm(data, f, _, _) =>
      && (code == Some(0) || code == Some(5)) && (code == Some(0) ==> Playable(f))
      && (Playable(f) ==> SentSome(before, now, Stream(data, f)) && (code == Some(0) ==> now == before + Stream(data, f)))
    case PlayAsIma(data, align, _) =>
      && (code == Some(0) || code == Some(5)) && (code == Some(0) ==> align >= 4 && AllDecodable(data, align))
      && (align >= 4 ==>
            SentSome(before, now, ImaStream(STEPS, data, align))
            && (code == Some(0) ==> now == before + ImaStream(STEPS, data, align)))
  }

  method Execute(dev: Device, plan: Plan) returns (code: Option<nat>)
    requires Shaped(dev.writes)
    modifies dev
    ensures Shaped(dev.writes) && Carried(plan, code, Concat(old(dev.writes)), Concat(dev.writes))
  {
    if plan.Astray? { return None; }
    if plan.Exit? { return Some(plan.code); }
    var ok;
    if plan.PlayAsPcm? {
      ok := PlayPcmBytes(dev, plan.data, plan.format, plan.encoding, plan.rate);
    } else {
      ok := PlayIma(dev, plan.data, plan.align, plan.rate);
    }
    code := if ok then Some(0) else Some(5);
  }

  /** main, once the file has been read; None when the walk over its chunks leaves the file. */
  method PlayFile(dev: Device, file: seq<Byte>) returns (code: Option<nat>)
    requires Shaped(dev.writes) && |file| < UINT32
    modifies dev
    ensures Shaped(dev.writes) && Carried(PlanFor(file), code, Concat(old(dev.writes)), Concat(dev.writes))
  {
    if |file| < 12 { return Some(1); }
    if file[..4] != RIFF || file[8..12] != WAVE { return Some(2); }
    var found := WalkChunks(file);
    code := Execute(dev, Choose(found));
  }

  // ------------------------------------------------------------------- writing a file

  lemma {:induction false} LittleBack(x: nat)
    requires x < UINT32
    ensures Le32(Little(x)) == x
  {
    Quarters(x);
  }

  function Bytes16(x: nat): (b: seq<Byte>)
    requires x < 0x1_0000
    ensures |b| == 2 && Le16(b[0], b[1]) == x
  {
    [x % 0x100, x / 0x100]
  }

  predicate Writable(c: Chunk) {
    |c.tag| == 4 && |c.body| < UINT32
  }

  function WriteChunk(c: Chunk): (b: seq<Byte>)
    requires Writable(c)
    ensures |b| == 8 + Padded(|c.body|)
  {
    c.tag + Little(|c.body|) + c.body + (if |c.body| % 2 == 1 then [0] else [])
  }

  function WriteChunks(cs: seq<Chunk>): seq<Byte>
    requires forall i :: 0 <= i < |cs| ==> Writable(cs[i])
  {
    if cs == [] then [] else WriteChunk(cs[0]) + WriteChunks(cs[1..])
  }

  function WriteFile(cs: seq<Chunk>): seq<Byte>
    requires forall i :: 0 <= i < |cs| ==> Writable(cs[i])
    requires |WriteChunks(cs)| + 4 < UINT32
  {
    RIFF + Little(|WriteChunks(cs)| + 4) + WAVE + WriteChunks(cs)
  }

  lemma {:induction false} ChunkParts(c: Chunk)
    requires Writable(c)
    ensures var b := WriteChunk(c); b[..4] == c.tag && Le32At(b, 4) == |c.body| && b[8..8 + |c.body|] == c.body
  {
    var b := WriteChunk(c);
    assert b[4..8] == Little(|c.body|);
    LittleBack(|c.body|);
  }

  lemma {:induction false} SliceShift(front: seq<Byte>, b: seq<Byte>, rest: seq<Byte>, i: nat, j: nat)
    requires i <= j <= |b|
    ensures (front + b + rest)[|front| + i..|front| + j] == b[i..j]
  {
  }

  lemma {:induction false} FirstChunk(front: seq<Byte>, c: Chunk, rest: seq<Byte>)
    requires Writable(c)
    ensures var file := front + WriteChunk(c) + rest;
      Chunks(file, |front|) == [c] + Chunks(file, |front + WriteChunk(c)|)
  {
    var b := WriteChunk(c);
    ChunkParts(c);
    SliceShift(front, b, rest, 0, 4);
    SliceShift(front, b, rest, 4, 8);
    SliceShift(front, b, rest, 8, 8 + |c.body|);
  }

  /** The walk over a written file finds exactly the chunks that were written. */
  lemma {:induction false} ChunksBack(front: seq<Byte>, cs: seq<Chunk>)
    requires forall i :: 0 <= i < |cs| ==> Writable(cs[i])
    ensures Chunks(front + WriteChunks(cs), |front|) == cs
    decreases |cs|
  {
    if cs != [] {
      var b, rest := WriteChunk(cs[0]), WriteChunks(cs[1..]);
      FirstChunk(front, cs[0], rest);
      Associate(front, b, rest);
      ChunksBack(front + b, cs[1..]);
    }
  }

  /** The format chunk of a file. */
  function FormatChunk(encoding: nat, f: Format, rate: nat): Chunk
    requires encoding < 0x1_0000 && f.channels < 0x1_0000 && f.blockAlign < 0x1_0000 && f.bits < 0x1_0000
    requires rate * f.blockAlign < UINT32 && rate < UINT32
  {
    Chunk(FMT, Bytes16(encoding) + Bytes16(f.channels) + Little(rate) + Little(rate * f.blockAlign)
               + Bytes16(f.blockAlign) + Bytes16(f.bits))
  }

  lemma {:induction false} FormatFields(encoding: nat, f: Format, rate: nat)
    requires encoding < 0x1_0000 && f.channels < 0x1_0000 && f.blockAlign < 0x1_0000 && f.bits < 0x1_0000
    requires rate * f.blockAlign < UINT32 && rate < UINT32
    ensures var b := FormatChunk(encoding, f, rate).body;
      && |b| == 16 && Le16At(b, 0) == encoding && Le16At(b, 2) == f.channels && Le32At(b, 4) == rate
      && Le16At(b, 12) == f.blockAlign && Le16At(b, 14) == f.bits
  {
    var b := FormatChunk(encoding, f, rate).body;
    assert b[4..8] == Little(rate);
    LittleBack(rate);
  }

  /** A written PCM file is played with the format and the data that were written. */
  lemma {:induction false} PlanForWritten(f: Format, rate: nat, data: seq<Byte>)
    requires Playable(f) && f.blockAlign < 0x1_0000 && 0 < rate && rate * f.blockAlign < UINT32 && rate < UINT32
    requires data != [] && |data| < UINT32 - 64
    ensures var cs := [FormatChunk(1, f, rate), Chunk(DATA, data)];
      && |WriteChunks(cs)| + 4 < UINT32
      && PlanFor(WriteFile(cs)) == PlayAsPcm(data, f, 1, rate)
  {
    var fmt, dat := FormatChunk(1, f, rate), Chunk(DATA, data);
    var cs := [fmt, dat];
    TwoChunks(fmt, dat);
    FormatFields(1, f, rate);
    Header(cs);
    AbsorbWritten(f, rate, data);
  }

  lemma {:induction false} TwoChunks(a: Chunk, b: Chunk)
    requires Writable(a) && Writable(b)
    ensures |WriteChunks([a, b])| == 16 + Padded(|a.body|) + Padded(|b.body|)
  {
    assert [a, b][1..] == [b] && [b][1..] == [];
    assert WriteChunks([b]) == WriteChunk(b) + [];
    assert WriteChunks([a, b]) == WriteChunk(a) + WriteChunks([b]);
  }

  lemma {:induction false} Header(cs: seq<Chunk>)
    requires forall i :: 0 <= i < |cs| ==> Writable(cs[i])
    requires |WriteChunks(cs)| + 20 < UINT32
    ensures PlanFor(WriteFile(cs)) == Choose(AbsorbAll(NOTHING, cs))
  {
    var front := RIFF + Little(|WriteChunks(cs)| + 4) + WAVE;
    assert front[..4] == RIFF && front[8..12] == WAVE;
    var file := WriteFile(cs);
    assert file == front + WriteChunks(cs);
    assert file[..4] == front[..4] && file[8..12] == front[8..12];
    ChunksBack(front, cs);
    UsedWritten(cs);
  }

  lemma {:induction false} UsedWritten(cs: seq<Chunk>)
    requires forall i :: 0 <= i < |cs| ==> Writable(cs[i])
    ensures Used(cs) == |WriteChunks(cs)|
  {
    if cs != [] { UsedWritten(cs[1..]); }
  }

  lemma {:induction false} AbsorbWritten(f: Format, rate: nat, data: seq<Byte>)
    requires Playable(f) && f.blockAlign < 0x1_0000 && 0 < rate && rate * f.blockAlign < UINT32 && rate < UINT32
    ensures AbsorbAll(NOTHING, [FormatChunk(1, f, rate), Chunk(DATA, data)]) ==
      Found(Settings(1, 1, f.channels, rate, f.blockAlign, f.bits, Some(data)))
  {
    var fmt, dat := FormatChunk(1, f, rate), Chunk(DATA, data);
    FormatFields(1, f, rate);
    var s := Settings(1, 1, f.channels, rate, f.blockAlign, f.bits, None);
    assert Absorb(NOTHING, fmt) == Found(s);
    assert [fmt, dat][1..] == [dat] && [dat][1..] == [];
    assert DATA[0] != FMT[0];
    assert Absorb(s, dat) == Found(s.(data := Some(data)));
    assert AbsorbAll(s, [dat]) == AbsorbAll(s.(data := Some(data)), []);
  }
}
