/**
 Which WAV files are played and how: the decision for every file made of a format chunk, a
 data chunk and any other chunks around them, and for files that lack one of the two.
 */
module WavPlans {
  import opened Basics
  import opened WideText
  import opened WavCodec
  import opened WavIma
  import opened WavFile

  /** Chunks that say nothing about how to play. */
  ghost predicate OtherChunks(cs: seq<Chunk>) {
    forall i :: 0 <= i < |cs| ==> Writable(cs[i]) && cs[i].tag != FMT && cs[i].tag != DATA
  }

  ghost predicate AllWritable(cs: seq<Chunk>) {
    forall i :: 0 <= i < |cs| ==> Writable(cs[i])
  }

  lemma {:induction false} OthersSkipped(s: Settings, others: seq<Chunk>, rest: seq<Chunk>)
    requires OtherChunks(others)
    ensures AbsorbAll(s, others + rest) == AbsorbAll(s, rest)
    decreases |others|
  {
    if others == [] {
      assert others + rest == rest;
    } else {
      var cs := others + rest;
      assert cs[0] == others[0] && cs[1..] == others[1..] + rest;
      assert Absorb(s, others[0]) == Found(s);
      OthersSkipped(s, others[1..], rest);
    }
  }

  lemma {:induction false} AbsorbFirst(s: Settings, c: Chunk, rest: seq<Chunk>, r: Settings)
    requires Absorb(s, c) == Found(r)
    ensures AbsorbAll(s, [c] + rest) == AbsorbAll(r, rest)
  {
    assert ([c] + rest)[1..] == rest;
  }

  // ------------------------------------------------------------------------ the format

  predicate ShortFields(encoding: nat, f: Format, rate: nat) {
    && encoding < 0x1_0000 && f.channels < 0x1_0000 && f.blockAlign < 0x1_0000 && f.bits < 0x1_0000
    && rate * f.blockAlign < UINT32 && rate < UINT32
  }

  /** PCM, plain or extensible, of one or two channels and whole bytes. */
  predicate IsPcm(encoding: nat, f: Format) {
    (encoding == 1 || encoding == 0xFFFE) && (f.channels == 1 || f.channels == 2) && Pcm(f.bits)
  }

  /** IMA ADPCM of one channel. */
  predicate IsIma(encoding: nat, f: Format) {
    encoding == 0x11 && f.channels == 1 && f.bits == 4
  }

  function Kind(encoding: nat, f: Format): nat {
    if IsPcm(encoding, f) then 1 else if IsIma(encoding, f) then 2 else 0
  }

  lemma {:induction false} FormatRead(encoding: nat, f: Format, rate: nat)
    requires ShortFields(encoding, f, rate)
    ensures Absorb(NOTHING, FormatChunk(encoding, f, rate)) ==
      Found(Settings(Kind(encoding, f), encoding, f.channels, rate, f.blockAlign, f.bits, None))
  {
    hide Le16At, Le32At;
    FormatFields(encoding, f, rate);
  }

  // ------------------------------------------------------------------------- the plan

  /** The chunks of a file with one format and one data chunk, in that order. */
  ghost function FileChunks(before: seq<Chunk>, fmt: Chunk, between: seq<Chunk>, dat: Chunk, behind: seq<Chunk>): seq<Chunk> {
    before + ([fmt] + (between + ([dat] + behind)))
  }

  lemma {:induction false} ChunksAbsorbed(before: seq<Chunk>, between: seq<Chunk>, behind: seq<Chunk>,
                                          encoding: nat, f: Format, rate: nat, data: seq<Byte>)
    requires OtherChunks(before) && OtherChunks(between) && OtherChunks(behind) && ShortFields(encoding, f, rate)
    ensures AbsorbAll(NOTHING, FileChunks(before, FormatChunk(encoding, f, rate), between, Chunk(DATA, data), behind)) ==
      Found(Settings(Kind(encoding, f), encoding, f.channels, rate, f.blockAlign, f.bits, Some(data)))
  {
    hide AbsorbAll, Kind, FormatChunk;
    var fmt, dat := FormatChunk(encoding, f, rate), Chunk(DATA, data);
    var s := Settings(Kind(encoding, f), encoding, f.channels, rate, f.blockAlign, f.bits, None);
    var tail := between + ([dat] + behind);
    OthersSkipped(NOTHING, before, [fmt] + tail);
    FormatRead(encoding, f, rate);
    AbsorbFirst(NOTHING, fmt, tail, s);
    OthersSkipped(s, between, [dat] + behind);
    assert DATA[0] != FMT[0];
    AbsorbFirst(s, dat, behind, s.(data := Some(data)));
    assert behind + [] == behind;
    OthersSkipped(s.(data := Some(data)), behind, []);
    NothingAbsorbed(s.(data := Some(data)));
  }

  lemma {:induction false} NothingAbsorbed(s: Settings)
    ensures AbsorbAll(s, []) == Found(s)
  {
  }

  /** With its data and its rate in order, a file is played by its format and as it says; any other gives exit code 4. */
  lemma {:induction false} FilePlan(before: seq<Chunk>, between: seq<Chunk>, behind: seq<Chunk>,
                                    encoding: nat, f: Format, rate: nat, data: seq<Byte>)
    requires OtherChunks(before) && OtherChunks(between) && OtherChunks(behind) && ShortFields(encoding, f, rate)
    requires var cs := FileChunks(before, FormatChunk(encoding, f, rate), between, Chunk(DATA, data), behind);
      AllWritable(cs) && |WriteChunks(cs)| + 20 < UINT32
    ensures var plan := PlanFor(WriteFile(FileChunks(before, FormatChunk(encoding, f, rate), between, Chunk(DATA, data), behind)));
      if data == [] || rate == 0 then plan == Exit(4)
      else if IsPcm(encoding, f) then plan == PlayAsPcm(data, f, encoding, rate)
      else if IsIma(encoding, f) then plan == PlayAsIma(data, f.blockAlign, rate)
      else plan == Exit(4)
  {
    hide AbsorbAll, FormatChunk, FileChunks, WriteFile, WriteChunks, PlanFor;
    var cs := FileChunks(before, FormatChunk(encoding, f, rate), between, Chunk(DATA, data), behind);
    Header(cs);
    ChunksAbsorbed(before, between, behind, encoding, f, rate, data);
  }

  /** A file without a data chunk, or without a format, gives exit code 4. */
  lemma {:induction false} PartMissing(before: seq<Chunk>, c: Chunk, behind: seq<Chunk>, encoding: nat, f: Format, rate: nat)
    requires OtherChunks(before) && OtherChunks(behind) && ShortFields(encoding, f, rate)
    requires c == FormatChunk(encoding, f, rate) || (Writable(c) && c.tag == DATA)
    requires AllWritable(before + ([c] + behind)) && |WriteChunks(before + ([c] + behind))| + 20 < UINT32
    ensures PlanFor(WriteFile(before + ([c] + behind))) == Exit(4)
  {
    hide AbsorbAll, FormatChunk, WriteFile, WriteChunks, PlanFor;
    var cs := before + ([c] + behind);
    Header(cs);
    OthersSkipped(NOTHING, before, [c] + behind);
    FormatRead(encoding, f, rate);
    assert DATA[0] != FMT[0];
    var s := Absorb(NOTHING, c).settings;
    AbsorbFirst(NOTHING, c, behind, s);
    assert behind + [] == behind;
    OthersSkipped(s, behind, []);
    NothingAbsorbed(s);
  }

  // ----------------------------------------------------------------------- IMA blocks

  /** A block: the first sample in two bytes, little end first, the index, a byte that is not read, and the nibbles. */
  function Block(x: Sample, index: Byte, unread: Byte, body: seq<Byte>): seq<Byte> {
    SampleBytes(x) + [index, unread] + body
  }

  /** A block sounds as its first sample and then as its nibbles, the low half of each byte first; an index above 88 is refused. */
  lemma {:induction false} BlockMeans(steps: StepTable, x: Sample, index: Byte, unread: Byte, body: seq<Byte>)
    ensures Decodable(Block(x, index, unread, body)) <==> index <= 88
    ensures index <= 88 ==>
      && BlockSamples(steps, Block(x, index, unread, body)) == Outputs(steps, Ima(x, index), Nibbles(body))
      && BlockSamples(steps, Block(x, index, unread, body))[0] == x
  {
    hide SampleBytes, Nibbles, Outputs;
    var b := Block(x, index, unread, body);
    assert b[0] == SampleBytes(x)[0] && b[1] == SampleBytes(x)[1] && b[2] == index && b[4..] == body;
    if index <= 88 { OutputsFirst(steps, Ima(x, index), Nibbles(body)); }
  }

  lemma {:induction false} OutputsFirst(steps: StepTable, s: Ima, codes: seq<Nibble>)
    ensures Outputs(steps, s, codes)[0] == s.predictor
  {
    if codes != [] { OutputsFirst(steps, s, codes[..|codes| - 1]); }
  }

  /** The low half of each byte comes first. */
  lemma {:induction false} LowHalfFirst(body: seq<Byte>, k: nat)
    requires k < |body|
    ensures Nibbles(body)[2 * k] == body[k] % 16 && Nibbles(body)[2 * k + 1] == body[k] / 16
  {
  }

  /** Each sample of a block is heard on both sides. */
  lemma {:induction false} DoubledAt(xs: seq<Sample>, k: nat)
    requires k < |xs|
    ensures Doubled(xs)[2 * k] == xs[k] && Doubled(xs)[2 * k + 1] == xs[k]
  {
    if k < |xs| - 1 { DoubledAt(xs[..|xs| - 1], k); }
  }
}
