/**
 Program Manager group files: the running checksum that every write updates, and the
 offsets that lead from the header to the programs and their strings.
 */
module GroupFile {
  import opened Basics
  import opened WideText

  // ----------------------------------------------------------------------- checksum

  const WORD: nat := 0x1_0000

  /** The low 16 bits. */
  function Low(x: int): nat {
    x % WORD
  }

  /** A byte read through a signed char. */
  function SignedChar(b: Byte): int {
    if b >= 128 then b - 256 else b
  }

  /** What byte i of the file takes off the checksum: itself, or itself in the high half. */
  function Weight(b: Byte, i: nat): int {
    if i % 2 == 0 then SignedChar(b) else SignedChar(b) * 256
  }

  /** The 16-bit register after these bytes, a last odd byte included. */
  function Register(bs: seq<Byte>): nat {
    if bs == [] then 0 else Low(Register(bs[..|bs| - 1]) - Weight(bs[|bs| - 1], |bs| - 1))
  }

  /** The checksum between writes: a last odd byte is added back, unsigned. */
  function Checksum(bs: seq<Byte>): nat {
    if |bs| % 2 == 1 then Low(Register(bs) + bs[|bs| - 1]) else Register(bs)
  }

  /** The sum of the complete little-endian words. */
  function Words(bs: seq<Byte>): int {
    if bs == [] then 0
    else if |bs| % 2 == 1 then Words(bs[..|bs| - 1])
    else Words(bs[..|bs| - 2]) + Word(bs[|bs| - 2], bs[|bs| - 1])
  }

  /** How many of the bytes at even positions are 0x80 or above. */
  function HighBytes(bs: seq<Byte>): nat {
    if bs == [] then 0
    else HighBytes(bs[..|bs| - 1]) + if |bs| % 2 == 1 && bs[|bs| - 1] >= 128 then 1 else 0
  }

  function OddByte(bs: seq<Byte>): nat {
    if |bs| % 2 == 1 then bs[|bs| - 1] else 0
  }

  lemma {:induction false} ModMinus(x: int, y: int)
    ensures Low(Low(x) - y) == Low(x - y)
  {
  }

  lemma {:induction false} HighHalf(x: int, b: Byte)
    ensures Low(x - SignedChar(b) * 256) == Low(x - 256 * b as int)
  {
  }

  lemma {:induction false} LowZero()
    ensures Low(0) == 0
  {
  }

  lemma {:induction false} RegisterIs(bs: seq<Byte>)
    ensures Register(bs) == Low(256 * HighBytes(bs) - Words(bs) - OddByte(bs))
  {
    hide Low, Word;
    LowZero();
    if bs != [] {
      var n := |bs| - 1;
      var init, b := bs[..n], bs[n];
      RegisterIs(init);
      var x := 256 * HighBytes(init) - Words(init) - OddByte(init);
      ModMinus(x, Weight(b, n));
      if n % 2 == 1 {
        assert init[n - 1] == bs[n - 1] && init[..n - 1] == bs[..n - 1];
        assert Words(bs) == Words(init) + OddByte(init) + 256 * b as int;
        HighHalf(x, b);
      } else {
        assert Words(bs) == Words(init) && OddByte(init) == 0;
      }
    }
  }

  /** The checksum is minus the sum of the words, plus 256 for every high byte at an even position. */
  lemma {:induction false} ChecksumIs(bs: seq<Byte>)
    ensures Checksum(bs) == (256 * HighBytes(bs) - Words(bs)) % WORD
  {
    hide Register, HighBytes, Words;
    RegisterIs(bs);
    var odd: int := OddByte(bs);
    ModMinus(256 * HighBytes(bs) - Words(bs) - odd, -odd);
  }

  /** It is the documented minus sum of words exactly when those bytes are a multiple of 256 in number. */
  lemma {:induction false} ChecksumPlain(bs: seq<Byte>)
    ensures Checksum(bs) == (-Words(bs)) % WORD <==> HighBytes(bs) % 256 == 0
  {
    ChecksumIs(bs);
    HighTimes(HighBytes(bs), Words(bs));
  }

  lemma {:induction false} HighTimes(h: nat, w: int)
    ensures (256 * h - w) % WORD == (-w) % WORD <==> h % 256 == 0
  {
    var q, r := h / 256, h % 256;
    Multiple(256 * r - w, q);
    assert 256 * h - w == WORD * q + (256 * r - w);
    var y := (-w) % WORD;
    ModMinus(-w, -256 * r);
    SmallHigh(r, y);
  }

  lemma {:induction false} SmallHigh(r: nat, y: nat)
    requires r < 256 && y < WORD
    ensures (256 * r + y) % WORD == y <==> r == 0
  {
    if 256 * r + y < WORD {
      assert (256 * r + y) % WORD == 256 * r + y;
    } else {
      assert (256 * r + y) % WORD == 256 * r + y - WORD;
    }
  }

  lemma {:induction false} Multiple(x: int, q: nat)
    ensures (WORD * q + x) % WORD == x % WORD
  {
    if q > 0 {
      Multiple(x, q - 1);
      assert WORD * q + x == WORD * (q - 1) + x + WORD;
    }
  }

  /** In particular for text below 0x80. */
  lemma {:induction false} ChecksumLow(bs: seq<Byte>)
    requires forall i :: 0 <= i < |bs| ==> bs[i] < 128
    ensures Checksum(bs) == (-Words(bs)) % WORD
  {
    LowBytes(bs);
    ChecksumPlain(bs);
  }

  lemma {:induction false} LowBytes(bs: seq<Byte>)
    requires forall i :: 0 <= i < |bs| ==> bs[i] < 128
    ensures HighBytes(bs) == 0
  {
    if bs != [] { LowBytes(bs[..|bs| - 1]); }
  }

  /** A single high byte, which the documented sum would ignore, already changes the checksum. */
  lemma {:induction false} ChecksumExample()
    ensures Checksum([0x80]) == 256 && Words([0x80]) == 0
  {
    assert [0x80][..0] == [];
    assert Register([0x80]) == 128;
  }

  class GroupWriter {
    var sum: nat
    var half: bool
    var last: Byte
    /** The file so far. */
    var written: seq<Byte>

    ghost predicate Valid()
      reads this
    {
      sum == Checksum(written) && half == (|written| % 2 == 1) && (half ==> last == written[|written| - 1])
    }

    /** GRPFILE_InitChecksum */
    constructor ()
      ensures Valid() && written == []
    {
      sum, half, last, written := 0, false, 0, [];
    }

    /** The loop over the bytes of one write. */
    method Feed(bytes: seq<Byte>)
      requires sum == Register(written) && half == (|written| % 2 == 1)
      modifies this`sum, this`half, this`written
      ensures written == old(written) + bytes && sum == Register(written) && half == (|written| % 2 == 1)
    {
      hide Register, SignedChar;
      var i := 0;
      assert written + bytes[..0] == written;
      while i < |bytes|
        invariant 0 <= i <= |bytes| && written == old(written) + bytes[..i]
        invariant sum == Register(written) && half == (|written| % 2 == 1)
      {
        FeedOne(written, bytes[i], half);
        sum := if half then (sum - SignedChar(bytes[i]) * 256) % WORD else (sum - SignedChar(bytes[i])) % WORD;
        half := !half;
        assert bytes[..i + 1] == bytes[..i] + [bytes[i]];
        written := written + [bytes[i]];
        i := i + 1;
      }
      assert bytes[..i] == bytes;
    }

    /** GRPFILE_WriteWithChecksum; its callers never write nothing. */
    method Write(bytes: seq<Byte>)
      requires Valid() && bytes != []
      modifies this
      ensures Valid() && written == old(written) + bytes
    {
      if half { sum := (sum - last) % WORD; }
      RegisterBack(written);
      Feed(bytes);
      if half {
        last := bytes[|bytes| - 1];
        sum := (sum + last) % WORD;
      }
    }

    /** However the bytes are cut into writes, the checksum is that of the bytes. */
    method WriteAll(chunks: seq<seq<Byte>>)
      requires Valid() && forall i :: 0 <= i < |chunks| ==> chunks[i] != []
      modifies this
      ensures Valid() && written == old(written) + Concat(chunks) && sum == Checksum(old(written) + Concat(chunks))
    {
      var i := 0;
      assert written + Concat(chunks[..0]) == written;
      while i < |chunks|
        invariant 0 <= i <= |chunks| && Valid() && written == old(written) + Concat(chunks[..i])
      {
        assert chunks[..i + 1] == chunks[..i] + [chunks[i]];
        ConcatOne(chunks[..i], chunks[i]);
        Associate(old(written), Concat(chunks[..i]), chunks[i]);
        Write(chunks[i]);
        i := i + 1;
      }
      assert chunks[..i] == chunks;
    }
  }

  lemma {:induction false} RegisterNext(bs: seq<Byte>, b: Byte)
    ensures Register(bs + [b]) == (Register(bs) - Weight(b, |bs|)) % WORD
  {
    assert (bs + [b])[..|bs|] == bs;
  }

  /** One byte more, in the low or in the high half of its word. */
  lemma {:induction false} FeedOne(bs: seq<Byte>, b: Byte, half: bool)
    requires half == (|bs| % 2 == 1)
    ensures !half == (|bs + [b]| % 2 == 1)
    ensures Register(bs + [b]) == if half then (Register(bs) - SignedChar(b) * 256) % WORD else (Register(bs) - SignedChar(b)) % WORD
  {
    hide Register, SignedChar;
    RegisterNext(bs, b);
  }

  lemma {:induction false} RegisterBelow(bs: seq<Byte>)
    ensures Register(bs) < WORD
  {
  }

  lemma {:induction false} RegisterBack(bs: seq<Byte>)
    ensures Register(bs) < WORD
    ensures |bs| % 2 == 1 ==> (Checksum(bs) - bs[|bs| - 1]) % WORD == Register(bs)
  {
    hide Register;
    RegisterBelow(bs);
    if |bs| % 2 == 1 { ModMinus(Register(bs) + bs[|bs| - 1], bs[|bs| - 1]); }
  }
}
