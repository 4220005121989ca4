/**
 The wave output device: one open stream, written in chunks the audio service may refuse.
 */
module WaveOut {
  import opened Basics
  import opened WideText

  const CHUNK: nat := 4096

  /** What the audio service does: whether it starts and stops, and which stream writes it accepts. */
  datatype Service = Service(playback: bool, starts: bool, stops: bool, accepts: nat -> bool)

  /** Non-empty writes of whole frames, none above the chunk size. */
  predicate Shaped(writes: seq<seq<Byte>>) {
    forall i :: 0 <= i < |writes| ==> 0 < |writes[i]| <= CHUNK && |writes[i]| % 4 == 0
  }

  /** Something has been added to what was sent before, and it is a prefix of these bytes. */
  predicate SentSome(before: seq<Byte>, now: seq<Byte>, bytes: seq<Byte>) {
    before <= now <= before + bytes
  }

  /** Exactly the first k of these bytes have been added. */
  predicate SentUpTo(before: seq<Byte>, now: seq<Byte>, all: seq<Byte>, k: nat) {
    k <= |all| && now == before + all[..k]
  }

  lemma {:induction false} SentNone(before: seq<Byte>, all: seq<Byte>)
    ensures SentUpTo(before, before, all, 0) && SentSome(before, before, all)
  {
  }

  /** What is sent of the next part is a prefix of the whole; if it is all of it, the count moves on. */
  lemma {:induction false} SentNext(before: seq<Byte>, was: seq<Byte>, now: seq<Byte>, all: seq<Byte>, i: nat, j: nat)
    requires i <= j <= |all| && SentUpTo(before, was, all, i) && SentSome(was, now, all[i..j])
    ensures SentSome(before, now, all)
    ensures now == was + all[i..j] ==> SentUpTo(before, now, all, j)
  {
    assert all[..j] == all[..i] + all[i..j];
    assert all == all[..j] + all[j..];
  }

  lemma {:induction false} SentAll(before: seq<Byte>, now: seq<Byte>, all: seq<Byte>)
    requires SentUpTo(before, now, all, |all|)
    ensures now == before + all && SentSome(before, now, all)
  {
  }

  /** How many stream writes a run of bytes takes. */
  function Pieces(n: nat): nat {
    if n == 0 then 0 else if n <= CHUNK then 1 else 1 + Pieces(n - CHUNK)
  }

  /** The service accepts the next n writes. */
  ghost predicate Accepted(service: Service, from: nat, n: nat) {
    forall k :: from <= k < from + n ==> service.accepts(k)
  }

  /** All writes so far were accepted, and this many are left until `end`. */
  ghost predicate OnTrack(service: Service, from: nat, now: nat, left: nat, end: nat) {
    from <= now && now + left == end && Accepted(service, from, now - from)
  }

  lemma {:induction false} TrackStarts(service: Service, from: nat, left: nat)
    ensures OnTrack(service, from, from, left, from + left)
  {
  }

  lemma {:induction false} TrackOn(service: Service, from: nat, now: nat, n: nat, left: nat, end: nat)
    requires OnTrack(service, from, now, n + left, end)
    ensures Accepted(service, now, n) ==> OnTrack(service, from, now + n, left, end)
    ensures !Accepted(service, now, n) ==> !Accepted(service, from, end - from)
  {
    if !Accepted(service, now, n) {
      var k :| now <= k < now + n && !service.accepts(k);
    }
  }

  lemma {:induction false} AcceptedOne(service: Service, from: nat)
    ensures Accepted(service, from, 1) <==> service.accepts(from)
  {
  }

  lemma {:induction false} PiecesNext(n: nat, chunk: nat)
    requires n > 0 && chunk == if n > CHUNK then CHUNK else n
    ensures Pieces(n) == 1 + Pieces(n - chunk)
  {
  }

  /** Whole chunks in front are written by themselves. */
  lemma {:induction false} PiecesFront(n: nat, k: nat)
    requires k * CHUNK <= n
    ensures Pieces(n) == k + Pieces(n - k * CHUNK)
  {
    if k > 0 {
      PiecesFront(n, k - 1);
      var rest := n - (k - 1) * CHUNK;
      assert rest == n - k * CHUNK + CHUNK;
    }
  }

  lemma {:induction false} PiecesNone()
    ensures Pieces(0) == 0
  {
  }

  class Device {
    const service: Service
    var handle: nat
    var rate: nat
    var writes: seq<seq<Byte>>
    var attempts: nat

    constructor (service: Service)
      ensures this.service == service && handle == 0 && writes == [] && attempts == 0
    {
      this.service, handle, rate, writes, attempts := service, 0, 0, [], 0;
    }

    /** waveOutOpen for 16-bit stereo at the given rate; a handle of zero is a failure. */
    method Open(samplesPerSec: nat) returns (h: nat)
      modifies this`handle, this`rate
      ensures h == (if samplesPerSec != 0 && old(handle) == 0 && service.playback && service.starts then 1 else 0)
      ensures if h != 0 then handle == h && rate == samplesPerSec else handle == old(handle)
    {
      if samplesPerSec == 0 || handle != 0 { return 0; }
      if !service.playback { return 0; }
      rate := samplesPerSec;
      if !service.starts { return 0; }
      handle := 1;
      return handle;
    }

    /** AudioServiceStreamWrite */
    method StreamWrite(piece: seq<Byte>) returns (ok: bool)
      requires Shaped(writes) && 0 < |piece| <= CHUNK && |piece| % 4 == 0
      modifies this`writes, this`attempts
      ensures attempts == old(attempts) + 1 && ok == service.accepts(old(attempts)) && Shaped(writes)
      ensures Concat(writes) == if ok then Concat(old(writes)) + piece else Concat(old(writes))
    {
      ok := service.accepts(attempts);
      attempts := attempts + 1;
      if ok {
        ConcatOne(writes, piece);
        writes := writes + [piece];
      }
    }

    /** The chunk loop of waveOutWrite. */
    method WriteChunks(samples: seq<Byte>) returns (ok: bool)
      requires Shaped(writes) && |samples| % 4 == 0
      modifies this`writes, this`attempts
      ensures Shaped(writes) && SentSome(Concat(old(writes)), Concat(writes), samples)
      ensures ok <==> Accepted(service, old(attempts), Pieces(|samples|))
      ensures if ok then Concat(writes) == Concat(old(writes)) + samples && attempts == old(attempts) + Pieces(|samples|)
              else attempts > 0 && !service.accepts(attempts - 1) && |Concat(writes)| < |Concat(old(writes))| + |samples|
    {
      hide Concat, Pieces, Accepted;
      SentNone(Concat(writes), samples);
      var cursor := 0;
      ghost var before, first, end := Concat(writes), attempts, attempts + Pieces(|samples|);
      TrackStarts(service, first, Pieces(|samples|));
      while cursor < |samples|
        invariant 0 <= cursor <= |samples| && cursor % 4 == 0
        invariant Shaped(writes) && SentUpTo(before, Concat(writes), samples, cursor)
        invariant OnTrack(service, first, attempts, Pieces(|samples| - cursor), end)
      {
        var chunk := if |samples| - cursor > CHUNK then CHUNK else |samples| - cursor;
        PiecesNext(|samples| - cursor, chunk);
        TrackOn(service, first, attempts, 1, Pieces(|samples| - cursor - chunk), end);
        AcceptedOne(service, attempts);
        ghost var was := Concat(writes);
        ok := StreamWrite(samples[cursor..cursor + chunk]);
        SentNext(before, was, Concat(writes), samples, cursor, cursor + chunk);
        if !ok { return; }
        cursor := cursor + chunk;
      }
      PiecesNone();
      SentAll(before, Concat(writes), samples);
      return true;
    }

    /**
     waveOutWrite: all bytes arrive, in chunks, exactly when the service accepts each of them;
     otherwise the refused write ends a series that delivered a prefix of them.
     */
    method Write(h: nat, samples: seq<Byte>) returns (ok: bool)
      requires Shaped(writes)
      modifies this`writes, this`attempts
      ensures Shaped(writes) && SentSome(Concat(old(writes)), Concat(writes), samples)
      ensures h == 0 || h != handle || samples == [] || |samples| % 4 != 0 ==> !ok && writes == old(writes) && attempts == old(attempts)
      ensures h == handle != 0 && samples != [] && |samples| % 4 == 0 ==> (ok <==> Accepted(service, old(attempts), Pieces(|samples|)))
      ensures ok ==> Concat(writes) == Concat(old(writes)) + samples && attempts == old(attempts) + Pieces(|samples|)
      ensures !ok && samples != [] ==> |Concat(writes)| < |Concat(old(writes))| + |samples|
      ensures !ok && h == handle != 0 && samples != [] && |samples| % 4 == 0 ==> attempts > 0 && !service.accepts(attempts - 1)
    {
      hide Concat, Pieces, Accepted, Shaped;
      SentNone(Concat(writes), samples);
      if h == 0 || h != handle || samples == [] || |samples| % 4 != 0 { return false; }
      ok := WriteChunks(samples);
    }

    /** waveOutClose */
    method Close(h: nat) returns (ok: bool)
      modifies this`handle, this`rate
      ensures ok == (h != 0 && h == old(handle) && service.stops)
      ensures handle == if ok then 0 else old(handle)
    {
      if h == 0 || h != handle { return false; }
      if !service.stops { return false; }
      handle, rate := 0, 0;
      return true;
    }
  }
}
