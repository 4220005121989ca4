/**
 The command prompt's console: a fixed block of rows, the working directory, and the
 commands that change them.
 */
module CmdConsole {
  import opened Basics
  import opened WideText
  import opened IsoDirectory
  import opened CmdPath

  const ROWS: nat := 128
  const COLS: nat := 72

  // "Changed directory" and "Directory not found"
  const CHANGED: Chars := [67, 104, 97, 110, 103, 101, 100, 32, 100, 105, 114, 101, 99, 116, 111, 114, 121]
  const NOT_FOUND: Chars :=
    [68, 105, 114, 101, 99, 116, 111, 114, 121, 32, 110, 111, 116, 32, 102, 111, 117, 110, 100]

  /** The newest rows, as many as the console keeps. */
  function Newest(rows: seq<Chars>): (r: seq<Chars>)
    ensures |r| <= ROWS
  {
    if |rows| <= ROWS then rows else rows[|rows| - ROWS..]
  }

  /** They are the last ones, in order, and all of them when there is room. */
  lemma {:induction false} NewestAre(before: seq<Chars>, last: seq<Chars>)
    ensures |last| == ROWS ==> Newest(before + last) == last
    ensures |last| < ROWS ==> Newest(last) == last
  {
    assert (before + last)[|before|..] == last;
  }

  lemma {:induction false} NewestAfter(dropped: seq<Chars>, kept: seq<Chars>, b: seq<Chars>)
    requires |kept| == ROWS
    ensures Newest(dropped + kept + b) == Newest(kept + b)
  {
    Associate(dropped, kept, b);
    var all, tail := dropped + (kept + b), kept + b;
    forall k | 0 <= k < |tail| ensures all[|dropped| + k] == tail[k] {}
  }

  /** Dropping old rows early loses nothing that would be kept. */
  lemma {:induction false} NewestNewest(a: seq<Chars>, b: seq<Chars>)
    ensures Newest(Newest(a) + b) == Newest(a + b)
  {
    if |a| > ROWS { NewestAfter(a[..|a| - ROWS], a[|a| - ROWS..], b); }
  }

  lemma {:induction false} NewestOne(rows: seq<Chars>, row: Chars)
    requires |rows| <= ROWS
    ensures Newest(rows + [row]) == (if |rows| == ROWS then rows[1..] else rows) + [row]
  {
  }

  /** The rows of a whole session: appending lines one by one keeps the newest of all of them. */
  function AppendAll(rows: seq<Chars>, texts: seq<Chars>): seq<Chars>
    decreases |texts|
  {
    if texts == [] then rows else AppendAll(Newest(rows + [Take(texts[0], COLS)]), texts[1..])
  }

  function CutAll(texts: seq<Chars>): seq<Chars> {
    if texts == [] then [] else [Take(texts[0], COLS)] + CutAll(texts[1..])
  }

  lemma {:induction false} AppendAllNewest(rows: seq<Chars>, texts: seq<Chars>)
    requires |rows| <= ROWS
    ensures AppendAll(rows, texts) == Newest(rows + CutAll(texts))
    decreases |texts|
  {
    if texts == [] {
      assert rows + [] == rows;
    } else {
      var first := [Take(texts[0], COLS)];
      AppendAllNewest(Newest(rows + first), texts[1..]);
      NewestNewest(rows + first, CutAll(texts[1..]));
      Associate(rows, first, CutAll(texts[1..]));
    }
  }

  // --------------------------------------------------------------------- the console

  class Console {
    var rows: array<Chars>
    var count: nat
    var scroll: int
    var path: Chars

    ghost predicate Shape()
      reads this
    {
      rows.Length == ROWS && count <= ROWS
    }

    ghost predicate Valid()
      reads this
    {
      Shape() && Canonical(path)
    }

    ghost function Contents(): seq<Chars>
      requires Shape()
      reads this, rows
    {
      rows[..count]
    }

    /** CmdAppInit */
    constructor ()
      ensures Valid() && fresh(rows) && Contents() == [] && path == [SLASH] && scroll == 0
    {
      rows := new Chars[ROWS](_ => []);
      count, scroll, path := 0, 0, [SLASH];
      JoinCanonical([]);
    }

    /** The oldest row makes room by shifting all others up. */
    method DropOldest()
      requires Shape() && count == ROWS
      modifies this`count, rows
      ensures Shape() && count == ROWS - 1 && Contents() == old(Contents())[1..]
    {
      var i := 1;
      while i < ROWS
        invariant 1 <= i <= ROWS && rows.Length == ROWS && count == ROWS
        invariant forall k :: 0 <= k < i - 1 ==> rows[k] == old(rows[k + 1])
        invariant forall k :: i <= k < ROWS ==> rows[k] == old(rows[k])
      {
        rows[i - 1] := rows[i];
        i := i + 1;
      }
      count := ROWS - 1;
    }

    method PutRow(row: Chars)
      requires Shape() && count < ROWS
      modifies this`count, rows
      ensures Shape() && Contents() == old(Contents()) + [row]
    {
      rows[count] := row;
      count := count + 1;
    }

    /** cmd_append_line */
    method AppendLine(text: Chars)
      requires Shape()
      modifies this`count, this`scroll, rows
      ensures Shape() && scroll == 0 && Contents() == Newest(old(Contents()) + [Take(text, COLS)])
    {
      NewestOne(Contents(), Take(text, COLS));
      if count == ROWS { DropOldest(); }
      PutRow(Take(text, COLS));
      scroll := 0;
    }

    method BlankFirst()
      requires Shape()
      modifies rows
      ensures Contents() == if count == 0 then [] else [[]] + old(Contents())[1..]
    {
      rows[0] := [];
    }

    /** The CD branch of cmd_process_input: the first row is blanked before the message is added. */
    method ChangeDirectory(d: Disc, args: Chars)
      requires Valid()
      modifies this, rows
      ensures Valid() && rows == old(rows)
      ensures path == if args == [] then old(path) else ChangeTo(d, old(path), args)
      ensures Contents() ==
        if args == [] then Newest(old(Contents()) + [Take(path, COLS)])
        else if ResolveTo(d, old(path), args).None? then Newest(old(Contents()) + [NOT_FOUND])
        else Newest((if old(count) == 0 then [] else [[]] + old(Contents())[1..]) + [CHANGED])
    {
      if args == [] {
        AppendLine(path);
      } else {
        var r := ResolveDirectory(d, path, args);
        if r.Some? {
          ResolvedInStep(d, path, args);
          path := r.value.path;
          BlankFirst();
          AppendLine(CHANGED);
        } else {
          AppendLine(NOT_FOUND);
        }
      }
    }
  }
}
