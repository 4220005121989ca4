/**
 The importer does not depend on how the file was read: empty lines are skipped in
 every state that reads one, so chunk independence of the line reader carries over
 to the whole import.
 */
module RegChunks {
  import opened Basics
  import opened WideText
  import opened StringEscape
  import opened HexCodec
  import opened Registry
  import opened RegImport
  import opened RegSafety
  import opened LineReader

  ghost predicate SameBut(a: Outcome, b: Outcome, lines: seq<Text>) {
    a == (b.0.(lines := lines), b.1)
  }

  lemma {:induction false} CloseFrame(p: Parser, lines: seq<Text>)
    ensures CloseCurrent(p.(lines := lines)) == CloseCurrent(p).(lines := lines)
  {
  }

  lemma {:induction false} OpenFrame(p: Parser, path: Text, lines: seq<Text>)
    ensures OpenNamed(p.(lines := lines), path) == OpenNamed(p, path).(lines := lines)
  {
    hide KeyNamed, CloseCurrent;
    CloseFrame(p, lines);
  }

  lemma {:induction false} KeyFrame(p: Parser, pos: Text, lines: seq<Text>)
    ensures SameBut(KeyNameState(p.(lines := lines), pos), KeyNameState(p, pos), lines)
  {
    OpenFrame(p, pos[..LastBracket(pos)], lines);
  }

  lemma {:induction false} DeleteNamedFrame(p: Parser, pos: Text, lines: seq<Text>)
    ensures SameBut(DeleteNamed(p.(lines := lines), pos), DeleteNamed(p, pos), lines)
  {
  }

  lemma {:induction false} DeleteKeyFrame(p: Parser, pos: Text, lines: seq<Text>)
    ensures SameBut(DeleteKeyState(p.(lines := lines), pos), DeleteKeyState(p, pos), lines)
  {
    CloseFrame(p, lines);
    DeleteNamedFrame(CloseCurrent(p), pos, lines);
  }

  lemma {:induction false} NameFrame(p: Parser, pos: Text, lines: seq<Text>)
    ensures SameBut(DefaultValueNameState(p.(lines := lines), pos), DefaultValueNameState(p, pos), lines)
    ensures SameBut(QuotedValueNameState(p.(lines := lines), pos), QuotedValueNameState(p, pos), lines)
    ensures SameBut(DataStartState(p.(lines := lines), pos), DataStartState(p, pos), lines)
    ensures SameBut(DeleteValueState(p.(lines := lines), pos), DeleteValueState(p, pos), lines)
  {
    hide Unescape, SkipBlanks, TrimRight;
  }

  lemma {:induction false} TypeFrame(p: Parser, pos: Text, lines: seq<Text>)
    ensures SameBut(DataTypeState(p.(lines := lines), pos), DataTypeState(p, pos), lines)
  {
  }

  lemma {:induction false} StringFrame(env: Env, p: Parser, pos: Text, lines: seq<Text>)
    ensures SameBut(StringDataState(env, p.(lines := lines), pos), StringDataState(env, p, pos), lines)
    ensures SameBut(DwordDataState(p.(lines := lines), pos), DwordDataState(p, pos), lines)
  {
    hide Unescape, SkipBlanks, ConvertDword;
  }

  lemma {:induction false} DataFrame(p: Parser, pos: Text, lines: seq<Text>)
    ensures SameBut(EolBackslashState(p.(lines := lines), pos), EolBackslashState(p, pos), lines)
    ensures SameBut(UnknownDataState(p.(lines := lines), pos), UnknownDataState(p, pos), lines)
    ensures SameBut(SetValueState(p.(lines := lines), pos), SetValueState(p, pos), lines)
  {
  }

  lemma {:induction false} HexFrame(env: Env, p: Parser, pos: Text, lines: seq<Text>)
    ensures SameBut(HexDataState(env, p.(lines := lines), pos), HexDataState(env, p, pos), lines)
  {
    var csv := DecodeCsv(pos);
    assert ConvertCsv(p.(lines := lines), csv) == ConvertCsv(p, csv).(lines := lines);
  }

  /** A state that reads no line does not look at the lines to come. */
  lemma {:induction false} ParsingFrame(env: Env, p: Parser, pos: Text, lines: seq<Text>)
    requires !ReadsLine(p.state)
    ensures SameBut(Step(env, p.(lines := lines), pos), Step(env, p, pos), lines)
  {
    hide SameBut, KeyNameState, DeleteKeyState, DefaultValueNameState, QuotedValueNameState, DataStartState, DeleteValueState,
         DataTypeState, StringDataState, DwordDataState, HexDataState, EolBackslashState, UnknownDataState, SetValueState;
    match p.state
    case KeyName => KeyFrame(p, pos, lines);
    case DeleteKey => DeleteKeyFrame(p, pos, lines);
    case DefaultValueName => NameFrame(p, pos, lines);
    case QuotedValueName => NameFrame(p, pos, lines);
    case DataStart => NameFrame(p, pos, lines);
    case DeletingValue => NameFrame(p, pos, lines);
    case DataType => TypeFrame(p, pos, lines);
    case HexData => HexFrame(env, p, pos, lines);
    case StringData => StringFrame(env, p, pos, lines);
    case DwordData => StringFrame(env, p, pos, lines);
    case _ => DataFrame(p, pos, lines);
  }

  lemma {:induction false} GetLineFrame(p: Parser, lines: seq<Text>)
    requires p.lines != [] && lines != [] && lines[0] == p.lines[0]
    ensures SameBut(GetLine(p.(lines := lines)), GetLine(p), lines[1..])
  {
  }

  lemma {:induction false} LineStartFrame(p: Parser, pos: Text, lines: seq<Text>)
    requires p.lines != [] && lines != [] && lines[0] == p.lines[0]
    ensures SameBut(LineStartState(p.(lines := lines), pos), LineStartState(p, pos), lines[1..])
  {
    GetLineFrame(p, lines);
  }

  lemma {:induction false} HeaderFrame(p: Parser, pos: Text, lines: seq<Text>)
    requires p.lines != [] && lines != [] && lines[0] == p.lines[0]
    ensures SameBut(HeaderState(p.(lines := lines), pos), HeaderState(p, pos), lines[1..])
  {
    GetLineFrame(p, lines);
  }

  lemma {:induction false} Win31Frame(p: Parser, pos: Text, lines: seq<Text>)
    requires p.lines != [] && lines != [] && lines[0] == p.lines[0]
    ensures SameBut(Win31LineState(p.(lines := lines), pos), Win31LineState(p, pos), lines[1..])
  {
    GetLineFrame(p, lines);
    OpenFrame(GetLine(p).0, p.lines[0][..WordRun(p.lines[0])], lines[1..]);
  }

  lemma {:induction false} MultilineFrame(env: Env, p: Parser, pos: Text, lines: seq<Text>)
    requires p.lines != [] && lines != [] && lines[0] == p.lines[0]
    ensures SameBut(HexMultilineState(env, p.(lines := lines), pos), HexMultilineState(env, p, pos), lines[1..])
  {
    GetLineFrame(p, lines);
  }

  /** A state that reads a line looks at no further line. */
  lemma {:induction false} ReadingFrame(env: Env, p: Parser, pos: Text, lines: seq<Text>)
    requires ReadsLine(p.state) && p.lines != [] && lines != [] && lines[0] == p.lines[0]
    ensures SameBut(Step(env, p.(lines := lines), pos), Step(env, p, pos), lines[1..])
  {
    match p.state
    case Header => HeaderFrame(p, pos, lines);
    case Win31Line => Win31Frame(p, pos, lines);
    case LineStart => LineStartFrame(p, pos, lines);
    case HexMultiline => MultilineFrame(env, p, pos, lines);
  }

  lemma {:induction false} StepReadingLines(env: Env, p: Parser, pos: Text)
    requires ReadsLine(p.state) && p.lines != []
    ensures Step(env, p, pos).0.lines == p.lines[1..]
  {
    ReadingFrame(env, p, pos, p.lines);
  }

  /** An empty line is read over. */
  lemma {:induction false} SkipEmptyLine(env: Env, p: Parser, pos: Text)
    requires Inv(p) && ReadsLine(p.state) && p.state != Header && p.lines != [] && p.lines[0] == []
    ensures Run(env, p, pos) == Run(env, p.(lines := p.lines[1..]), pos)
  {
    var q := p.(lines := p.lines[1..]);
    assert CLASSES_ROOT != [];
    assert Step(env, p, pos) == (q, Some([]));
    assert Step(env, q, []) == Step(env, q, pos);
  }

  /** The same parser, whatever lines are left. */
  ghost predicate SameParser(a: Parser, b: Parser) {
    a == b.(lines := a.lines)
  }

  lemma {:induction false} RunStep(env: Env, p: Parser, pos: Text)
    ensures var (q, next) := Step(env, p, pos);
      Run(env, p, pos) == if next.None? then q else Run(env, q, next.value)
  {
  }

  /** One step with all the lines against the same step with the empty ones dropped. */
  lemma {:induction false} StepNonEmpty(env: Env, p: Parser, pos: Text)
    requires ReadsLine(p.state) ==> p.lines != [] && p.lines[0] != []
    ensures SameBut(Step(env, p.(lines := NonEmpty(p.lines)), pos), Step(env, p, pos), NonEmpty(Step(env, p, pos).0.lines))
  {
    if ReadsLine(p.state) {
      var kept := NonEmpty(p.lines);
      assert kept == [p.lines[0]] + NonEmpty(p.lines[1..]);
      ReadingFrame(env, p, pos, kept);
      StepReadingLines(env, p, pos);
      assert kept[1..] == NonEmpty(p.lines[1..]);
    } else {
      ParsingFrame(env, p, pos, NonEmpty(p.lines));
      ParsingDescends(env, p, pos);
    }
  }

  lemma {:induction false} ReadingLeavesHeader(env: Env, p: Parser, pos: Text)
    requires ReadsLine(p.state) && p.state != Header
    ensures Step(env, p, pos).0.state != Header
  {
    hide ParseFileHeader, SkipBlanks, Win31Value, KeyNamed;
    if p.state == LineStart { LineStartMoves(p, pos); }
    else if p.state == HexMultiline { HexMultilineCases(env, p, pos); }
  }

  lemma {:induction false} InvLines(p: Parser, lines: seq<Text>)
    requires Inv(p)
    ensures Inv(p.(lines := lines))
  {
  }

  /** After the header, a run only depends on the non-empty lines. */
  lemma {:induction false} RunNonEmpty(env: Env, p: Parser, pos: Text)
    requires Inv(p) && p.state != Header
    ensures SameParser(Run(env, p, pos), Run(env, p.(lines := NonEmpty(p.lines)), pos))
    decreases Units(p.lines), RestartRank(p.state), |p.lines|, StateRank(p.state)
  {
    if ReadsLine(p.state) && p.lines == [] {
    } else if ReadsLine(p.state) && p.lines[0] == [] {
      SkipEmptyLine(env, p, pos);
      var rest := p.(lines := p.lines[1..]);
      InvLines(p, p.lines[1..]);
      RunNonEmpty(env, rest, pos);
      assert rest.(lines := NonEmpty(rest.lines)) == p.(lines := NonEmpty(p.lines));
    } else {
      RunNonEmptyStep(env, p, pos);
    }
  }

  lemma {:induction false} RunNonEmptyStep(env: Env, p: Parser, pos: Text)
    requires Inv(p) && p.state != Header
    requires ReadsLine(p.state) ==> p.lines != [] && p.lines[0] != []
    ensures SameParser(Run(env, p, pos), Run(env, p.(lines := NonEmpty(p.lines)), pos))
    decreases Units(p.lines), RestartRank(p.state), |p.lines|, StateRank(p.state), 0
  {
    var (q, next) := Step(env, p, pos);
    StepNonEmpty(env, p, pos);
    RunStep(env, p, pos);
    RunStep(env, p.(lines := NonEmpty(p.lines)), pos);
    if next.Some? {
      StepLowers(env, p, pos);
      StepKeeps(env, p, pos);
      if ReadsLine(p.state) { ReadingLeavesHeader(env, p, pos); } else { ParsingDescends(env, p, pos); }
      RunNonEmpty(env, q, next.value);
    }
  }

  lemma {:induction false} NonEmptyAfterFirst(a: seq<Text>, b: seq<Text>)
    requires a != [] && b != [] && a[0] == b[0] && NonEmpty(a) == NonEmpty(b)
    ensures NonEmpty(a[1..]) == NonEmpty(b[1..])
  {
    if a[0] != [] {
      assert NonEmpty(a)[1..] == NonEmpty(a[1..]);
      assert NonEmpty(b)[1..] == NonEmpty(b[1..]);
    }
  }

  lemma {:induction false} RunAlike(env: Env, q: Parser, pos: Text, lines: seq<Text>)
    requires Inv(q) && q.state != Header && NonEmpty(q.lines) == NonEmpty(lines)
    ensures SameParser(Run(env, q, pos), Run(env, q.(lines := lines), pos))
  {
    InvLines(q, lines);
    RunNonEmpty(env, q, pos);
    RunNonEmpty(env, q.(lines := lines), pos);
  }

  lemma {:induction false} HeaderLeaves(p: Parser, pos: Text)
    requires p.state == Header && HeaderState(p, pos).1.Some?
    ensures HeaderState(p, pos).0.state != Header
  {
  }

  /** From the header on, two files with the same first line and the same non-empty lines run alike. */
  lemma {:induction false} RunFilesAlike(env: Env, p: Parser, lines: seq<Text>)
    requires Inv(p) && p.state == Header && p.lines != [] && lines != [] && p.lines[0] == lines[0]
    requires NonEmpty(p.lines) == NonEmpty(lines)
    ensures SameParser(Run(env, p, []), Run(env, p.(lines := lines), []))
  {
    var (q, next) := HeaderState(p, []);
    HeaderFrame(p, [], lines);
    StepReadingLines(env, p, []);
    NonEmptyAfterFirst(p.lines, lines);
    RunStep(env, p, []);
    RunStep(env, p.(lines := lines), []);
    if next.Some? {
      HeaderKeeps(p, []);
      HeaderLeaves(p, []);
      RunAlike(env, q, next.value, lines[1..]);
    }
  }

  lemma {:induction false} ResultAlike(env: Env, a: seq<Text>, b: seq<Text>, erange: bool)
    requires SameParser(Run(env, Initial(a, erange), []), Run(env, Initial(b, erange), []))
    ensures Import(env, a, erange) == Import(env, b, erange)
  {
  }

  /** Two files with the same first line and the same non-empty lines import alike. */
  lemma {:induction false} ImportNonEmpty(env: Env, a: seq<Text>, b: seq<Text>, erange: bool)
    requires a != [] && b != [] && a[0] == b[0] && NonEmpty(a) == NonEmpty(b)
    ensures Import(env, a, erange) == Import(env, b, erange)
  {
    InitialInv(a, erange);
    RunFilesAlike(env, Initial(a, erange), b);
    assert Initial(b, erange) == Initial(a, erange).(lines := b);
    ResultAlike(env, a, b, erange);
  }

  /**
   However the reads of a NUL-free file are cut, and however long its lines are, the
   import does what it does on the pieces of the whole text.
   */
  lemma {:induction false} ImportChunkIndependent(env: Env, chunks: seq<Text>, erange: bool)
    requires ValidChunks(chunks) && NulFreeChunks(chunks)
    ensures Import(env, Lines(Reader(0, None, chunks)), erange) == Import(env, SplitLines(Concat(chunks)), erange)
  {
    ChunkIndependence(chunks);
    ImportNonEmpty(env, Lines(Reader(0, None, chunks)), SplitLines(Concat(chunks)), erange);
  }
}
