/**
 The pointer string_data_state returns without having set it. If it happens to be NULL the main
 loop stops there, short of the end of the file. Which files that can happen to is decided by
 their text alone.
 */
module RegStray {
  import opened Basics
  import opened WideText
  import opened StringEscape
  import opened HexCodec
  import opened Registry
  import opened RegImport
  import opened RegSafety
  import opened RegChunks

  // ----------------------------------------------------------------- in the machine

  /** The step returns the unset pointer, and it is NULL. */
  predicate StrayEnd(env: Env, p: Parser, pos: Text) {
    p.state == StringData && !Unescape(pos).restKnown && env.strayNull
  }

  /** The run ends that way. */
  predicate Strays(env: Env, p: Parser, pos: Text)
    decreases Units(p.lines), RestartRank(p.state), |p.lines|, StateRank(p.state)
  {
    StepLowers(env, p, pos);
    var (q, next) := Step(env, p, pos);
    StrayEnd(env, p, pos) || (next.Some? && Strays(env, q, next.value))
  }

  // -------------------------------------------------------------------- on the text

  /** What a line leads to: a string that fails before its rest is known, the exit of the program, or the next line. */
  datatype LineEnd = Fails | Exits | Goes(continues: bool, erange: bool)

  /** Comma-separated bytes; a backslash at the end continues them on the next line. */
  function ListEnd(t: Text, e: bool): LineEnd {
    if t == [] then Goes(false, e) else
    var csv := DecodeCsv(t);
    Goes(csv.ok && csv.backslash && EndsHere(SkipBlanks(csv.rest)), e || csv.overflow)
  }

  function TypedEnd(t: Text, e: bool): LineEnd {
    if [QUOTE] <= t then if Unescape(t[1..]).restKnown then Goes(false, e) else Fails
    else if HEX_TAG <= t then ListEnd(t[4..], e)
    else if DWORD_TAG <= t then Goes(false, e)
    else if HEX_TYPE_TAG <= t then
      var (r, e') := ParseHexType(t[4..], e);
      if r.None? then Goes(false, e') else ListEnd(r.value.1, e')
    else Goes(false, e)
  }

  /** Behind a value's name. */
  function DataEnd(t: Text, e: bool): LineEnd {
    var s := SkipBlanks(t);
    if s == [] || s[0] != EQUALS then Goes(false, e) else
    var d := TrimRight(SkipBlanks(s[1..]));
    if d != [] && d[0] == MINUS then Goes(false, e) else TypedEnd(d, e)
  }

  function NameEnd(t: Text, e: bool): LineEnd {
    var u := Unescape(t);
    if u.ok then DataEnd(u.rest, e) else Goes(false, e)
  }

  /** A key to delete that cannot be named makes the program exit. */
  function DeletionEnd(t: Text, e: bool): LineEnd {
    if t == [] || (t[0] != UPPER_H && t[0] != LOWER_H) then Goes(false, e) else
    var (hive, path) := ParseKeyName(t);
    if hive.None? || path.None? || path.value == [] then Exits else Goes(false, e)
  }

  /** Behind an opening bracket. */
  function KeyEnd(t: Text, e: bool): LineEnd {
    var end := LastBracket(t);
    if (t != [] && IsBlank(t[0])) || end == |t| then Goes(false, e)
    else if t[..end] != [] && t[0] == MINUS then DeletionEnd(t[..end][1..], e)
    else Goes(false, e)
  }

  function StartEnd(line: Text, e: bool): LineEnd {
    var s := SkipBlanks(line);
    if s == [] then Goes(false, e)
    else if s[0] == LBRACKET then KeyEnd(s[1..], e)
    else if s[0] == AT then DataEnd(s[1..], e)
    else if s[0] == QUOTE then NameEnd(s[1..], e)
    else Goes(false, e)
  }

  /** A line after a backslash. */
  function ContinuedEnd(line: Text, e: bool): LineEnd {
    var s := SkipBlanks(line);
    if EndsHere(s) then Goes(true, e) else if IsHex(s[0]) then ListEnd(s, e) else Goes(false, e)
  }

  function More(n: Option<nat>): Option<nat> {
    if n.None? then None else Some(n.value + 1)
  }

  /**
   How many of these lines there are up to one on which a string fails that way, the first of them
   continuing hex data or not; None when there is no such line.
   */
  function FailsAt(lines: seq<Text>, continues: bool, e: bool): Option<nat>
    decreases |lines|, 0
  {
    if lines == [] then None
    else More(LeadsTo(lines[1..], if continues then ContinuedEnd(lines[0], e) else StartEnd(lines[0], e)))
  }

  function LeadsTo(rest: seq<Text>, end: LineEnd): Option<nat>
    decreases |rest|, 1
  {
    match end
    case Fails => Some(0)
    case Exits => None
    case Goes(continues, e) => FailsAt(rest, continues, e)
  }

  /** The lines of a file up to the first string that fails at an escaped 0 or at a backslash that ends its line. */
  function FirstFailure(lines: seq<Text>, e: bool): Option<nat> {
    if lines == [] || (ParseFileHeader(lines[0]) != V40 && ParseFileHeader(lines[0]) != V50) then None
    else More(FailsAt(lines[1..], false, e))
  }

  predicate StringFails(lines: seq<Text>, e: bool) {
    FirstFailure(lines, e).Some?
  }

  // ------------------------------------------------------------------ both agree

  /** What the rest of a line leads to, by the state the importer is in. */
  function EndIn(state: State, t: Text, e: bool): LineEnd {
    match state
    case KeyName => KeyEnd(t, e)
    case DeleteKey => DeletionEnd(t, e)
    case DefaultValueName => DataEnd(if t == [] then [] else t[1..], e)
    case QuotedValueName => NameEnd(t, e)
    case DataStart => DataEnd(t, e)
    case DataType => TypedEnd(t, e)
    case StringData => if Unescape(t).restKnown then Goes(false, e) else Fails
    case HexData => ListEnd(t, e)
    case EolBackslash => Goes(EndsHere(SkipBlanks(t)), e)
    case _ => Goes(false, e)
  }

  /** One step within a line leads where the line led before, until the line is done. */
  ghost predicate Agrees(end: LineEnd, o: Outcome) {
    match o.1
    case None => end == Exits
    case Some(t) =>
      end == if o.0.state == LineStart || o.0.state == HexMultiline then Goes(o.0.state == HexMultiline, o.0.erange)
             else EndIn(o.0.state, t, o.0.erange)
  }

  lemma {:induction false} KeyAgrees(p: Parser, t: Text)
    requires p.state == KeyName || p.state == DeleteKey
    ensures p.state == KeyName ==> Agrees(KeyEnd(t, p.erange), KeyNameState(p, t))
    ensures p.state == DeleteKey ==> Agrees(DeletionEnd(t, p.erange), DeleteKeyState(p, t))
  {
    hide KeyNamed, ParseKeyName;
  }

  lemma {:induction false} NameAgrees(p: Parser, t: Text)
    ensures Agrees(EndIn(DefaultValueName, t, p.erange), DefaultValueNameState(p, t))
    ensures Agrees(EndIn(QuotedValueName, t, p.erange), QuotedValueNameState(p, t))
  {
    hide Unescape, DataEnd;
  }

  lemma {:induction false} StartAgrees(p: Parser, t: Text)
    ensures Agrees(EndIn(DataStart, t, p.erange), DataStartState(p, t))
    ensures Agrees(EndIn(DeletingValue, t, p.erange), DeleteValueState(p, t))
  {
    hide TypedEnd, SkipBlanks, TrimRight;
  }

  lemma {:induction false} TypeAgrees(p: Parser, t: Text)
    ensures Agrees(EndIn(DataType, t, p.erange), DataTypeState(p, t))
  {
    hide Unescape, ListEnd, ParseHexType;
  }

  lemma {:induction false} StringAgrees(env: Env, p: Parser, t: Text)
    requires p.state == StringData && env.strayNull && !StrayEnd(env, p, t)
    ensures Agrees(EndIn(StringData, t, p.erange), StringDataState(env, p, t))
  {
    hide Unescape, SkipBlanks;
  }

  lemma {:induction false} DwordAgrees(p: Parser, t: Text)
    ensures Agrees(EndIn(DwordData, t, p.erange), DwordDataState(p, t))
  {
    hide ConvertDword;
  }

  lemma {:induction false} AfterCsvAgrees(env: Env, q: Parser, csv: Csv, t: Text)
    ensures Agrees(Goes(csv.ok && csv.backslash && EndsHere(SkipBlanks(csv.rest)), q.erange), AfterCsv(env, q, csv, t))
  {
    hide SkipBlanks, Terminated;
  }

  lemma {:induction false} HexAgrees(env: Env, p: Parser, t: Text)
    ensures Agrees(EndIn(HexData, t, p.erange), HexDataState(env, p, t))
  {
    hide DecodeCsv, SkipBlanks, AfterCsv;
    if t != [] { AfterCsvAgrees(env, ConvertCsv(p, DecodeCsv(t)), DecodeCsv(t), t); }
  }

  lemma {:induction false} EolAgrees(p: Parser, t: Text)
    ensures Agrees(EndIn(EolBackslash, t, p.erange), EolBackslashState(p, t))
  {
    hide SkipBlanks;
  }

  lemma {:induction false} WriteAgrees(p: Parser, t: Text)
    requires p.version != Some(V31)
    ensures Agrees(EndIn(SettingValue, t, p.erange), SetValueState(p, t))
  {
  }

  /** A state that reads no line: the unset pointer, or agreement. */
  lemma {:induction false} ParsingAgrees(env: Env, p: Parser, t: Text)
    requires env.strayNull && Inv(p) && p.version != Some(V31) && !ReadsLine(p.state)
    ensures if StrayEnd(env, p, t) then EndIn(p.state, t, p.erange) == Fails
            else Agrees(EndIn(p.state, t, p.erange), Step(env, p, t))
  {
    hide Agrees, Unescape, KeyNameState, DeleteKeyState, DefaultValueNameState, QuotedValueNameState, DataStartState,
         DeleteValueState, DataTypeState, StringDataState, DwordDataState, HexDataState, EolBackslashState, SetValueState;
    match p.state
    case KeyName => KeyAgrees(p, t);
    case DeleteKey => KeyAgrees(p, t);
    case DefaultValueName => NameAgrees(p, t);
    case QuotedValueName => NameAgrees(p, t);
    case DataStart => StartAgrees(p, t);
    case DeletingValue => StartAgrees(p, t);
    case DataType => TypeAgrees(p, t);
    case StringData => if !StrayEnd(env, p, t) { StringAgrees(env, p, t); }
    case DwordData => DwordAgrees(p, t);
    case HexData => HexAgrees(env, p, t);
    case EolBackslash => EolAgrees(p, t);
    case SettingValue => WriteAgrees(p, t);
  }

  /** The lines up to the failure ahead of a parser, whatever state it is in. */
  function Ahead(p: Parser, t: Text): Option<nat> {
    if p.state == LineStart || p.state == HexMultiline then FailsAt(p.lines, p.state == HexMultiline, p.erange)
    else LeadsTo(p.lines, EndIn(p.state, t, p.erange))
  }

  /** After the end of the file the reader delivers one empty line. */
  lemma {:induction false} RestartFails(e: bool)
    ensures FailsAt([[]], false, e) == None
  {
    var restarted: seq<Text> := [[]];
    assert restarted[1..] == [] && StartEnd([], e) == Goes(false, e);
  }

  lemma {:induction false} NothingFails(e: bool)
    ensures FailsAt([], false, e) == None && FailsAt([], true, e) == None
  {
  }

  lemma {:induction false} FailStep(lines: seq<Text>, continues: bool, e: bool)
    requires lines != []
    ensures FailsAt(lines, continues, e) ==
      More(LeadsTo(lines[1..], if continues then ContinuedEnd(lines[0], e) else StartEnd(lines[0], e)))
  {
  }

  lemma {:induction false} GoesOn(rest: seq<Text>, continues: bool, e: bool)
    ensures LeadsTo(rest, Goes(continues, e)) == FailsAt(rest, continues, e)
  {
  }

  lemma {:induction false} ClassifyAgrees(q: Parser, line: Text)
    requires q.state == LineStart
    ensures var o := ClassifyLine(q, SkipBlanks(line));
      && o.1.Some? && o.0.lines == q.lines && o.0.erange == q.erange && o.0.state != HexMultiline
      && Agrees(StartEnd(line, q.erange), o)
  {
    hide KeyEnd, DataEnd, NameEnd, SkipBlanks;
  }

  lemma {:induction false} StartAhead(env: Env, p: Parser, t: Text)
    requires p.state == LineStart && p.lines != []
    ensures var (q, next) := Step(env, p, t); next.Some? && Ahead(p, t) == More(Ahead(q, next.value))
  {
    hide ClassifyLine, StartEnd, EndIn, SkipBlanks, FailsAt, LeadsTo;
    FailStep(p.lines, false, p.erange);
    GoesOn(p.lines[1..], false, p.erange);
    ClassifyAgrees(GetLine(p).0, p.lines[0]);
  }

  lemma {:induction false} ContinueAhead(env: Env, p: Parser, t: Text)
    requires p.state == HexMultiline && p.lines != []
    ensures var (q, next) := Step(env, p, t); next.Some? && Ahead(p, t) == More(Ahead(q, next.value))
  {
    hide ListEnd, SkipBlanks, FailsAt, LeadsTo;
    FailStep(p.lines, true, p.erange);
    GoesOn(p.lines[1..], true, p.erange);
    GoesOn(p.lines[1..], false, p.erange);
  }

  lemma {:induction false} EndAhead(env: Env, p: Parser, t: Text)
    requires (p.state == LineStart || p.state == HexMultiline) && p.lines == []
    ensures var (q, next) := Step(env, p, t); Ahead(p, t) == None && (next.Some? ==> Ahead(q, next.value) == None)
  {
    hide FailsAt;
    NothingFails(p.erange);
    RestartFails(p.erange);
  }

  /** A state that reads a line takes one line off the count. */
  lemma {:induction false} ReadingAhead(env: Env, p: Parser, t: Text)
    requires p.state == LineStart || p.state == HexMultiline
    ensures var (q, next) := Step(env, p, t); Ahead(p, t) == if next.Some? then More(Ahead(q, next.value)) else None
    ensures Ahead(p, t).Some? ==> p.lines != []
  {
    hide Step, Ahead;
    if p.lines == [] { EndAhead(env, p, t); }
    else if p.state == LineStart { StartAhead(env, p, t); }
    else { ContinueAhead(env, p, t); }
  }

  /** Any other state keeps it, up to the failure. */
  lemma {:induction false} ParsingAhead(env: Env, p: Parser, t: Text)
    requires env.strayNull && Inv(p) && p.version != Some(V31) && !ReadsLine(p.state)
    ensures var (q, next) := Step(env, p, t);
      Ahead(p, t) == if StrayEnd(env, p, t) then Some(0) else if next.Some? then Ahead(q, next.value) else None
  {
    hide Step, EndIn, StrayEnd, FailsAt;
    ParsingAgrees(env, p, t);
    ParsingDescends(env, p, t);
  }

  lemma {:induction false} VersionOpened(p: Parser, path: Text)
    ensures OpenNamed(p, path).version == p.version && CloseCurrent(p).version == p.version
  {
    hide KeyNamed;
  }

  lemma {:induction false} VersionInKeys(p: Parser, t: Text)
    ensures KeyNameState(p, t).0.version == p.version && DeleteKeyState(p, t).0.version == p.version
  {
    hide OpenNamed, CloseCurrent, KeyNamed, ParseKeyName;
    VersionOpened(p, t[..LastBracket(t)]);
  }

  lemma {:induction false} VersionInLines(p: Parser, t: Text)
    ensures Win31LineState(p, t).0.version == p.version && LineStartState(p, t).0.version == p.version
  {
    hide OpenNamed, SkipBlanks, Win31Value;
    var (q, line) := GetLine(p);
    if line.Some? { VersionOpened(q, line.value[..WordRun(line.value)]); }
  }

  lemma {:induction false} VersionInNames(p: Parser, t: Text)
    ensures DefaultValueNameState(p, t).0.version == p.version && QuotedValueNameState(p, t).0.version == p.version
    ensures DataStartState(p, t).0.version == p.version && DeleteValueState(p, t).0.version == p.version
  {
    hide Unescape, SkipBlanks, TrimRight;
  }

  lemma {:induction false} VersionInData(env: Env, p: Parser, t: Text)
    ensures DataTypeState(p, t).0.version == p.version && StringDataState(env, p, t).0.version == p.version
    ensures DwordDataState(p, t).0.version == p.version && SetValueState(p, t).0.version == p.version
  {
    hide Unescape, SkipBlanks, ParseHexType, ConvertDword, FirstBytes;
  }

  lemma {:induction false} VersionInHex(env: Env, p: Parser, t: Text)
    ensures HexDataState(env, p, t).0.version == p.version && EolBackslashState(p, t).0.version == p.version
  {
    hide DecodeCsv, SkipBlanks, Terminated;
  }

  lemma {:induction false} VersionInMultiline(env: Env, p: Parser, t: Text)
    ensures HexMultilineState(env, p, t).0.version == p.version
  {
    hide SkipBlanks, Terminated;
  }

  /** Only the header decides the version. */
  lemma {:induction false} VersionStays(env: Env, p: Parser, t: Text)
    requires p.state != Header
    ensures Step(env, p, t).0.version == p.version
  {
    hide KeyNameState, DeleteKeyState, DefaultValueNameState, QuotedValueNameState, DataStartState, DeleteValueState,
         DataTypeState, StringDataState, DwordDataState, HexDataState, EolBackslashState, SetValueState, Win31LineState,
         LineStartState, HexMultilineState;
    VersionInKeys(p, t);
    VersionInLines(p, t);
    VersionInNames(p, t);
    VersionInData(env, p, t);
    VersionInHex(env, p, t);
    VersionInMultiline(env, p, t);
  }

  /** From any state after the header, the run ends at an unset pointer exactly when the text ahead says so. */
  lemma {:induction false} StraysAhead(env: Env, p: Parser, t: Text)
    requires env.strayNull && Inv(p) && p.version.Some? && p.version != Some(V31)
    ensures Strays(env, p, t) <==> Ahead(p, t).Some?
    decreases Units(p.lines), RestartRank(p.state), |p.lines|, StateRank(p.state)
  {
    hide Step, Inv, Ahead, StrayEnd, Units, RestartRank, StateRank;
    Settled(p);
    StepLowers(env, p, t);
    StepKeeps(env, p, t);
    VersionStays(env, p, t);
    var (q, next) := Step(env, p, t);
    if ReadsLine(p.state) {
      ReadingAhead(env, p, t);
      NotStray(env, p, t);
    } else {
      ParsingAhead(env, p, t);
    }
    if next.Some? { StraysAhead(env, q, next.value); }
  }

  lemma {:induction false} Settled(p: Parser)
    requires Inv(p) && p.version.Some? && p.version != Some(V31)
    ensures p.state != Header && p.state != Win31Line
  {
  }

  lemma {:induction false} NotStray(env: Env, p: Parser, t: Text)
    requires ReadsLine(p.state)
    ensures !StrayEnd(env, p, t)
  {
  }

  /** A Windows 3.1 file has no quoted strings. */
  lemma {:induction false} Win31Stays(env: Env, p: Parser, t: Text)
    requires Inv(p) && p.version == Some(V31)
    ensures !Strays(env, p, t)
    decreases Units(p.lines), RestartRank(p.state), |p.lines|, StateRank(p.state)
  {
    hide Step;
    StepLowers(env, p, t);
    StepKeeps(env, p, t);
    VersionStays(env, p, t);
    var (q, next) := Step(env, p, t);
    if next.Some? { Win31Stays(env, q, next.value); }
  }

  lemma {:induction false} NeverNull(env: Env, p: Parser, t: Text)
    requires !env.strayNull
    ensures !Strays(env, p, t)
    decreases Units(p.lines), RestartRank(p.state), |p.lines|, StateRank(p.state)
  {
    hide Step;
    StepLowers(env, p, t);
    var (q, next) := Step(env, p, t);
    if next.Some? { NeverNull(env, q, next.value); }
  }

  /** An import run ends at the unset pointer exactly when that is NULL and the text of the file has such a string. */
  lemma {:induction false} StraysExactly(env: Env, lines: seq<Text>, e: bool)
    ensures Strays(env, Initial(lines, e), []) <==> env.strayNull && StringFails(lines, e)
  {
    hide FailsAt;
    var p := Initial(lines, e);
    InitialInv(lines, e);
    if !env.strayNull {
      NeverNull(env, p, []);
    } else {
      StepKeeps(env, p, []);
      var (q, next) := Step(env, p, []);
      if next.Some? {
        if q.version == Some(V31) { Win31Stays(env, q, next.value); } else { StraysAhead(env, q, next.value); }
      }
    }
  }

  /** Whatever the pointer happens to be, the run goes on to the end of the file exactly when no string of it fails so. */
  lemma {:induction false} NeverStrays(lines: seq<Text>, e: bool)
    ensures (forall env :: !Strays(env, Initial(lines, e), [])) <==> !StringFails(lines, e)
  {
    hide Strays, StringFails;
    forall env ensures Strays(env, Initial(lines, e), []) <==> env.strayNull && StringFails(lines, e) {
      StraysExactly(env, lines, e);
    }
    var stray := Env(0, 0, true);
    assert Strays(stray, Initial(lines, e), []) <==> StringFails(lines, e);
  }

  // --------------------------------------------------------- what is imported then

  function Calm(env: Env): Env {
    env.(strayNull := false)
  }

  lemma {:induction false} CalmPrepares(env: Env, p: Parser)
    ensures PrepareHexString(Calm(env), p) == PrepareHexString(env, p)
  {
  }

  /** Elsewhere a step does not depend on the unset pointer. */
  lemma {:induction false} CalmStep(env: Env, p: Parser, t: Text)
    requires !StrayEnd(env, p, t)
    ensures Step(Calm(env), p, t) == Step(env, p, t)
  {
    hide Unescape, DecodeCsv, SkipBlanks, PrepareHexString, KeyNameState, DeleteKeyState, DefaultValueNameState,
         QuotedValueNameState, DataStartState, DeleteValueState, DataTypeState, DwordDataState, EolBackslashState,
         SetValueState, HeaderState, Win31LineState, LineStartState, ContinueLine;
    CalmPrepares(env, ConvertCsv(p, DecodeCsv(t)));
    CalmPrepares(env, GetLine(p).0);
  }

  /** The lines behind the failure make no difference. */
  ghost predicate CutHere(env: Env, p: Parser, t: Text, n: nat) {
    n <= |p.lines| && SameParser(Run(env, p, t), Run(Calm(env), p.(lines := p.lines[..n]), t))
  }

  /** At the failure the calm importer goes on, and finds the end of its file. */
  lemma {:induction false} CutAtFailure(env: Env, p: Parser, t: Text)
    requires StrayEnd(env, p, t)
    ensures CutHere(env, p, t, 0)
  {
    hide Unescape, SkipBlanks;
    var short := p.(lines := []);
    assert p.lines[..0] == [];
    var (q, next) := Step(Calm(env), short, t);
    RunStep(env, p, t);
    RunStep(Calm(env), short, t);
    RunStep(Calm(env), q, next.value);
  }

  lemma {:induction false} CutReading(env: Env, p: Parser, t: Text, n: nat)
    requires ReadsLine(p.state) && 0 < n <= |p.lines| && Step(env, p, t).1.Some?
    requires var (q, next) := Step(env, p, t); CutHere(env, q, next.value, n - 1)
    ensures CutHere(env, p, t, n)
  {
    hide Step;
    var kept := p.lines[..n];
    var (q, next) := Step(env, p, t);
    NotStray(env, p, t);
    NotStray(env, p.(lines := kept), t);
    CalmStep(env, p.(lines := kept), t);
    ReadingFrame(env, p, t, kept);
    StepReadingLines(env, p, t);
    assert kept[1..] == q.lines[..n - 1];
    RunStep(env, p, t);
    RunStep(Calm(env), p.(lines := kept), t);
  }

  lemma {:induction false} CutParsing(env: Env, p: Parser, t: Text, n: nat)
    requires !ReadsLine(p.state) && !StrayEnd(env, p, t) && Step(env, p, t).1.Some?
    requires var (q, next) := Step(env, p, t); CutHere(env, q, next.value, n)
    ensures CutHere(env, p, t, n)
  {
    hide Step;
    ParsingDescends(env, p, t);
    var kept := p.lines[..n];
    CalmStep(env, p.(lines := kept), t);
    ParsingFrame(env, p, t, kept);
    RunStep(env, p, t);
    RunStep(Calm(env), p.(lines := kept), t);
  }

  lemma {:induction false} CutRun(env: Env, p: Parser, t: Text)
    requires env.strayNull && Inv(p) && p.version.Some? && p.version != Some(V31) && Ahead(p, t).Some?
    ensures CutHere(env, p, t, Ahead(p, t).value)
    decreases Units(p.lines), RestartRank(p.state), |p.lines|, StateRank(p.state)
  {
    hide Step, Inv, Ahead, StrayEnd, Units, RestartRank, StateRank, CutHere;
    Settled(p);
    StepLowers(env, p, t);
    StepKeeps(env, p, t);
    VersionStays(env, p, t);
    if ReadsLine(p.state) { ReadingAhead(env, p, t); } else { ParsingAhead(env, p, t); }
    if !ReadsLine(p.state) && StrayEnd(env, p, t) {
      CutAtFailure(env, p, t);
    } else {
      var (q, next) := Step(env, p, t);
      CutRun(env, q, next.value);
      CutBound(env, q, next.value, Ahead(q, next.value).value);
      if ReadsLine(p.state) {
        StepReadingLines(env, p, t);
        CutReading(env, p, t, Ahead(p, t).value);
      } else {
        CutParsing(env, p, t, Ahead(p, t).value);
      }
    }
  }

  lemma {:induction false} CutBound(env: Env, p: Parser, t: Text, n: nat)
    requires CutHere(env, p, t, n)
    ensures n <= |p.lines|
  {
  }

  /**
   When the unset pointer is NULL, the import of a file with such a string does exactly what the import
   of its lines up to that one does: the lines behind it are lost.
   */
  lemma {:induction false} StrayStops(env: Env, lines: seq<Text>, e: bool)
    requires env.strayNull && StringFails(lines, e)
    ensures var n := FirstFailure(lines, e).value;
      n <= |lines| && Import(env, lines, e) == Import(Calm(env), lines[..n], e)
  {
    hide FailsAt, Step, CutHere, FirstFailure, Import, Ahead, Inv, Run, LeadsTo, EndIn;
    var p, n := Initial(lines, e), FirstFailure(lines, e).value;
    HeaderKnown(env, lines, e);
    var (q, next) := Step(env, p, []);
    CutRun(env, q, next.value);
    CutBound(env, q, next.value, n - 1);
    CutReading(env, p, [], n);
    SameImport(env, lines, e, n);
  }

  lemma {:induction false} HeaderKnown(env: Env, lines: seq<Text>, e: bool)
    requires StringFails(lines, e)
    ensures var (q, next) := Step(env, Initial(lines, e), []);
      && next.Some? && Inv(q) && q.version.Some? && q.version != Some(V31) && q.lines == lines[1..]
      && lines != [] && FirstFailure(lines, e) == More(Ahead(q, next.value))
  {
    hide FailsAt, ParseFileHeader, Inv;
    InitialInv(lines, e);
    StepKeeps(env, Initial(lines, e), []);
  }

  lemma {:induction false} SameImport(env: Env, lines: seq<Text>, e: bool, n: nat)
    requires CutHere(env, Initial(lines, e), [], n)
    ensures n <= |lines| && Import(env, lines, e) == Import(Calm(env), lines[..n], e)
  {
    hide Run;
    var a, b := Run(env, Initial(lines, e), []), Run(Calm(env), Initial(lines[..n], e), []);
    assert CloseCurrent(a).calls == CloseCurrent(b).calls;
  }

  /** The line "a"="x\0", whatever follows it. */
  lemma {:induction false} StrayExample(more: seq<Text>, e: bool)
    ensures var line := [QUOTE, 97, QUOTE, EQUALS, QUOTE, 120, BACKSLASH, DIGIT_0, QUOTE];
      FirstFailure([HEADER_50, line] + more, e) == Some(2)
  {
    var line := [QUOTE, 97, QUOTE, EQUALS, QUOTE, 120, BACKSLASH, DIGIT_0, QUOTE];
    var lines := [HEADER_50, line] + more;
    hide ParseFileHeader, StartEnd, FailsAt, HEADER_50;
    StrayLine(line, e);
    HeaderIs50();
    assert lines[1..] == [line] + more && lines[1..][0] == line;
    FailStep(lines[1..], false, e);
  }

  lemma {:induction false} HeaderIs50()
    ensures ParseFileHeader(HEADER_50) == V50
  {
    assert HEADER_50[0] == 87;
  }

  lemma {:induction false} StrayLine(line: Text, e: bool)
    requires line == [QUOTE, 97, QUOTE, EQUALS, QUOTE, 120, BACKSLASH, DIGIT_0, QUOTE]
    ensures StartEnd(line, e) == Fails
  {
    hide Unescape, KeyEnd, ListEnd, ParseHexType, TypedEnd;
    var data: Text := [QUOTE, 120, BACKSLASH, DIGIT_0, QUOTE];
    var rest := [EQUALS] + data;
    NameRead(line[1..], rest);
    DataFails(data, e);
    assert rest[1..] == data && rest[0] == EQUALS;
    assert SkipBlanks(line) == line && SkipBlanks(rest) == rest && SkipBlanks(data) == data && TrimRight(data) == data;
  }

  lemma {:induction false} NameRead(t: Text, rest: Text)
    requires t == [97, QUOTE] + rest
    ensures Unescape(t) == Unescaped(true, [97], rest, true)
  {
    var name: Text := [97];
    UnescapeEscape(name, rest);
    hide Unescape;
    assert name[1..] == [] && Escape(name) == [97] && t == Escape(name) + [QUOTE] + rest;
  }

  lemma {:induction false} DataFails(data: Text, e: bool)
    requires data == [QUOTE, 120, BACKSLASH, DIGIT_0, QUOTE]
    ensures TypedEnd(data, e) == Fails
  {
    ZeroUnknown(data[1..]);
  }

  lemma {:induction false} ZeroUnknown(t: Text)
    requires t == [120, BACKSLASH, DIGIT_0, QUOTE]
    ensures !Unescape(t).restKnown
  {
    assert t[1..] == [BACKSLASH, DIGIT_0, QUOTE];
  }
}
