# Verified models of the discouNT desktop applications

This project models the parts of the discouNT applications that carry state machines,
codecs and protocols, and proves what they promise over all inputs, runs and reachable
states. `dafny verify dfyconfig.toml` checks everything. `Basics` holds what several components
share.

| component | files | source |
|---|---|---|
| Registry file importer and exporter | `WideText` `LineReader` `StringEscape` `HexCodec` `Registry` `RegImport` `RegSafety` `RegChunks` `RegStray` `RegExport` `RegRoundTrip` `HexLists` `RegEdits` `RegDeletes` `RegOldFiles` `LineText` `RegParser` `RegWriter` | `apps/regedit/regproc.c` |
| Registry "find next" | `RegFind` `RegFindOrder` | `apps/regedit/find.c` |
| Registry hex control | `HexEdit` `HexKeys` | `apps/regedit/hexedit.c` |
| Command prompt paths | `IsoDirectory` `CmdPath` `CmdLaws` `CmdConsole` | `apps/cmd/cmd.c` |
| Notification area | `TrayModel` `TrayLaws` `TrayQuiet` `TrayLayout` `TrayWindow` | `apps/explorer/systray.c` |
| Application bars | `AppBars` | `apps/explorer/appbar.c` |
| Desktop launchers | `DesktopGrid` | `apps/explorer/desktop.c` |
| WAV player and wave output | `WavCodec` `WaveOut` `WavPlay` `WavIma` `WavFile` `WavPlans` | `apps/wavplay.c`, `apps/audio/sound.c` |
| Program Manager | `ProgmanLists` `ProgmanOps` `ProgramManager` `ProgmanLaws` `GroupFile` `GroupLayout` `GroupExtension` `GroupReader` | `apps/progman/group.c`, `program.c`, `grpfile.c` |

## How the models are built

State the source changes in place is a class with the source's fields (`LineBuffer`,
`ImportParser`, `ExportFileWriter`, `TrayState`, `AppBarList`, `Control`, `Console`,
`Device`, `Memory`, `GroupWriter`), and the loops of the source are loops with
invariants. Each such method is proved equal to a function on values, and the theorems
about whole runs are proved about those functions. What one message, line or key does is
then said of the state before and after, without those functions: by text and store for
registry files (`RegEdits`, `RegDeletes`, `RegOldFiles`), by icons and slots (`TrayLaws`), by
points of a rectangle (`AppBars`), by bytes and caret (`HexKeys`), by directories (`CmdLaws`). What lies outside the program is a
parameter: the registry is a trace of calls applied to a store, the disc a map from
sector numbers to sectors, timers a set, the audio service an arbitrary predicate that
says which writes it accepts, the clipboard an optional byte string.

The importer works on its line where it lies: `RegParser` holds indices into the static
buffer of the line reader, cuts keys, trailing blanks and digits off with a NUL and
unescapes strings in place. Its `Valid` ties the buffer to the lines still to be read, so
each of its methods also proves that no such write leaves the current line.

Six places where the model follows the code and not what is said about it:

- The comment on the group-file checksum (`apps/progman/grpfile.c:462-477`) describes
  minus the sum of all complete words. The bytes are read through a signed `char`, so
  every byte of 0x80 or above at an even position adds 256 (`GroupFile.ChecksumIs`);
  `GroupFile.ChecksumPlain` says exactly when the comment is right.
- Loading a buffer into the hex control resets the caret but not the selection or the
  half-typed byte, and cuts the bytes at the size the last edit left
  (`HexEdit.LoadKeeps`, `HexEdit.LoadComplete` say exactly when that does no harm).
- Taking away the icon whose balloon is due or up, or its text, does not look for another
  balloon to show (`TrayQuiet.StepQuiet` says for every message exactly when one is left
  waiting).
- `play_ima` returns without closing the device when it meets a block with a bad index
  (`WavIma.PlayIma` says exactly when the device stays open).
- The terminator `prepare_hex_string_data` appends may lie behind the block that was
  allocated (`RegImport.ListTerminator` says exactly when it fits, by the text of the list).
- `string_data_state` returns a pointer it never set when a string fails at an escaped 0 or at a
  backslash that ends its line. If that happens to be NULL the import stops there, reports
  success and leaves the line buffer allocated (`RegStray.StraysExactly` says exactly for which
  files, `RegStray.StrayStops` what is imported then).

Two properties come with the type of a value: a `RegSafety.SafeParser` is a parser whose
memory and handles are in order, a `ProgmanLists.World` a memory whose links form
well-formed lists. Functions from such values to such values keep the property, and the
lemmas and the bodies beside them hold the proofs.

## Model

| member | source | states |
|---|---|---|
| LineReader.ChunkIndependence | apps/regedit/regproc.c:1011-1061 | For every NUL-free text and every way the reads are cut into chunks, the non-empty lines delivered are the non-empty pieces of the whole text split at CR, LF or CRLF, also for lines longer than the buffer |
| LineReader.NextLineSplits | apps/regedit/regproc.c:1019-1059 | One line taken from the buffer and what stays behind have together the non-empty lines of the unread text |
| LineReader.SplitUnlines | apps/regedit/regproc.c:1038-1052 | Splitting a text made of CR- and LF-free lines with CRLF ends gives the lines back |
| LineReader.AnyBreakSplits | apps/regedit/regproc.c:1038-1052 | Either break character, alone or in any run, ends a line: only empty lines depend on which it is |
| LineReader.LineBuffer.GetLine | apps/regedit/regproc.c:1011-1061 | The static buffer, moved, doubled and refilled in place, holds at the index returned exactly the line the value-level reader delivers, with its terminator before the unread text |
| LineReader.LineBuffer.Append | apps/regedit/regproc.c:1023-1035 | Growing and refilling keeps every unread unit and adds the next chunk behind it |
| LineReader.LineBuffer.BreakEnd | apps/regedit/regproc.c:1041-1052 | A CR followed in the buffer by LF is one break; a CR at the end of what was read is a break of its own |
| StringEscape.UnescapeEscape | apps/regedit/regproc.c:373-413 | Unescaping escape(s), a quote and any rest succeeds, gives s back and points at the rest, for every NUL-free s |
| StringEscape.UnescapeInPlace | apps/regedit/regproc.c:373-413 | The in-place loop, whose write index never passes its read index, leaves the unescaped text at the start, the rest after the quote where it was, and every cell outside the string as it was; the pointer to the rest is set unless an escaped 0 or a trailing backslash comes first |
| StringEscape.EscapeString | apps/regedit/regproc.c:1162-1211 | The two-pass escape fills a buffer of exactly the counted size with the escaped text and a terminator |
| StringEscape.EscapedLength | apps/regedit/regproc.c:1165-1178 | The first pass counts exactly the characters the second pass adds |
| StringEscape.EscapeOneLine | apps/regedit/regproc.c:1183-1206 | Escaped text holds no line break and no NUL, so it stays on one line of the file |
| StringEscape.EscapesRead | apps/regedit/regproc.c:380-400 | A backslash makes n a line feed and r a carriage return, fails before 0, and leaves any other character as it is |
| HexCodec.RowsFlatten | apps/regedit/regproc.c:1294-1332 | The rows of wrapped hex output hold all bytes once, in order |
| HexCodec.RowWidths | apps/regedit/regproc.c:1308-1331 | No continuation line carries more than 25 bytes |
| HexCodec.RowsOf | apps/regedit/regproc.c:1296-1332 | The wrapped text is its rows joined by comma, backslash, CRLF and two spaces |
| HexCodec.ExportHexData | apps/regedit/regproc.c:1296-1332 | The loop writes exactly the wrapped text; every write into the scratch buffer of three characters per byte, the NUL behind each comma included, lies inside it |
| HexCodec.DecodeRow | apps/regedit/regproc.c:238-290 | Reading back a last row of hex text gives its bytes |
| HexCodec.DecodeCutRow | apps/regedit/regproc.c:238-290 | Reading back a row that ends in comma and backslash gives its bytes and stops at the backslash |
| HexCodec.CsvBytesBound | apps/regedit/regproc.c:246-248 | A list yields at most one byte for every two characters, so its bytes fit the block allocated for it |
| HexCodec.WcstoulDigits | apps/regedit/regproc.c:247-256 | On plain hex digits the number read is their value and the digits are used up |
| HexCodec.HexPaddedValue | apps/regedit/regproc.c:1258-1266 | Padded hex digits denote the number they were made from |
| HexLists.NumeralRead | apps/regedit/regproc.c:258-259 | White space, a sign, a 0x prefix and hex digits in either case are read to their end as the number they mean, cut to 32 bits, a minus counting down from 2^32 |
| HexLists.NothingRead | apps/regedit/regproc.c:258-272 | Without a digit behind white space and a sign there is no number |
| HexLists.ListRead | apps/regedit/regproc.c:253-289 | Numerals of bytes with commas between them, in any of these spellings, are read as those bytes |
| HexLists.ByteThenOther | apps/regedit/regproc.c:274-283 | After a byte only blanks and a comment leave the list good; anything but a comma spoils it |
| HexLists.TooLarge | apps/regedit/regproc.c:258-259 | A number above 0xFF spoils the list |
| HexLists.NoNumber | apps/regedit/regproc.c:261-273 | Without a number, a backslash carries the list over to the next line, a comment ends it, and anything else spoils it |
| Registry.WriteTree | apps/regedit/regproc.c:1405-1475 | Replaying the create and set calls of a tree where nothing was adds exactly its keys, value names, types and bytes, and nothing else |
| Registry.WriteTreeAnywhere | apps/regedit/regproc.c:457-481 | At a place with no key yet, missing ancestors are created, every other key is left alone, and exactly the tree is there afterwards |
| Registry.ValueMapExact | apps/regedit/regproc.c:938-951 | With names distinct up to case, a key's map holds each of its values and no other |
| RegImport.StepLowers | apps/regedit/regproc.c:1094-1096 | Every state function lowers a lexicographic measure of unread input, the restart at the end of the file and state rank, so every import run ends |
| RegImport.TerminatedWords | apps/regedit/regproc.c:492-511 | String data read as hex keeps its complete words, gains two bytes exactly when its last complete word is not NUL, and ends in a NUL word afterwards unless it has no complete word and a NUL lies before the block |
| RegImport.BlockHolds | apps/regedit/regproc.c:246-248 | The bytes of a list, behind those already there, fit the block realloc made |
| RegImport.ListTerminator | apps/regedit/regproc.c:246-248 | For a well-formed list of any form the terminator lies inside the block if and only if the list has at least three characters more than twice its fields, or one more when the size is odd |
| HexCodec.FieldsDecoded | apps/regedit/regproc.c:253-289 | A well-formed list yields exactly one byte for each of its comma-separated fields, up to a comment or a backslash |
| RegImport.RowTerminator | apps/regedit/regproc.c:503-510 | For a last row of two-digit bytes behind any number of bytes from the rows before: it fits if and only if the row has four bytes, or two and the size is odd; cut by comma and backslash at the end of the file, if and only if it has two bytes or the size is odd |
| RegImport.TerminatorExample | apps/regedit/regproc.c:506-510 | hex(2):41,42 has a block of three bytes and its terminator is written to bytes 2 and 3 |
| RegSafety.ImportSafe | apps/regedit/regproc.c:441-490 | At every step of every run: no value data in line, key and name states; borrowed data only from the line still in the buffer; key name and handle set together; at the end every block freed exactly once, nothing borrowed freed, and each write to the key open at that moment |
| RegSafety.ImportClosesKeys | apps/regedit/regproc.c:441-455 | A returning import of a valid file leaves no key open, and every call went to the key open at that moment |
| RegSafety.StepKeeps | apps/regedit/regproc.c:564-951 | Each of the 17 states keeps the memory, version and key invariants; a step that ends the run leaves nothing allocated |
| RegSafety.RunKeeps | apps/regedit/regproc.c:1094-1105 | From any state in order, the run ends with all memory accounted for |
| RegChunks.RunNonEmpty | apps/regedit/regproc.c:639-669 | After the header a run depends on the non-empty lines alone |
| RegChunks.ImportNonEmpty | apps/regedit/regproc.c:1066-1105 | Two files with the same first line and the same non-empty lines import alike: same result, same registry calls |
| RegChunks.ImportChunkIndependent | apps/regedit/regproc.c:1066-1105 | The calls an import makes do not depend on how the reads of the file are cut |
| RegExport.FileSplits | apps/regedit/regproc.c:1526-1553 | The exported text splits at its line breaks into exactly the lines of the header, the keys and the values |
| RegExport.FileNulFree | apps/regedit/regproc.c:1526-1553 | Exported text holds no NUL, so the line reader sees all of it |
| RegExport.SeenUnlines | apps/regedit/regproc.c:1339-1373 | What is written for a value is its lines, each ended by CRLF, for a dword of one to three bytes with the bytes that lie behind it |
| RegExport.TypeTagFits | apps/regedit/regproc.c:1280-1285 | The tag of every 32-bit type, with its terminator, fits the 15 characters allocated for it |
| RegExport.DwordExample | apps/regedit/regproc.c:1258-1266 | The dword 0x12AB of name n is written as "n"=dword:000012ab |
| RegExport.BytesExample | apps/regedit/regproc.c:1268-1332 | The bytes 01 AB of name b are written as "b"=hex:01,ab and, with type 0x1F, as "b"=hex(1f):01,ab |
| RegExport.EscapeExample | apps/regedit/regproc.c:1183-1206 | A carriage return, a line feed, a backslash and a quote are written as \r, \n, \\ and \" |
| RegRoundTrip.RoundTrip | apps/regedit/regproc.c:1066-1105 | For every exportable tree, however the exported file is cut into reads and over any registry with no key yet at the path, the import succeeds, leaves all other keys alone and puts exactly the canonical tree there; the tree itself survives if and only if all its values are well typed |
| RegRoundTrip.ImportExported | apps/regedit/regproc.c:1066-1105 | However the exported text is cut into reads, importing it makes exactly the calls that write the canonical tree |
| RegRoundTrip.ImportExportedLines | apps/regedit/regproc.c:564-951 | The same on the lines of the exported file, in any environment |
| RegRoundTrip.SurvivesExactly | apps/regedit/regproc.c:492-527 | A tree comes back unchanged in every environment if and only if all its values are well typed, which can be checked on the values alone |
| RegRoundTrip.ValueFixed | apps/regedit/regproc.c:492-527 | A single value comes back unchanged if and only if its data has the form its type demands: terminated strings without inner NUL, four-byte or empty dwords, terminated or empty string lists |
| RegRoundTrip.ValueExample | apps/regedit/regproc.c:1241-1256 | The string "A" stored without a terminator comes back empty |
| RegRoundTrip.RunRows | apps/regedit/regproc.c:857-927 | Hex data over any number of continuation lines comes back byte for byte through HEX_DATA, EOL_BACKSLASH and HEX_MULTILINE |
| RegRoundTrip.RunString | apps/regedit/regproc.c:812-834 | An exported string line makes one set call with the text up to its first NUL and one terminator |
| RegRoundTrip.RunDword | apps/regedit/regproc.c:836-855 | An exported dword line makes one set call with the number's four bytes |
| RegRoundTrip.RunValue | apps/regedit/regproc.c:741-951 | The lines of one value make exactly one set call with its canonical form and lead back to the start of a line |
| RegRoundTrip.RunTree | apps/regedit/regproc.c:671-692 | The lines of a tree make exactly the calls of its canonical form, whatever lines follow |
| RegRoundTrip.FileBytesBack | apps/regedit/regproc.c:1477-1513 | The bytes of the file, byte order mark included, read back as the exported text |
| RegEdits.ImportEdits | apps/regedit/regproc.c:564-951 | A file written by hand, with any mix of lines that open, delete, set, erase, do nothing or are malformed, however it is cut into reads and over any registry, succeeds and does to the store, line by line, what each line says |
| RegEdits.KeySpelled | apps/regedit/regproc.c:415-439 | A class name in any case followed by names after backslashes denotes the key of that class and those names |
| RegEdits.CreateOpens | apps/regedit/regproc.c:457-481 | Opening a key makes it and its missing ancestors, empty, and changes no other key |
| RegEdits.RunRemove | apps/regedit/regproc.c:694-706 | A line [-key] leads back to the start of a line with no key open and exactly the keys at or below it gone |
| RegEdits.RunErase | apps/regedit/regproc.c:768-781 | "name"=- and @=-, with blanks and a comment anywhere they may stand, delete that value of the open key |
| RegEdits.RunNothing | apps/regedit/regproc.c:639-781 | Lines without bracket, quote, equals sign or known data leave registry and open key as they are |
| RegEdits.RunStray | apps/regedit/regproc.c:457-481 | A key line that names no class closes the open key and opens none |
| RegEdits.CommentBetweenRows | apps/regedit/regproc.c:903-927 | Lines with nothing but blanks and a comment are skipped between the rows of a list |
| RegDeletes.DeleteKeyFile | apps/regedit/regproc.c:1114-1146 | A file with the line [-class\names], over any registry, leaves exactly the keys whose folded path does not start with those names, unchanged |
| RegDeletes.DeleteValueFile | apps/regedit/regproc.c:768-781 | [key] followed by "n"=- or @=- removes that value of the key, up to case, or its default value; the key and its missing ancestors are made, and nothing else changes |
| RegDeletes.DeleteGivesUp | apps/regedit/regproc.c:1121-1140 | Deleting a class itself, or a name that starts with H and is no class, ends the import there, with what the lines before it did |
| RegOldFiles.Refused | apps/regedit/regproc.c:537-597 | Any other first line that starts with REGEDIT imports nothing and succeeds; any that does not imports nothing and fails |
| RegOldFiles.ImportEntries | apps/regedit/regproc.c:600-637 | A Windows 3.1 file, however it is read and over any registry, sets the default value of each key it names below HKEY_CLASSES_ROOT and skips all other lines |
| RegParser.ImportRegistryFile | apps/regedit/regproc.c:1066-1105 | The program, with its parser fields, its heap block and the static line buffer updated in place, computes exactly the run of the value-level machine; it needs of the reader only that it is released, and an import that returns releases it again if and only if no string of the file fails at an escaped 0 or a trailing backslash, or the pointer then returned is not NULL |
| RegStray.StraysExactly | apps/regedit/regproc.c:812-833 | An import run stops at the pointer never set if and only if that is NULL and a scan of the file's text, line by line and without parser or registry, meets such a string |
| RegStray.NeverStrays | apps/regedit/regproc.c:812-833 | The run goes on to the end of the file in all environments if and only if the text has no such string |
| RegStray.StrayStops | apps/regedit/regproc.c:1094-1105 | If it stops there, the import does exactly what importing the lines up to that string does: same calls, same result |
| RegStray.StrayExample | apps/regedit/regproc.c:391-399 | "a"="x\0" as the first line is such a string, whatever follows |
| RegParser.ImportParser.Loop | apps/regedit/regproc.c:1094-1096 | The dispatch loop over the state table ends and computes the run, with the position always on the current line; unless the program exits, it ends with the reader released if and only if the run does not stop at the pointer never set |
| RegParser.ImportParser.ReadingStep | apps/regedit/regproc.c:564-668 | The states that fetch a line do what their function on values says; NULL comes with the reader released, after a bad header too |
| RegParser.ImportParser.ParsingStep | apps/regedit/regproc.c:671-951 | The states that parse and edit the current line do what their function on values says, and the unread text behind the line is untouched; NULL is the exit of the program or the pointer never set |
| RegParser.ImportParser.PrepareHexStringData | apps/regedit/regproc.c:492-511 | In the block itself: the complete words stay, a NUL word is stored behind them exactly when the last one is not NUL, and the size grows by two then and not otherwise |
| RegParser.ImportParser.StoreCsv | apps/regedit/regproc.c:253-289 | The comma list loop stores exactly the bytes of the list behind those already there, inside the block, and says whether the list is well formed and where a backslash continues it |
| RegParser.ImportParser.UnescapeAt | apps/regedit/regproc.c:718-738 | Unescaping a name or string on the current line leaves text and rest on that line, and the lines still to be read as they were |
| RegParser.ImportParser.TrimAt | apps/regedit/regproc.c:751-754 | Cutting trailing blanks off writes one cell, the NUL behind the text that stays, and the lines still to be read are as they were |
| RegParser.ImportParser.CutName | apps/regedit/regproc.c:612-621 | The NUL behind a Windows 3.1 key name keeps the value behind it, or empties a value that starts there |
| LineText.ReadDword | apps/regedit/regproc.c:204-230 | A dword is a non-empty text of zero to eight hex digits, then only blanks or a comment, so that `dword:;x` is zero; anything else is refused. Only cells of the text are written |
| LineText.TrimEnd | apps/regedit/regproc.c:751-754 | The blanks at the end of a text are cut off by one NUL; no other cell changes |
| LineText.FindLastBracket | apps/regedit/regproc.c:675-678 | The last closing bracket of a text is found, or that there is none |
| RegWriter.ExportFileWriter.WriteFile | apps/regedit/regproc.c:1526-1553 | The exporter's writes add up to the exported text of the tree |
| RegWriter.ExportFileWriter.WriteTree | apps/regedit/regproc.c:1405-1475 | The value and subkey loops write the text of a key and everything below it |
| RegWriter.ExportFileWriter.WriteValue | apps/regedit/regproc.c:1339-1373 | One value's name, data and line end, by type; a dword of one to three bytes goes on with what lies behind it in the buffer |
| RegWriter.ExportFileWriter.WriteHexType | apps/regedit/regproc.c:1268-1290 | The tag goes through a buffer of 15 characters and comes out whole, with its length |
| RegFind.FindWalk | apps/regedit/find.c:334-532 | From any key and value of a registry stored in any order, the walk, which sorts the names of every key it visits, returns the first match strictly after it in the sorted pre-order through the remaining hives, or nothing if there is none |
| RegFind.FindAll | apps/regedit/find.c:609-682 | Restarting from each hit enumerates every later match of the sorted enumeration exactly once, in order; from the first hive these are exactly the matching entries of the stored registry |
| RegFind.FindRecurse | apps/regedit/find.c:114-332 | The recursive search sorts values and subkeys and returns the first match below a key, after the starting value, in the order of the sorted tree |
| RegFind.SearchSiblings | apps/regedit/find.c:379-473 | The climb sorts the siblings and resumes with the first match among and below those after the key climbed from |
| RegFind.OpenSorted | apps/regedit/find.c:138-140 | A path opens the same key in the sorted registry as in the stored one, sorted |
| RegFind.SortCommutes | apps/regedit/find.c:262-308 | Sorting the names of a key first and what is below each of them on the way gives the sorted tree |
| RegFind.SortedHiveEntries | apps/regedit/find.c:114-332 | The sorted and the stored registry hold the same entries, each as often |
| RegFind.SortedMatches | apps/regedit/find.c:114-332 | They have the same matches, each as often |
| RegFind.AheadIsRest | apps/regedit/find.c:334-532 | Started at any entry, the walk visits exactly the entries after it in the enumeration of all hives |
| RegFind.AheadOfHive | apps/regedit/find.c:334-532 | Started at a hive with no value, it visits that hive and all later ones |
| RegFind.FirstMatchIs | apps/regedit/find.c:114-332 | A result is a match with no match before it; none means no entry matches |
| RegFind.KeyEnumerated | apps/regedit/find.c:114-332 | Every key reached by its path, and everything below it, is in the enumeration |
| RegFind.PositionSuffix | apps/regedit/find.c:334-532 | From every position exactly a suffix of the enumeration is still ahead |
| RegFind.SortTreeSorted | apps/regedit/find.c:107-112 | Sorting by name without case sorts every level and keeps names unique |
| RegFind.CompareText | apps/regedit/find.c:60-97 | A name or counted text matches iff it is the wanted text, or holds it at some index: exactly with the case flag, up to the case of single letters without |
| RegFind.CompareData | apps/regedit/find.c:99-105 | Data matches iff it is of a string type and its text matches in the same way |
| RegFind.MatchesWanted | apps/regedit/find.c:60-97 | With the case flag the wanted text must be the text, or stand in it, character by character; without it the same up to the case of single letters |
| RegFind.CaseIrrelevant | apps/regedit/find.c:60-97 | Without the case flag, changing the case of any letters of the name or of the wanted text never changes the answer |
| RegFind.LessIs | apps/regedit/find.c:107-112 | A name comes before another if and only if it is a shorter prefix of it up to case, or has the smaller lower-case letter where they first differ |
| RegFindOrder.FindInOrder | apps/regedit/find.c:609-682 | Repeated from the first hive, the search returns every match of the registry once, in the order of hives, paths and value names |
| RegFindOrder.HivesOrdered | apps/regedit/find.c:114-332 | The sorted enumeration lists a key before its values, those before its subkeys, and siblings by name without case |
| RegFindOrder.MatchMeans | apps/regedit/find.c:60-105 | A key matches by its last name, a value by its name or its string data, as the flags ask |
| RegFindOrder.EnumeratesExactly | apps/regedit/find.c:114-332 | An entry is enumerated if and only if its key or value is there |
| HexEdit.Run | apps/regedit/hexedit.c:1011-1359 | Every run of keys and commands in the hex field keeps caret and selection inside the buffer, a half-typed byte in existence, and an empty selection not after the caret |
| HexEdit.Step | apps/regedit/hexedit.c:1011-1359 | The same for each key and command |
| HexEdit.TypeBytes | apps/regedit/hexedit.c:1301-1357 | From an empty selection with nothing half-typed, typing 2k hex digits inserts exactly the k bytes they denote at the caret |
| HexEdit.TypeByte | apps/regedit/hexedit.c:1317-1351 | Two digits insert one byte, the second completing the first |
| HexEdit.BackUndoesTyping | apps/regedit/hexedit.c:1125-1173 | Backspace takes back a byte just typed, or half of one |
| HexEdit.CutPaste | apps/regedit/hexedit.c:499-539 | Cut followed by Paste restores the bytes |
| HexEdit.LoadKeeps | apps/regedit/hexedit.c:556-614 | Loading a buffer keeps the control in order if and only if the old selection and half-typed byte fit the new bytes |
| HexEdit.LoadComplete | apps/regedit/hexedit.c:556-566 | All bytes are loaded if and only if no smaller maximum is set |
| HexEdit.LoadAfterEdit | apps/regedit/hexedit.c:649-663 | After a digit was typed, only buffers up to the current size load completely |
| HexEdit.LoadExample | apps/regedit/hexedit.c:556-614 | A selection left from a longer buffer reaches past the end after a load |
| HexEdit.Control.Handle | apps/regedit/hexedit.c:1011-1359 | The control's fields, changed in place, follow the function on values for every key and command |
| HexEdit.Control.InsertBytes | apps/regedit/hexedit.c:507-524 | Growing, shifting and copying inserts the bytes; nothing of the uninitialised memory remains |
| HexEdit.Control.RemoveBytes | apps/regedit/hexedit.c:481-488 | Shifting down and shrinking removes exactly the range |
| HexEdit.Control.OnChar | apps/regedit/hexedit.c:1247-1359 | A hex digit replaces the selection and begins or completes a byte; other characters are not used |
| HexEdit.Control.LoadBuffer | apps/regedit/hexedit.c:556-614 | The load replaces the bytes, cut at the maximum, and resets only the caret |
| HexKeys.DeleteSelection | apps/regedit/hexedit.c:1081-1096 | With a selection, Delete, Back, Cut and the delete command remove exactly its bytes and put the caret where it was; Cut and shift with Delete keep them in the clipboard |
| HexKeys.DeleteAtCaret | apps/regedit/hexedit.c:1098-1121 | Without one, Delete removes the byte at the caret, which stays; at the end it does nothing |
| HexKeys.BackAtCaret | apps/regedit/hexedit.c:1125-1173 | Back removes the half-typed byte, or else the byte before the caret, and steps back |
| HexKeys.ArrowMoves | apps/regedit/hexedit.c:1175-1244 | Each arrow moves the caret by one or by a row of eight within the buffer, changes no byte, and takes the selection along or, with shift, drags its end |
| HexKeys.DigitBegins | apps/regedit/hexedit.c:1301-1357 | A digit replaces the selection or goes in at the caret as the high half of a new byte |
| HexKeys.DigitCompletes | apps/regedit/hexedit.c:1317-1351 | A second digit becomes the low half of the byte at the caret, which steps over it |
| HexKeys.DigitIs | apps/regedit/hexedit.c:1301-1316 | Digits and the letters a to f in either case count, and nothing else; only the low byte is looked at |
| HexKeys.OtherChars | apps/regedit/hexedit.c:1301-1316 | Any other character changes nothing |
| HexKeys.PasteMeans | apps/regedit/hexedit.c:499-532 | Paste puts the clipboard in place of the selection or at the caret, which stays in front of it |
| HexKeys.CopyMeans | apps/regedit/hexedit.c:411-460 | Copy fills the clipboard with the selected bytes and changes nothing else |
| IsoDirectory.FindEntry | apps/cmd/cmd.c:197-230 | The search returns the first record of that name in the directory's sectors up to the first unreadable one |
| IsoDirectory.NameEqual | apps/cmd/cmd.c:144-154 | Names are equal iff they have the same characters up to ASCII case |
| IsoDirectory.FirstNamedAt | apps/cmd/cmd.c:204-227 | A record is found by its name unless an earlier record carries the same |
| IsoDirectory.FirstNamedNone | apps/cmd/cmd.c:204-229 | Nothing is found iff no record carries the name |
| IsoDirectory.ReadSector | apps/cmd/cmd.c:204-227 | A sector of records laid out as section 9.1 of ECMA-119 prescribes is read back record by record: name without version, extent, size and flags |
| IsoDirectory.FindWritten | apps/cmd/cmd.c:197-230 | Every file written in a directory over any number of sectors, under a name no earlier record carries, is found with its extent and flags |
| CmdPath.ResolveDirectory | apps/cmd/cmd.c:232-331 | The resolver succeeds if and only if every directory passed through exists, and returns the stack-normalised path and the extent it leads to |
| CmdPath.ResolvedInStep | apps/cmd/cmd.c:232-331 | A resolved path is absolute, upper-case, without empty, "." or ".." components, and its extent is reached by walking it from the root |
| CmdPath.CanonicalResolves | apps/cmd/cmd.c:232-331 | A canonical path that fits the buffer resolves to itself from any directory, if and only if its directories exist |
| CmdPath.ResolveInTwo | apps/cmd/cmd.c:282-325 | Changing to a/b is changing to a and then to b |
| CmdPath.SessionResolves | apps/cmd/cmd.c:581-590 | After any run of CD commands on a fixed disc, resolving the working directory again succeeds and returns itself |
| CmdPath.Follow | apps/cmd/cmd.c:283-325 | One part of the input keeps canonical text and extent in step: "." stays, ".." gives the path without its last name and the extent of walking there, or the root, and a name enters its directory |
| CmdPath.Replay | apps/cmd/cmd.c:257-273 | The replay loop is a walk along the path's components |
| CmdPath.PopPath | apps/cmd/cmd.c:291-296 | Cutting the text at its last slash gives the path without its last name, and the root for a single name |
| CmdLaws.DotDotGoesUp | apps/cmd/cmd.c:291-318 | From any existing directory but the root, ".." resolves to the path without its last name and to the extent of walking there |
| CmdLaws.DotDotAtRoot | apps/cmd/cmd.c:291-318 | From the root, ".." resolves to the root |
| CmdLaws.DotStays | apps/cmd/cmd.c:290-290 | "." resolves to the working directory |
| CmdLaws.NameGoesDown | apps/cmd/cmd.c:319-325 | A name in any case resolves to that name, in upper case, below the working directory, if and only if the directory exists |
| CmdLaws.DownAndUp | apps/cmd/cmd.c:282-325 | name/.. gives the working directory back if the name is a directory, and fails otherwise |
| CmdLaws.JoinText | apps/cmd/cmd.c:323-324 | The path returned has a slash before every name and is a single slash for the root |
| CmdLaws.JoinExample | apps/cmd/cmd.c:323-324 | /A/B is the text of A and B |
| CmdLaws.DirectoryEntered | apps/cmd/cmd.c:319-322 | A directory is entered if and only if its record carries the name and the directory bit; its extent is the record's |
| CmdLaws.RootWritten | apps/cmd/cmd.c:242-246 | The root is the extent that the volume descriptor in sector 16 stores |
| CmdLaws.ExtraSlashes | apps/cmd/cmd.c:290-290 | Doubled slashes and a slash at the end change nothing |
| CmdLaws.LeadingSlash | apps/cmd/cmd.c:247-256 | A leading slash starts at the root whatever the working directory is |
| CmdLaws.LongInputCut | apps/cmd/cmd.c:247-256 | Only the first 255 characters after a leading slash count |
| CmdConsole.Console.ChangeDirectory | apps/cmd/cmd.c:581-590 | CD changes the working directory exactly on success; the first row is blanked before the message is added |
| CmdConsole.Console.AppendLine | apps/cmd/cmd.c:414-431 | The console keeps the newest 128 rows, each cut at 72 columns |
| CmdConsole.AppendAllNewest | apps/cmd/cmd.c:414-431 | Over any run of output the rows are the newest of all lines written |
| CmdConsole.NewestAre | apps/cmd/cmd.c:414-431 | The rows kept are the last 128, in order, and all of them when there are fewer |
| TrayModel.EveryRun | apps/explorer/systray.c:591-800 | In every run with docking off: owner and id unique, displayed icons one per slot 0 to n, hidden ones at -1, and exactly one timer on the listed, displayed icon whose balloon is due or up, or none |
| TrayModel.StepKeeps | apps/explorer/systray.c:591-800 | Every message keeps these invariants |
| TrayLaws.NotifyAddMeans | apps/explorer/systray.c:746-776 | An added icon is listed last with the request's owner, id, text and timeout and a window of its own, and the request is carried out on it; a second addition does nothing |
| TrayLaws.AddDisplays | apps/explorer/systray.c:746-776 | With items allowed, an added icon takes the next free slot unless its request hides it, with or without a text; no other icon changes |
| TrayLaws.NotifyModifyMeans | apps/explorer/systray.c:689-743 | A listed icon is displayed afterwards if and only if its hidden bit as set by the request is off: one that was hidden gets the next free slot and the others keep theirs, one that is hidden now closes the gap behind it; its balloon is renewed unless another icon has one |
| TrayLaws.ModifyMeans | apps/explorer/systray.c:689-743 | The same for an icon by its place in the list, with its text, its timeout held between 10 and 30 seconds and all its other fields |
| TrayLaws.NotifyDeleteMeans | apps/explorer/systray.c:779-788 | A deleted icon leaves list and slot, the icons behind it move down by one, and only its own balloon goes |
| TrayLaws.OwnerGoneMeans | apps/explorer/systray.c:487-589 | The same when an icon's owner is gone |
| TrayLaws.OwnerDestroyedMeans | apps/explorer/systray.c:791-800 | When an owner is destroyed all other icons stay, displayed as before and in the same order |
| TrayLaws.NotifyVersionMeans | apps/explorer/systray.c:846-946 | A new version changes that field of that icon only |
| TrayLaws.CreateTimerMeans | apps/explorer/systray.c:235-269 | The first timer brings the balloon up, starts the second and changes nothing else |
| TrayLaws.ShowTimerMeans | apps/explorer/systray.c:295-321 | The second timer clears the text, takes the balloon down, and the first displayed icon with a text in list order is next |
| TrayLaws.RefreshMeans | apps/explorer/systray.c:1175-1186 | A refresh displays every icon in list order, and the balloon stays with its icon |
| TrayModel.VacateKeeps | apps/explorer/systray.c:608-632 | Removing an icon leaves the remaining slots gapless; the count asserted positive is positive |
| TrayModel.VacateOrder | apps/explorer/systray.c:616-625 | Removing an icon keeps the order of all others |
| TrayModel.DeleteKeeps | apps/explorer/systray.c:779-788 | A deleted icon is referenced by no timer and no balloon |
| TrayModel.CleanupIs | apps/explorer/systray.c:791-800 | Cleaning up after an owner removes exactly its icons and keeps the others in order |
| TrayModel.TimerLive | apps/explorer/systray.c:578-584 | A timer that fires belongs to a listed icon, the one whose balloon it is |
| TrayModel.RefreshOrder | apps/explorer/systray.c:1175-1187 | A refresh shows every icon, also the hidden ones, in list order |
| TrayQuiet.StepQuiet | apps/explorer/systray.c:591-800 | For every message to a tray in order with nothing waiting: a balloon is left waiting if and only if the message takes the speaking icon or its text away (hide, empty text, delete, owner gone, close) while another icon has something to say; adding, versions, timers and refreshing never leave one |
| TrayQuiet.RunQuiet | apps/explorer/systray.c:591-800 | In every run in which no message meets its condition, no balloon is ever left waiting |
| TrayQuiet.HideLeavesWaiting | apps/explorer/systray.c:668-686 | Hiding an icon leaves a balloon waiting if and only if that icon was the one speaking and another has a text |
| TrayQuiet.ModifyQuiet | apps/explorer/systray.c:689-743 | The same for a request: it hides the speaking icon or empties its text |
| TrayQuiet.CleanupQuiet | apps/explorer/systray.c:791-800 | The same for an owner: the speaking icon is its own and an icon of another owner has a text |
| TrayQuiet.CloseQuiet | apps/explorer/systray.c:1130-1135 | The same for closing the tray window: the taskbar is on and some displayed icon has a text |
| TrayQuiet.WaitingExample | apps/explorer/systray.c:779-788 | Two icons with texts: deleting the one that speaks leaves the other silent |
| TrayQuiet.EmptyTextExample | apps/explorer/systray.c:689-743 | The same two icons: an empty text for the one that speaks, or closing the tray, leaves the other silent |
| TrayModel.UpdateBalloonKeeps | apps/explorer/systray.c:303-314 | After an icon has changed, updating its balloon settles the timer machine |
| TrayWindow.TrayState.Handle | apps/explorer/systray.c:846-946 | The globals, updated in place, follow the function on values for every message and stay in order; an addition lists its icon last, and after an addition or a change the icon is displayed exactly as its hidden bit says |
| TrayWindow.TrayState.RemoveFromTray | apps/explorer/systray.c:608-632 | The loop moves exactly the icons of later slots down by one |
| TrayWindow.TrayState.ModifyIcon | apps/explorer/systray.c:689-743 | A request sets state and text; afterwards the icon is displayed if and only if its hidden bit is off, in the next free slot if it was hidden, the others move only to close a gap, and its balloon is renewed |
| TrayWindow.TrayState.CleanupOwner | apps/explorer/systray.c:791-800 | The list loop that deletes while it iterates deletes every icon of the owner |
| TrayWindow.TrayState.FireTimer | apps/explorer/systray.c:235-269 | Creating and ending a balloon move the one timer along |
| TrayLayout.IconsApart | apps/explorer/systray.c:339-371 | Icons never overlap and lie inside the tray window, or right of the taskbar buttons |
| TrayLayout.SyncButtons | apps/explorer/systray.c:803-844 | Both passes place every button where its rank among the visible windows says |
| TrayLayout.EveryWindowHasButton | apps/explorer/systray.c:828-844 | Every visible window has a button if and only if quarter-width buttons would fit |
| TrayLayout.ButtonsApart | apps/explorer/systray.c:832-844 | Buttons never overlap and never reach into the icons |
| TrayLayout.SlotOrder | apps/explorer/systray.c:339-356 | In the taskbar slot 0 is at the right end and each next slot to its left; in the tray window slot 0 is at the left end |
| TrayLayout.ButtonsSideBySide | apps/explorer/systray.c:832-844 | Window buttons are equally wide, side by side in list order, the first right behind the start buttons |
| TrayLayout.WidthShared | apps/explorer/systray.c:828-830 | Buttons have full width when all fit; otherwise they share the room evenly, but never go below a quarter |
| AppBars.EveryRun | apps/explorer/appbar.c:89-199 | In every run each fresh reserved bar is disjoint from every reserved bar added before it; once all have answered, all are pairwise disjoint |
| AppBars.StepKeeps | apps/explorer/appbar.c:135-199 | Every message keeps that |
| AppBars.BarsSettle | apps/explorer/appbar.c:176-199 | After one round of ABM_SETPOS messages more than there are bars, each bar repeating its wish and each round in whatever order, all bars are reserved, fresh and apart |
| AppBars.ClipDisjoint | apps/explorer/appbar.c:103-133 | A clipped rectangle meets none of the reserved bars it was clipped by |
| AppBars.ClipIs | apps/explorer/appbar.c:103-133 | A point is left of a wish if and only if it is in the wish and, for every reserved bar added before, right of a left bar, left of a right bar, below a top bar or above a bottom bar |
| AppBars.ClipSides | apps/explorer/appbar.c:118-126 | Each side moves in exactly as far as the bars of its own edge demand, also where nothing is left |
| AppBars.ClipExample | apps/explorer/appbar.c:118-126 | A left bar of width 100 leaves (100, 570, 800, 600) of (0, 570, 800, 600) |
| AppBars.NoticesOnce | apps/explorer/appbar.c:90-100 | Every listed bar but one is told once, and nobody else is |
| AppBars.NewMeans | apps/explorer/appbar.c:143-154 | A new bar comes last, behind all others, and reserves nothing yet |
| AppBars.RemoveMeans | apps/explorer/appbar.c:155-171 | Removing a bar leaves all others as they are and in order, and tells each of them once |
| AppBars.SetPosMeans | apps/explorer/appbar.c:176-196 | The bar has the edge asked for and exactly what the bars before it leave of the wish; the others stay, and each is told once if and only if the rectangle is new |
| AppBars.QueryThenSet | apps/explorer/appbar.c:172-196 | A bar that sets the position a query gave it gets exactly that position |
| AppBars.AppBarList.Handle | apps/explorer/appbar.c:135-199 | The message handler follows the function on values; the rectangle it sends back is exactly what the reserved bars added before leave of the wish, point by point |
| AppBars.AppBarList.ClipRect | apps/explorer/appbar.c:103-133 | The loop clips by exactly the reserved bars added before |
| AppBars.AppBarList.SendPosChanged | apps/explorer/appbar.c:90-100 | Every other bar is notified once |
| DesktopGrid.LookupOnDesktop | apps/explorer/desktop.c:236-250 | For every point and any metrics of initialize_launchers, division finds launcher k if and only if the point is in k's icon or title rectangle |
| DesktopGrid.LookupIff | apps/explorer/desktop.c:210-250 | The same for any metrics whose rectangles fit their cell, negative coordinates and columns past the last included |
| DesktopGrid.HitUnique | apps/explorer/desktop.c:210-234 | No point is on two launchers |
| DesktopGrid.MetricsFit | apps/explorer/desktop.c:578-591 | The geometry derived from icon, font and screen keeps both rectangles inside the cell |
| DesktopGrid.ScanAll | apps/explorer/desktop.c:236-250 | An exhaustive scan finds what the division finds |
| DesktopGrid.LaunchersInRows | apps/explorer/desktop.c:210-234 | The first launcher is in the corner, the next to its right, and after a full row the next row begins below; each title stands in the cell of its icon |
| DesktopGrid.CellLayout | apps/explorer/desktop.c:578-591 | In its cell the icon is centred above the title of two lines of at least 14 characters, and as many cells stand in a row as the screen holds, at least one |
| WavCodec.NonExpansive | apps/wavplay.c:130-150 | Two decodings of the same nibbles from the same index never move further apart, and keep equal indices |
| WavCodec.OutputsNonExpansive | apps/wavplay.c:130-150 | The same at every sample put out |
| WavCodec.Resynchronised | apps/wavplay.c:130-150 | Decoders that agree once agree for good |
| WavCodec.DeltaClose | apps/wavplay.c:131-137 | The shifts and adds give (2m + 1) * step / 8 rounded down by at most 17/8 |
| WavCodec.NextPredictor | apps/wavplay.c:131-141 | Codes 0 to 7 never lower the predictor and 8 to 15 never raise it; it moves by (2m + 1) eighths of the step up to rounding, less only at the ends of 16 bits |
| WavCodec.NextIndex | apps/wavplay.c:142-145 | The four small magnitudes lower the index by one, the others raise it by 2, 4, 6 and 8, within 0 to 88 |
| WavCodec.StepsGrow | apps/wavplay.c:15-22 | The steps run from 7 to 32767, each eleven tenths of the one before up to rounding |
| WavCodec.NibblesBack | apps/wavplay.c:130-131 | Low and high nibble make up each byte: nothing is lost or read twice |
| WavCodec.PcmSampleTop | apps/wavplay.c:36-49 | A sample above 8 bits is its two most significant bytes |
| WavCodec.PcmSampleEight | apps/wavplay.c:36-49 | An 8-bit sample sounds like the 16-bit sample whose high byte has the other sign |
| WavCodec.MonoDoubled | apps/wavplay.c:77-83 | A mono frame sounds alike on both sides, like a stereo frame that holds its bytes twice |
| WavCodec.StereoUnchanged | apps/wavplay.c:77-83 | 16-bit stereo passes through unchanged: the device gets the bytes of the whole frames |
| WavIma.PlayIma | apps/wavplay.c:102-171 | The device receives all samples of all blocks, or a prefix. It plays to the end if and only if all blocks are decodable and the service accepts the writes they need; a stream that can be closed is left open if and only if some block has an index above 88 and the service accepts the writes of the blocks before it |
| WavIma.LeftOpenExample | apps/wavplay.c:121-124 | One block with index 89 sends nothing and leaves the device open |
| WavIma.DecodeBlock | apps/wavplay.c:118-150 | A block fills its buffer exactly: 1 + 2 * (align - 4) frames, the pure decoding of its nibbles on both channels |
| WavIma.DecodeNibble | apps/wavplay.c:131-145 | The predictor stays in 16 bits and the index in 0 to 88, as the fold says |
| WavPlans.BlockMeans | apps/wavplay.c:118-150 | A block starts with its first sample, little end first, and its index, goes on with its nibbles, and is refused if and only if the index is above 88 |
| WavPlans.LowHalfFirst | apps/wavplay.c:130-131 | The low half of each byte comes first |
| WavPlans.DoubledAt | apps/wavplay.c:146-148 | Each sample is heard on both sides |
| WavIma.PlayBlocks | apps/wavplay.c:118-166 | The block loop ends with everything sent, at a bad index, or refused with a prefix sent; it is refused if and only if the service does not accept every write of the blocks before the first bad one |
| WaveOut.Device.Write | apps/audio/sound.c:29-39 | All bytes arrive in non-empty chunks of whole frames of at most 4096 bytes if and only if the service accepts each of them; otherwise the refused write ends a series that delivered a proper prefix |
| WaveOut.Device.Open | apps/audio/sound.c:12-27 | The device opens iff it is closed, the rate is not zero and the service starts |
| WaveOut.Device.Close | apps/audio/sound.c:41-47 | The device closes iff the handle is its own and the service stops |
| WavPlay.PlayPcm | apps/wavplay.c:25-34 | After both layers of chunking the device has exactly the encoded frames if and only if the service accepts each of the 4096-byte pieces, and otherwise a prefix; cutting into blocks first makes no more writes |
| WavPlay.PlayFrames | apps/wavplay.c:64-95 | Block by block the device receives the stereo encoding of every whole source frame, all of it if and only if the service accepts each piece |
| WavPlay.PlayPcmBytes | apps/wavplay.c:51-100 | Everything arrives if and only if format, rate and device are right and the service accepts each piece; otherwise a prefix arrives; the device ends closed |
| WavPlay.FillBlock | apps/wavplay.c:77-83 | The inner loop reads only inside the data and fills the buffer with the frames |
| WavFile.WalkChunks | apps/wavplay.c:191-219 | For every file of 12 bytes or more the chunk walk in 32-bit arithmetic picks up what the chunks of the file say, or leaves the file where its offset wraps around |
| WavFile.SmallInRange | apps/wavplay.c:191-218 | The walk stays in the file for every file that leaves nine bytes of the 32-bit range free |
| WavFile.TestAtEnd | apps/wavplay.c:191-218 | Behind the last chunk the loop's test comes out right if and only if the sizes of the chunks leave eight bytes of the 32-bit range free |
| WavFile.ChunksBack | apps/wavplay.c:191-219 | The walk over a written file finds exactly the chunks written |
| WavFile.PlanForWritten | apps/wavplay.c:173-247 | A written PCM file is played with the format and data that were written |
| WavPlans.FilePlan | apps/wavplay.c:191-247 | A file with a format, data and any other chunks around them is played as PCM or IMA with exactly what they say, if its encoding, channels and width are known, and otherwise gives exit code 4 |
| WavPlans.PartMissing | apps/wavplay.c:221-225 | Without a format or without data the exit code is 4 |
| WavFile.PlayFile | apps/wavplay.c:173-247 | The exit code tells what was wrong, and with code 0 the device has the whole sound; there is no exit code when the walk leaves the file |
| ProgramManager.EveryRun | apps/progman/program.c:193-316 | In every run of add, delete, copy and move the links form well-formed lists and no group is lost |
| ProgramManager.DeleteGroupExact | apps/progman/group.c:241-264 | Deleting a group ends, and removes the group and exactly its own programs |
| ProgramManager.EmptyGroupExact | apps/progman/group.c:255-256 | The loop that deletes the first program removes exactly the programs of the group |
| ProgramManager.MoveConserves | apps/progman/program.c:238-265 | A move keeps the number of programs and the moved program's data; no program is lost or doubled |
| ProgramManager.StepSettled | apps/progman/group.c:135-166 | After every operation every group is in the list |
| ProgmanLaws.NewGroupMeans | apps/progman/group.c:110-190 | A new group comes last, empty and active, with a number above all others; nothing else changes |
| ProgmanLaws.NewProgramMeans | apps/progman/program.c:165-231 | A new program comes last in its group and is active there; nothing else changes |
| ProgmanLaws.RemoveProgramMeans | apps/progman/program.c:288-316 | A deleted program leaves its group, the others keep their order, and the group has no active program |
| ProgmanLaws.CopyMeans | apps/progman/program.c:238-265 | A copy is a new last program of the target with the same item; a move then deletes the old one |
| ProgmanLaws.RemoveGroupMeans | apps/progman/group.c:241-264 | A deleted group leaves the list with all its programs, and every other stays in order |
| ProgmanOps.LinkProgramKeeps | apps/progman/program.c:193-215 | Adding a program keeps all links mirrored, group pointers right and active handles alive |
| ProgmanOps.UnlinkProgramKeeps | apps/progman/program.c:288-301 | Deleting a program from anywhere in its list keeps the same |
| ProgmanOps.LinkGroupNumbers | apps/progman/group.c:137-148 | The number a new group gets is above all others, so numbers grow along the list |
| ProgmanOps.LinkGroupLists | apps/progman/group.c:137-166 | Adding a group keeps all lists linked |
| ProgmanOps.UnlinkGroupLists | apps/progman/group.c:245-253 | Taking a group out of the list leaves every program list, its own included, intact |
| ProgmanLists.ChainAppend | apps/progman/program.c:195-207 | A node linked behind the last one extends the list by itself |
| ProgmanLists.ChainBypass | apps/progman/program.c:295-301 | Linking a node's neighbours with each other takes exactly that node out |
| ProgramManager.Memory.NewGroup | apps/progman/group.c:110-190 | The tail loop and the assignments add the group as on values |
| ProgramManager.Memory.NewProgram | apps/progman/program.c:165-231 | The tail loop and the assignments add the program as on values |
| ProgramManager.Memory.DropProgram | apps/progman/program.c:288-316 | The assignments take the program out as on values |
| ProgramManager.Memory.DropGroup | apps/progman/group.c:241-264 | Unlinking, emptying and freeing a group as on values |
| GroupFile.GroupWriter.Write | apps/progman/grpfile.c:479-500 | After any non-empty write the checksum is that of all bytes written so far |
| GroupFile.GroupWriter.WriteAll | apps/progman/grpfile.c:479-500 | However the bytes are cut into non-empty writes, the checksum depends on the bytes alone |
| GroupFile.ChecksumIs | apps/progman/grpfile.c:485-497 | The checksum is minus the sum of the complete words plus 256 for each byte of 0x80 or above at an even position, modulo 65536 |
| GroupFile.ChecksumPlain | apps/progman/grpfile.c:462-477 | It is the documented minus sum of words if and only if those bytes number a multiple of 256 |
| GroupFile.ChecksumLow | apps/progman/grpfile.c:462-477 | For bytes below 0x80 it is the documented sum, a last odd byte ignored |
| GroupFile.ChecksumExample | apps/progman/grpfile.c:494-497 | A single byte 0x80 leaves 256 where the documented sum is 0 |
| GroupLayout.WriteGroup | apps/progman/grpfile.c:508-634 | The writer's loops produce header, table, title and entries |
| GroupExtension.WriteGroupFile | apps/progman/grpfile.c:508-730 | The whole file is header, table, title, entries and, where a program needs it, the extension records, with the checksum of all of it stored at offset 4 last |
| GroupExtension.ExtensionBack | apps/progman/grpfile.c:293-334 | Scanned from where they start, the extension records give back every program's working directory, hot key and show command, a show command of zero as the normal one |
| GroupExtension.ExtensionExact | apps/progman/grpfile.c:703-711 | They come back unchanged if and only if the show command is not zero, because the writer leaves that record out |
| GroupExtension.ShowExample | apps/progman/grpfile.c:703-711 | A program with show command 0 comes back with the normal one |
| GroupExtension.ScanExtension | apps/progman/grpfile.c:297-334 | The reader's loop over the records is the fold that theorem is about |
| GroupExtension.FileSum | apps/progman/grpfile.c:724-727 | The words of the finished file add up to zero modulo 65536 if and only if the bytes of 0x80 or above at even positions number a multiple of 256 |
| GroupLayout.EntryFound | apps/progman/grpfile.c:575-634 | Through the program table every entry is found where it was written |
| GroupLayout.StringsFound | apps/progman/grpfile.c:605-628 | The three string offsets of an entry lead to its strings |
| GroupLayout.ExtensionOffset | apps/progman/grpfile.c:542-554 | The 16-bit extension offset the header stores is the end of the written part, modulo 65536, if and only if the sizes of the icons, which it counts and which are not written, add up to a multiple of 65536 |
| GroupLayout.OffsetExample | apps/progman/grpfile.c:542-554 | A group of one program without strings: 76 is stored for a file of 64 bytes; with an icon of 65536 bytes it is 64 |
| GroupReader.FrontBack | apps/progman/grpfile.c:170-208 | The reader finds in a written file below 64 KiB the magic, the low 16 bits of every window field, the title and the number of programs |
| GroupReader.ProgramBack | apps/progman/grpfile.c:210-291 | Through the table it finds for every program the place, the icon index and type and the three strings that were written |
| GroupReader.GroupFileBack | apps/progman/grpfile.c:155-291 | Both hold for the finished file, with its checksum and its extension |
| GroupExtension.ExtensionReached | apps/progman/grpfile.c:542-554 | The finished file's header points at its extension if and only if that offset fits 16 bits and the icons add up so |
| GroupExtension.FileExtensionBack | apps/progman/grpfile.c:155-334 | Then the reader, starting where the header says, gets back every program's working directory, hot key and show command |

## Left out

Registry editor:

- Non-Unicode files, the usual form of REGEDIT4: `get_lineA` and the code-page conversions depend on functions that are not part of this model; the model starts after the byte order mark of a Unicode file.
- The `__REACTOS__` branches: the applications are built without that macro (`mk/apps.mk`), so the other branches are followed, with `error_exit` ending the run.
- Registry calls themselves: `RegCreateKeyExW` succeeds exactly on paths without empty components, writes and deletions take effect on a store of keys, and access errors do not occur. Allocations succeed.
- Case folding is that of the C locale (ASCII letters); `unsigned long` has 32 bits.
- RegRoundTrip.RoundTrip: key names must be non-empty and free of NUL, line breaks and backslashes, and subkeys of a key distinct up to case, as in any registry; the largest 32-bit type number is excluded when a stale `errno` says overflow, because the importer refuses it then.
- RegExport.SeenUnlines: a one-byte string is excluded: its length wraps around and its escaped copy overruns the block allocated for it.
- RegWriter.ExportFileWriter.WriteValue: the same. Whole trees are exported with dwords of four bytes or more, or none.
- The C library: `wcstoul` is that of the C standard with the white space of `iswspace` (`dlls/kernel32/win32_surface.c:74`), although the repository's own stand-ins (`kernel/core/util.c:51`, `dlls/kernel32/win32_surface.c:72`) know no signs, prefixes or overflow.
- `export_all` and the choice of export file format: they repeat the export of one key.
- find.c: aborting (`DoEvents`), names longer than its buffers and keys that do not open are foreign behaviour; starting from a key that is not there is not modelled.
- hexedit.c: mouse handling, the ASCII field and the caret's row and column; the last follow the index except after SelectAll and clicks.

Command prompt:

- CmdPath.ResolveDirectory: the canonical path is not bounded by the 256-byte buffers; the result is the program's for paths that fit them. The copy of the input is cut at 255 characters as in the source.
- `resolve_exec_path`, launching programs, DIR and the scroll bar: they use the resolver without adding to it.
- Sectors are 2048 bytes; a record that runs over the end of its sector reads arbitrary bytes there.

Shell:

- Docked tray icons: with docking the display index is decided by the host.
- TrayModel.EveryRun: windows are always created, and a timer message is only handled while its timer is set.
- Tooltips, painting and the tray window's own visibility.
- Appbar messages that only report a constant; work-area changes and multiple monitors.
- DesktopGrid.LookupOnDesktop: coordinates and indices do not overflow machine integers, and a negative index counts as past the last launcher.

WAV player:

- WavFile.WalkChunks: what the program does after its offset has wrapped around, in a file within nine bytes of 4 GiB, is not followed; it reads behind the file or starts over.
- Serial traces and reading the file from disc; allocations succeed.

Program Manager:

- Windows, dialogs and the strings of groups and programs, which are one opaque item per program; activation by the window manager.
- GroupExtension.WriteGroupFile: a failed write ends the program's function early and leaves a prefix, which is not modelled. Offsets are kept modulo 65536 as the writer does.
- GroupExtension.ExtensionBack: starts where the records are; `GroupExtension.ExtensionReached` says when the header points there.
- GroupReader.ProgramBack: icons are not read back, and files of 64 KiB and more, whose 16-bit offsets wrap, are excluded: icon bytes are compiled out of the writer while its offsets still count them, so the icons the reader expects are not there.

The remaining applications (notepad, start menu, control panel, and the editor's other windows) are user interface around system calls and would add only simple members.
