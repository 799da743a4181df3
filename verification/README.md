# A model of gltrace, WebTerminal, PNTMeshViewer and FXSlideShow

This project models four programs of the repository and proves what they are for.

- **gltrace** (`tools/gltrace`) records every GL call of an application in a log and replays the log. `Wire`
  holds the layout of the fields and the readers that undo it; `IoLib` the writer, which fills a file through
  a window of one megabyte; `Gles` and `Interposer` what each intercepted call puts into the log, as a
  specification and as the program that does it; `Retrace` and `Replayer` the decoder, as functions and as
  the program; `LockStep` the theorem that ties the two sides, and `LastCalls` what both sides' state and the
  draw records are in terms of the calls alone; `TraceLock` the locking protocol, and `SharedLog` what it makes
  of the log of many threads.
- **WebTerminal** (`apps/experiments/WebTerminal`) is a terminal whose screen is a document tree. `Dom` holds the
  tree, positions in it, and the line and column `delta2D` counts; `Terminal` the walk of `moveTo`;
  `CursorMotion` the moves by characters and lines; `LineEdit` inserting, deleting and scrolling lines;
  `Styles`, `SgrProperties` and `AdjustStyle` the text styles; `OutputParser`, `OutputRuns` and `OutputActions`
  the escape sequence parser, and `TerminalScreen` the document as the screen it talks to;
  `NodeWriter` the escaping printer.
- **PNTMeshViewer** (`apps/toys/FX8-3DFeatures`) cuts a grid into triangles: `TriangleMesh` builds and refreshes the
  arrays, `MeshEdges` shows that they form a disk, and `MeshGeometry` where it lies.
- **FXSlideShow** (`apps/toys/FXSlideShow`) shows images while the next ones load: `SlideShow`.

How to read it: code that changes state is a class or a method with loops, proved equal to a function of the
old state; the lemmas about that function are the properties. A document is compared with another as a
sequence of items (`Dom.Flat`): characters, breaks, and span boundaries. An integer is unbounded except where
the code depends on its width: C ints in the log, Java ints in control sequence parameters. Real numbers
stand for Java floats and doubles.

Where the code does not do what its documentation or its caller expects, the model follows the code, a lemma
gives an input, and another says exactly when the expectation holds:

- `moveTo` past the last line keeps the column count of that line, so it stops short of the goal
  (`Terminal.MissedGoal`, `Terminal.LandingIff`, `Terminal.Terminal.MoveTo`); `cursorDown` inherits this
  (`CursorMotion.CursorDown`).
- The shortcut of `cursorLeft` takes a tab for one column (`CursorMotion.CarriedTab`,
  `CursorMotion.ShortcutLandsIff`).
- `adjustStyle` counts the styled spans that do not match but leaves that many spans of any kind
  (`AdjustStyle.UnstyledSpanKeepsRed`, `AdjustStyle.AdjustedIff`, `AdjustStyle.AdjustedIsCurrent`).
- `insertString` takes the column after a line feed from a cache that may be unknown, and then places the text
  that follows one column short (`OutputRuns.LineFeedLosesTheColumn`, `OutputRuns.SplitsAlikeIff`).
- What `writeData` prints cannot always be read back, since a run prints like one character and the text of its
  count (`NodeWriter.RunAndItsCountCollide`); it can exactly for the texts that have no such count of their own
  (`NodeWriter.ReadsBackIff`), and of texts that print alike at most one is of that kind
  (`NodeWriter.ClearTextsDiffer`). A minimum of 0, documented as turning abbreviation off, puts a count after
  every character (`NodeWriter.ZeroCountsEveryCharacter`).
- A shader source passed with an explicit length of zero is replayed as the whole string
  (`LockStep.ZeroLengthIsReplayed`, `LockStep.ShaderTextSurvives`).
- The block of vertices logged for a draw call can miss vertices it draws, and holds none for a triangle
  (`Gles.TriangleIsLost`, `Gles.DrawCovered`).
- An image whose task fails after the show has come to its file stays missing while the show stays there;
  stepping on and back puts it on view, as the icon for broken images
  (`SlideShow.FailedThenShown`, `SlideShow.TellingShowsIff`). A task given up before it runs is not cancelled
  (`SlideShow.RunningIsCancelled`, `SlideShow.CancelledIffGivenUp`).
- `adjustStyle` with nothing to adjust still leaves the innermost span if that gives no property
  (`AdjustStyle.Adjust`).

Standards are cited by name: ECMA-48 (control sequences, section 5.4; IL and DL, sections 8.3.67 and 8.3.32;
SGR, section 8.3.117).

## Model

| member | source | states |
|---|---|---|
| Wire.EncFieldAligned | tools/gltrace/iolib.c:176-314 | every field occupies a positive multiple of four bytes, whatever is put |
| Wire.TakeInt | tools/gltrace/iolib.c:344-351 | `getInt` undoes `putInt` at any field boundary of the file and stops where the next field starts |
| Wire.TakeIntPtr | tools/gltrace/iolib.c:353-367 | `getIntPtr` undoes `putIntPtr`: NULL, the marker value itself and every other int come back, and the position is that of the next field |
| Wire.TakeLong | tools/gltrace/iolib.c:393-400 | an eight-byte time comes back |
| Wire.TakePtr | tools/gltrace/iolib.c:402-409 | a pointer of the recorded word size comes back, sign-extended if it has four bytes |
| Wire.WidenKeepsTheSign | tools/gltrace/iolib.c:402-409 | a pointer of four bytes keeps its signed value when it is read back, one of eight its bits |
| Wire.TakeString | tools/gltrace/iolib.c:411-421 | `getString` undoes `putString`, padding included; a NULL string reads as the empty one |
| Wire.TakeBytes | tools/gltrace/iolib.c:423-436 | `getBytes` undoes `putBytes`, padding included; an empty block reads as NULL |
| Wire.PrefixFree | tools/gltrace/iolib.c:176-314 | of two fields of one kind, neither encoding is a prefix of the other, and equal encodings are of equal fields |
| IoLib.TraceWriter.constructor | tools/gltrace/iolib.c:51-74 | a new log consists of the five header fields |
| IoLib.TraceWriter.Enlarge | tools/gltrace/iolib.c:126-154 | mapping the next window keeps every byte put so far and leaves the position at its start |
| IoLib.TraceWriter.Copy | tools/gltrace/iolib.c:232-309 | a copy of any length, over any number of windows, appends exactly its bytes, and keeps the position a multiple of four if the length is one |
| IoLib.TraceWriter.Pad | tools/gltrace/iolib.c:270-314 | padding appends zeros up to the next multiple of four and never needs a new window |
| IoLib.TraceWriter.PutInt | tools/gltrace/iolib.c:176-183 | appends the field, or nothing inside a nested call; the position stays a multiple of four, so no word straddles two windows |
| IoLib.TraceWriter.PutIntPtr | tools/gltrace/iolib.c:185-202 | the same for an optional int, escaped by the marker |
| IoLib.TraceWriter.PutLongLong | tools/gltrace/iolib.c:232-249 | the same for a time |
| IoLib.TraceWriter.PutPtr | tools/gltrace/iolib.c:251-268 | the same for a pointer |
| IoLib.TraceWriter.PutString | tools/gltrace/iolib.c:270-292 | the same for a string, NULL as the empty one |
| IoLib.TraceWriter.PutBytes | tools/gltrace/iolib.c:294-314 | the same for a block of bytes |
| IoLib.TraceWriter.PutCmd | tools/gltrace/iolib.c:160-174 | opens a record if none is open, with the thread's prefix exactly when another thread opened the last one |
| IoLib.TraceWriter.PutTime | tools/gltrace/iolib.c:316-329 | closes the record with both times and lowers the counter |
| IoLib.TraceWriter.Fini | tools/gltrace/iolib.c:110-120 | the file left is exactly the concatenation of the encodings of all fields put: nothing lost or duplicated at a window boundary, and only the unused tail cut off |
| Gles.PackedKeepsFetches | tools/gltrace/gles.c:194-207 | vertex j of the packed block is the bytes the driver fetched at pointer + j * effective stride |
| Gles.VertexCovered | tools/gltrace/gles.c:134-167 | the packed block holds a vertex exactly if its index is below count/6*4, and then holds what the driver fetched |
| Gles.DrawCovered | tools/gltrace/gles.c:134-207 | every vertex a draw call draws is in the block exactly if the largest index is below count/6*4 |
| Gles.TriangleIsLost | tools/gltrace/gles.c:164-206 | for three indices the estimate is no vertex, and an empty block is logged |
| Gles.CountByLargestIndex | tools/gltrace/gles.c:137-163 | the other vertex count is the least one above every index drawn |
| Gles.DrawnVerticesCovered | tools/gltrace/gles.c:134-207 | with it every vertex drawn is in the block, as the driver fetched it |
| Gles.TypeSizes | tools/gltrace/gles.c:66-82 | which types have a size, and which: one, two or four bytes |
| Gles.VerticesOfQuads | tools/gltrace/gles.c:164-166 | the estimate takes four vertices for each complete group of six indices, with C's rounding for negative counts |
| Gles.FetchedByte | tools/gltrace/gles.c:194-207 | byte k of vertex j is the byte of client memory at pointer + j * stride + k, the stride being the element size when it is not positive |
| Interposer.Interposer.Repack | tools/gltrace/gles.c:195-205 | the copy loops leave the packed vertices in a buffer they never overrun |
| Interposer.Interposer.PutVertexAttribs | tools/gltrace/gles.c:180-207 | the log gets one packed block for each enabled attribute, in order, through one buffer of the largest size |
| Interposer.Interposer.PutDraw | tools/gltrace/gles.c:962-980 | the fields of a draw call are those its state-dependent layout asks for, or the tracer gives up on an unknown type |
| Interposer.Interposer.PutSources | tools/gltrace/gles.c:1711-1721 | each shader source is logged by its length if that is positive and up to its NUL otherwise |
| Interposer.Interposer.UpdateAttribs | tools/gltrace/gles.c:1005-1020 | enabling and disabling set the flag of the attribute named and no other field, pointing sets its other five fields, and every other attribute and both bindings stay |
| Interposer.Interposer.UpdateBindings | tools/gltrace/gles.c:273-280 | a bind sets the binding of its own target and leaves the other; any other target changes neither |
| Interposer.Interposer.Intercept | tools/gltrace/gles.c:261-283 | an outermost call adds its whole record and moves the tracer's state on; a nested one adds nothing |
| LastCalls.BindingsAreLastBound | tools/gltrace/gles.c:261-283 | after any traced calls each of the tracer's bindings is the buffer of the last bind of its own target, or 0 |
| LastCalls.AttribsAreLastSet | tools/gltrace/gles.c:2225-2250 | an attribute is enabled exactly if the last call that enables or disables it enables it; size, type, normalization, stride and pointer are those of the last glVertexAttribPointer for it, or 0 |
| Replayer.Replayer.Apply | tools/gltrace/retrace.c:2514-2522 | the same field by field on the reader's side, size, type and normalization only when commands are executed |
| LastCalls.ReaderBindingsAreLastBound | tools/gltrace/retrace.c:2514-2522 | on any bytes whatever and for any number of frames, each of the reader's bindings is the buffer of the last bind of its target it handed on, or 0 |
| LastCalls.ReaderAttribsAreLastSet | tools/gltrace/retrace.c:951-1026 | the reader's flags and copies follow the last commands that name the attribute in the same way |
| LastCalls.DrawFollowsTheBindings | tools/gltrace/gles.c:962-980 | a draw call anywhere in a traced run is replayed with an offset exactly if the last bind of the element target before it was to a buffer, and with blocks of vertices exactly for the attributes last enabled, and only if no array buffer was bound last |
| LockStep.Dispatch | tools/gltrace/retrace.c:2486-3641 | no opcode is claimed by two readers: each call's opcode selects the reader of its own fields |
| LockStep.DrawDecodes | tools/gltrace/retrace.c:2802-2817 | while the states agree, the decoder of a draw call reads just the fields the tracer wrote and returns the fetched vertices |
| LockStep.ShaderSourceDecodes | tools/gltrace/retrace.c:3128-3147 | all sources of a shader come back with their lengths |
| LockStep.StateFollows | tools/gltrace/retrace.c:2513-2524 | a decoded command changes the reader's bindings and its copies of each attribute's state, size, type and normalization as the call changed the writer's |
| LockStep.RecordDecodes | tools/gltrace/retrace.c:2473-3659 | decoding a record gives the thread, the command and the times recorded, stops at the next record, and keeps both states in agreement |
| LockStep.LockStep | tools/gltrace/retrace.c:2468-3659 | for every sequence of traceable outermost calls the decoder returns what each call asked of the driver, consumes the file exactly, and ends with its state equal to the tracer's |
| LockStep.LogReplays | tools/gltrace/iolib.c:93-105 | the same from the header on: the log is recognised and replayed to its end |
| LastCalls.EventsCarryTheCalls | tools/gltrace/retrace.c:2468-3659 | the k-th event replayed has the thread, the times and, argument by argument and byte by byte, the arguments of the k-th call |
| LastCalls.IndicesComeBack | tools/gltrace/gles.c:962-980 | the indices of a replayed draw call are the bytes the application pointed at, as many as count and type say, or its offset |
| LockStep.ReplayFetchesTheSame | tools/gltrace/retrace.c:286-308 | for every block of a replayed draw call and every vertex j in it, replay's driver, told replay's own size, type and normalization and stride 0, fetches the bytes that the traced driver fetched |
| LockStep.ShaderTextSurvives | tools/gltrace/retrace.c:3133-3145 | replay compiles the text the application compiled exactly if it did not pass a nonempty string with length zero |
| LockStep.ZeroLengthIsReplayed | tools/gltrace/retrace.c:3133-3145 | one byte with length zero: nothing was compiled, the byte is replayed |
| Retrace.ProcessInSteps | tools/gltrace/retrace.c:2468-3659 | replaying m frames and then f - m more is the same as replaying f frames |
| Replayer.Replayer.GetIntPtr | tools/gltrace/iolib.c:353-367 | the reader with a moving cursor computes the reader function |
| Replayer.Replayer.GetString | tools/gltrace/iolib.c:411-421 | the same, with the rounding the code does itself |
| Replayer.Replayer.GetBytes | tools/gltrace/iolib.c:423-436 | the same for blocks, including sizes that do not fit the file |
| Replayer.Replayer.GetDraw | tools/gltrace/retrace.c:2802-2817 | the draw case of the switch computes the decoder function of the current state |
| Replayer.Replayer.GetCommand | tools/gltrace/retrace.c:2486-3641 | the switch computes the decoder function, or stops where that does |
| Replayer.Replayer.Turn | tools/gltrace/retrace.c:2473-3659 | one turn of the loop, with the thread prefix and the state changes |
| Replayer.Replayer.Process | tools/gltrace/retrace.c:2468-3659 | the loop returns the events, the state and the position of the recursive decoder, for every number of frames |
| Replayer.RecordAll | tools/gltrace/gles.c:261-283 | tracing a sequence of calls leaves the log of that sequence |
| Replayer.RecordAndReplay | tools/gltrace/retrace.c:2468-3659 | both programs end to end: replaying the file the tracer leaves gives what every call asked of the driver, in order |
| TraceLock.AlwaysExclusive | tools/gltrace/iolib.c:156-174 | in every interleaving at most one thread is in a call or in `putCmd`/`endCmd`, and the counter follows the lock |
| TraceLock.ReentranceIsLockDepth | tools/gltrace/iolib.c:324-329 | `reentrance` is the depth of the recursive lock whenever no thread is between the two |
| TraceLock.AlwaysShaped | tools/gltrace/iolib.c:160-174 | at every step the log is whole records one after another, with a prefix exactly where the thread changes, and at most a prefix that waits for its opcode |
| TraceLock.LogIsSerial | tools/gltrace/iolib.c:160-174 | in every interleaving and nesting, outside `putCmd` the raw log is its outermost records written one after another, which a decoder that takes a prefix only in front of an opcode reads off |
| TraceLock.AlwaysAgrees | tools/gltrace/iolib.c:160-174 | at every step the log so far attributes to a thread the records it would have logged alone |
| TraceLock.EachThreadAsIfAlone | tools/gltrace/retrace.c:2475-2484 | the decoder reads any log to its end and gives each thread exactly its own outermost records, complete and in order |
| TraceLock.NeverStuck | tools/gltrace/iolib.c:156-174 | no deadlock: from every reachable state the thread that holds the lock can free it by its own steps, after which every thread can make a call, and while it runs it can make nested ones |
| SharedLog.SerialIsLog | tools/gltrace/iolib.c:160-174 | records written one after another with prefixes at thread changes are the log of the calls they belong to |
| SharedLog.EveryInterleavingReplays | tools/gltrace/retrace.c:2468-3659 | in every interleaving of any number of threads whose outermost records are those of some calls, replay of the file gives what each call asked of the driver, with its thread |
| Dom.FlatRebuild | apps/experiments/WebTerminal/src/webterminal/WebTerminal.java:1593-1640 | the document is what is before a position in the tree, what is at it and what is after it |
| Dom.DeltaNodesFlat | apps/experiments/WebTerminal/src/webterminal/WebTerminal.java:1836-1885 | the recursive count of `delta2D` over the tree is the count over its items, up to the stop node if it is there |
| Dom.ColumnRules | apps/experiments/WebTerminal/src/webterminal/WebTerminal.java:1799-1834 | a character is one column wide, a zero-width space none, and a tab goes on to the next multiple of eight |
| Terminal.DeltaAtCursor | apps/experiments/WebTerminal/src/webterminal/WebTerminal.java:183-187 | `delta2D` finds the input line where the items before it say |
| Terminal.WalkText | apps/experiments/WebTerminal/src/webterminal/WebTerminal.java:1671-1704 | the scan of one text node passes it whole, or splits it at the goal after putting in spaces in front of a newline only |
| Terminal.Terminal.MergeText | apps/experiments/WebTerminal/src/webterminal/WebTerminal.java:1660-1670 | merging adjacent text nodes changes no item |
| Terminal.Terminal.Walk | apps/experiments/WebTerminal/src/webterminal/WebTerminal.java:1636-1773 | the main loop ends, and changes nothing but the padding at its end: every character, break and span boundary stays in order; of the positions at the goal it takes the first, or leaves the spans that end there, and it does not stop at the end of a span |
| Terminal.Terminal.MoveTo | apps/experiments/WebTerminal/src/webterminal/WebTerminal.java:1583-1792 | from the cached position or from home, the cursor by `delta2D` ends at the goal, the cache agrees, and the document changes by padding only; it is the first position at the goal unless the cache already had the goal, and then nothing moves; cache and cursor agree exactly if the line exists, the column is 0, or the document ends at a line start |
| Terminal.Terminal.MoveDown | apps/experiments/WebTerminal/src/webterminal/WebTerminal.java:1073-1076 | moving down from the cursor ends at the start of that many lines further down |
| Terminal.Terminal.CursorLineStart | apps/experiments/WebTerminal/src/webterminal/WebTerminal.java:1073-1078 | both ways of going to a line start end there |
| Terminal.Terminal.UpdateCursorCache | apps/experiments/WebTerminal/src/webterminal/WebTerminal.java:183-187 | the cache is set to the cursor's place |
| Terminal.Terminal.GetCursorLine | apps/experiments/WebTerminal/src/webterminal/WebTerminal.java:192-196 | the line, cached or counted, is the cursor's |
| Terminal.Terminal.GetCursorColumn | apps/experiments/WebTerminal/src/webterminal/WebTerminal.java:201-205 | the column, cached or counted, is the cursor's |
| Terminal.LandingIff | apps/experiments/WebTerminal/src/webterminal/WebTerminal.java:1742-1757 | the walk lands on the goal exactly if the goal is reachable |
| Terminal.MissedGoal | apps/experiments/WebTerminal/src/webterminal/WebTerminal.java:1742-1757 | one line "ab", goal line 1 column 3: the cursor ends in column 1 |
| CursorMotion.NoPadWithin | apps/experiments/WebTerminal/src/webterminal/WebTerminal.java:1636-1773 | a move to a place the document already has adds nothing |
| CursorMotion.TrailingChars | apps/experiments/WebTerminal/src/webterminal/WebTerminal.java:1103-1123 | the backward scan gives a number of characters only if they count for the columns asked for and stay on the line |
| CursorMotion.ShortcutLandsIff | apps/experiments/WebTerminal/src/webterminal/WebTerminal.java:1107-1137 | taking the columns so counted off the cached column is right exactly if every tab carried is one column wide, and always without tabs |
| CursorMotion.CarriedTab | apps/experiments/WebTerminal/src/webterminal/WebTerminal.java:1107-1137 | "a" and a tab: the cache says column 7, the cursor stands in column 1 |
| CursorMotion.CarryAcross | apps/experiments/WebTerminal/src/webterminal/WebTerminal.java:1124-1138 | carrying text across the input line keeps every character |
| CursorMotion.CursorLeft | apps/experiments/WebTerminal/src/webterminal/WebTerminal.java:1096-1143 | by the shortcut or by the walk the cursor goes left on its line, the document does not change, and the cache is right |
| CursorMotion.CursorRight | apps/experiments/WebTerminal/src/webterminal/WebTerminal.java:1084-1094 | moving right always lands, with spaces added where the line is too short |
| CursorMotion.CursorDown | apps/experiments/WebTerminal/src/webterminal/WebTerminal.java:1080-1082 | moving down keeps the column and leaves cache and cursor in agreement exactly if the line exists, the column is 0, or the document ends at a line start |
| LineEdit.EraseCharactersRight | apps/experiments/WebTerminal/src/webterminal/WebTerminal.java:962-1062 | a stretch without a line end goes: it covers the columns asked for, or reaches the line end, and without its last character it covers fewer; nothing goes for 0 and the rest of the line for a negative count; the cursor and everything else stay |
| LineEdit.DeleteLinesIgnoreScroll | apps/experiments/WebTerminal/src/webterminal/WebTerminal.java:868-891 | the rest of the line and its end go, count times, while there is one |
| LineEdit.InsertLinesIgnoreScroll | apps/experiments/WebTerminal/src/webterminal/WebTerminal.java:855-866 | count line ends come in behind the cursor |
| LineEdit.InsertLines | apps/experiments/WebTerminal/src/webterminal/WebTerminal.java:893-899 | IL: n blank lines at the cursor, the old lines shift down by n, those past the region's bottom are gone, and no line above the cursor or from the bottom on changes |
| LineEdit.DeleteLines | apps/experiments/WebTerminal/src/webterminal/WebTerminal.java:901-907 | DL from column 0: the lines shift up by n, blank lines come in above the bottom, and no line outside changes |
| LineEdit.ScrollForward | apps/experiments/WebTerminal/src/webterminal/WebTerminal.java:909-917 | scrolling forward shifts the region's lines up by n with blank lines at the bottom, changes no line outside, and returns the cursor to the start of its line |
| LineEdit.ScrollReverse | apps/experiments/WebTerminal/src/webterminal/WebTerminal.java:919-926 | scrolling back shifts them down |
| LineEdit.DeleteUndoesInsert | apps/experiments/WebTerminal/src/webterminal/WebTerminal.java:893-907 | deleting as many lines as were inserted restores every line but those that had been pushed past the bottom |
| Styles.InForceSnoc | apps/experiments/WebTerminal/src/webterminal/WebTerminal.java:719-731 | taking a property's entries out and adding the new one at the end keeps the list equal to what is in force after all changes: each property as last set, in the order of those last settings |
| Styles.NoEntryUnlessSet | apps/experiments/WebTerminal/src/webterminal/WebTerminal.java:719-731 | a property no change mentions has no entry |
| Styles.OneEntryPerProperty | apps/experiments/WebTerminal/src/webterminal/WebTerminal.java:719-731 | after any changes no property has two entries |
| Styles.StyleList.PushSimpleStyle | apps/experiments/WebTerminal/src/webterminal/WebTerminal.java:719-731 | the removal loop and the addition make one change |
| Styles.StyleList.ApplyCode | apps/experiments/WebTerminal/src/webterminal/WebTerminal.java:571-617 | an SGR code makes the changes of its own effect table; unknown codes none |
| Styles.StyleList.SelectGraphicRendition | apps/experiments/WebTerminal/src/webterminal/WebTerminal.java:569-620 | after any sequence of codes the list is the last-writer-wins list of their effects |
| SgrProperties.EachAsLastSet | apps/experiments/WebTerminal/src/webterminal/WebTerminal.java:569-620 | after any codes each property by itself has the value that the last code concerning it gives, and no entry if there was none or it gives the default |
| SgrProperties.EntryText | apps/experiments/WebTerminal/src/webterminal/WebTerminal.java:571-617 | the entries as they stand in a style attribute |
| AdjustStyle.PropsOfJoin | apps/experiments/WebTerminal/src/webterminal/WebTerminal.java:771-811 | taking a style attribute apart gives back the styles `adjustStyle` put together |
| AdjustStyle.PropsReadPieces | apps/experiments/WebTerminal/src/webterminal/WebTerminal.java:771-797 | any attribute is read piece by piece between semicolons, blanks around the pieces ignored and empty pieces left out |
| AdjustStyle.StyledRebuild | apps/experiments/WebTerminal/src/webterminal/WebTerminal.java:828-853 | the document's pairs of a character and its styles are those before a position and those after it |
| AdjustStyle.PopStyle | apps/experiments/WebTerminal/src/webterminal/WebTerminal.java:828-853 | leaving a span, which may split it, keeps every character's styles and the cursor's place |
| AdjustStyle.MatchSpan | apps/experiments/WebTerminal/src/webterminal/WebTerminal.java:768-793 | the piecewise comparison succeeds exactly if the span's properties are the next ones wanted |
| AdjustStyle.EnterSpan | apps/experiments/WebTerminal/src/webterminal/WebTerminal.java:804-820 | the new span adds the missing styles around the cursor and restyles no text |
| AdjustStyle.Adjust | apps/experiments/WebTerminal/src/webterminal/WebTerminal.java:741-821 | however many spans are split, every character keeps its styles and the cursor its place. Of the styled spans around the cursor as many are kept as give a beginning of the current styles and no more can be; as many spans are left as there are other styled ones, and one new span gives what is missing. Among styled spans whose styles are already the current ones nothing changes at all, unless the innermost gives no property |
| AdjustStyle.MatchesOnce | apps/experiments/WebTerminal/src/webterminal/WebTerminal.java:758-803 | there is only one such number of spans to keep |
| AdjustStyle.AdjustedIff | apps/experiments/WebTerminal/src/webterminal/WebTerminal.java:741-821 | the styles around the cursor are then the current ones exactly if the styled spans that stay beyond the matching ones give no property |
| AdjustStyle.AdjustedIsCurrent | apps/experiments/WebTerminal/src/webterminal/WebTerminal.java:741-821 | they are if every span left carries a style, and only then when every styled span gives a property |
| AdjustStyle.AdjustedAmongStyledSpans | apps/experiments/WebTerminal/src/webterminal/WebTerminal.java:741-821 | which they do when every enclosing span is styled |
| AdjustStyle.StaysStyled | apps/experiments/WebTerminal/src/webterminal/WebTerminal.java:804-820 | and adjusting keeps it so |
| AdjustStyle.UnstyledSpanKeepsRed | apps/experiments/WebTerminal/src/webterminal/WebTerminal.java:800-803 | an unstyled span inside a red one: with no styles wanted the cursor stays in red |
| AdjustStyle.AdjustAfterSgr | apps/experiments/WebTerminal/src/webterminal/WebTerminal.java:569-821 | any run of SGR codes, then adjusting among styled spans: the text to come gets each property as the codes last set it |
| OutputParser.TerminalOutput.PushParameter | apps/experiments/WebTerminal/src/webterminal/WebTerminal.java:1207-1217 | a semicolon appends the parameter to an array that is always long enough when indexed, however many there are |
| OutputParser.TerminalOutput.InSequence | apps/experiments/WebTerminal/src/webterminal/WebTerminal.java:1176-1257 | the states inside a control sequence do the parser's step |
| OutputParser.TerminalOutput.ControlCharacter | apps/experiments/WebTerminal/src/webterminal/WebTerminal.java:1259-1319 | so do the control characters, taking a carriage return and line feed as one where the code does |
| OutputParser.TerminalOutput.InText | apps/experiments/WebTerminal/src/webterminal/WebTerminal.java:1258-1333 | and the batching of text with its wraps |
| OutputParser.TerminalOutput.InsertString | apps/experiments/WebTerminal/src/webterminal/WebTerminal.java:1167-1341 | for every string and start state the batched stretches of text and the actions are those of a parser that takes one character at a time |
| OutputRuns.ShowsTheVisible | apps/experiments/WebTerminal/src/webterminal/WebTerminal.java:1167-1341 | each character is shown once, in order, or consumed by one control: the text shown is the characters outside controls, found without looking at the screen |
| OutputRuns.SameTextHoweverSplit | apps/experiments/WebTerminal/src/webterminal/WebTerminal.java:1167-1173 | the text shown is the same however the output is cut into calls |
| OutputRuns.LosesColumnIff | apps/experiments/WebTerminal/src/webterminal/WebTerminal.java:1256-1333 | the parser does not know the column exactly after a form feed, a line feed on its own, a backspace or a tab outside sequences that leaves nothing cached, followed by bells and zero-width characters only |
| OutputRuns.SplitsAlikeIff | apps/experiments/WebTerminal/src/webterminal/WebTerminal.java:1167-1341 | cutting anywhere but between CR and LF gives the same text, wraps and actions for all that follows exactly if the text before the cut does not so lose the column |
| OutputRuns.ReturnFeedSplitsAlikeIff | apps/experiments/WebTerminal/src/webterminal/WebTerminal.java:1260-1272 | cutting between CR and LF gives the same exactly on the last line of the scroll region |
| OutputRuns.LineFeedLosesTheColumn | apps/experiments/WebTerminal/src/webterminal/WebTerminal.java:1273-1292 | in line editing mode the column is unknown after a line feed, and a character after it ends at column 0 instead of 1 |
| OutputRuns.ReadsControlSequence | apps/experiments/WebTerminal/src/webterminal/WebTerminal.java:1176-1227 | parsing ESC [ n1 ; ... ; nk final, with or without a question mark in front, gives back all parameters, missing ones included, for any k and any values a Java int holds |
| OutputActions.ReadsOperatingSystemCommand | apps/experiments/WebTerminal/src/webterminal/WebTerminal.java:1229-1257 | parsing ESC ] n ; text, ended by BEL or NUL, gives back number and text, whatever other controls the text holds |
| OutputActions.ShortSequences | apps/experiments/WebTerminal/src/webterminal/WebTerminal.java:1176-1202 | ESC 7, ESC 8 and ESC M save the cursor, restore it and index in reverse; after any other character but the brackets nothing is done |
| OutputActions.ControlCharacters | apps/experiments/WebTerminal/src/webterminal/WebTerminal.java:1259-1319 | what each single control character does, by the modes of the screen |
| OutputActions.LongTextWraps | apps/experiments/WebTerminal/src/webterminal/WebTerminal.java:1320-1333 | text too long for its line fills it to exactly the last column, and the rest goes on from column 0, behind a break exactly if long lines wrap |
| TerminalScreen.PlayedScreenIsSound | apps/experiments/WebTerminal/src/webterminal/WebTerminal.java:183-205 | a terminal that does what `moveTo` and text insertion are proved to do answers as the parser assumes of its screen |
| TerminalScreen.GoToLineStart | apps/experiments/WebTerminal/src/webterminal/WebTerminal.java:1073-1078 | `cursorLineStart` does what the parser takes a line start for |
| TerminalScreen.InsertSimpleOutput | apps/experiments/WebTerminal/src/webterminal/WebTerminal.java:1343-1376 | a stretch of text comes in at the cursor, outside insert mode in place of what lay in the columns up to the one the parser gave: the old text goes only that far and at most to the line end, none if the two columns are equal, and the rest of the line if the given one is smaller or unknown; the cache is right afterwards exactly if the text ends in the column given |
| TerminalScreen.TerminalScreensExist | apps/experiments/WebTerminal/src/webterminal/WebTerminal.java:183-205 | the parser's assumptions can be met by a screen with a document and a cursor |
| NodeWriter.NodeWriter.WriteData | apps/experiments/WebTerminal/src/webterminal/NodeWriter.java:74-112 | the loop, which writes untouched stretches late, writes the printed form of the text; text content then has no < and no >, an attribute value no quotation mark, neither anything below 32 nor, if only ASCII is wanted, from 127 on; every & starts an entity, and there is none without a special character |
| NodeWriter.PlainCharactersStay | apps/experiments/WebTerminal/src/webterminal/NodeWriter.java:74-112 | wherever it stands, a run of a character that needs no entity is written as itself, or as one with its count from the minimum on, and what is around it as by itself |
| NodeWriter.ReadsUnit | apps/experiments/WebTerminal/src/webterminal/NodeWriter.java:85-94 | a character, written plain, as a named entity or in hexadecimal, is read back as itself |
| NodeWriter.ReadsMarker | apps/experiments/WebTerminal/src/webterminal/NodeWriter.java:104-108 | so is a count |
| NodeWriter.ReadsBackIff | apps/experiments/WebTerminal/src/webterminal/NodeWriter.java:74-112 | in both modes, for every minimum, expanding counts and entities gives back the text exactly if no character outside an abbreviated run is followed by a whole `\[*n]` for an n that is printed |
| NodeWriter.ReadsBack | apps/experiments/WebTerminal/src/webterminal/NodeWriter.java:74-112 | every text without `\[*` comes back |
| NodeWriter.ClearTextsDiffer | apps/experiments/WebTerminal/src/webterminal/NodeWriter.java:74-112 | of texts that print alike at most one is of that kind |
| NodeWriter.RunAndItsCountCollide | apps/experiments/WebTerminal/src/webterminal/NodeWriter.java:100-108 | for every character, three of it print like one of it and the text `\[*3]` |
| NodeWriter.ZeroCountsEveryCharacter | apps/experiments/WebTerminal/src/webterminal/NodeWriter.java:69-72 | with a minimum of 0 every text is longer by a five-character count for each of its characters, so only the empty one is left alone |
| NodeWriter.LargeMinimumTurnsOff | apps/experiments/WebTerminal/src/webterminal/NodeWriter.java:69-72 | what does turn abbreviation off is a minimum longer than the text |
| TriangleMesh.CornersInRange | apps/toys/FX8-3DFeatures/src/fx83dfeatures/PNTMeshViewer.java:195-206 | every point index of every face is that of a point |
| TriangleMesh.PNTMeshViewer.SetPoints | apps/toys/FX8-3DFeatures/src/fx83dfeatures/PNTMeshViewer.java:168-184 | the loops set each point of the grid, at its place in row order, from the surface |
| TriangleMesh.PNTMeshViewer.SetFaces | apps/toys/FX8-3DFeatures/src/fx83dfeatures/PNTMeshViewer.java:188-268 | the loops write every slot of every face and normal; face f uses normal f, which is the normal of its corners |
| TriangleMesh.PNTMeshViewer.BuildTriangleMesh | apps/toys/FX8-3DFeatures/src/fx83dfeatures/PNTMeshViewer.java:150-289 | for all positive subdivisions the arrays are the mesh of the grid over the surface |
| TriangleMesh.PNTMeshViewer.ComputeMesh | apps/toys/FX8-3DFeatures/src/fx83dfeatures/PNTMeshViewer.java:82-148 | refreshing an existing mesh makes it the mesh over the current surface; a face's three normal indices always coincide |
| TriangleMesh.PNTMeshViewer.ChangeFunction | apps/toys/FX8-3DFeatures/src/fx83dfeatures/PNTMeshViewer.java:328-345 | after each key that changes the function the refreshed mesh is the one a rebuild would give |
| TriangleMesh.MeshIsUnique | apps/toys/FX8-3DFeatures/src/fx83dfeatures/PNTMeshViewer.java:82-289 | grid and surface fix every number of a mesh |
| MeshGeometry.PointLies | apps/toys/FX8-3DFeatures/src/fx83dfeatures/PNTMeshViewer.java:168-184 | the points lie in equal steps along both axes, with the surface above |
| MeshGeometry.TexCoordLies | apps/toys/FX8-3DFeatures/src/fx83dfeatures/PNTMeshViewer.java:181-184 | the texture coordinates run from 0 to 1 in the same steps |
| MeshGeometry.CornerPoints | apps/toys/FX8-3DFeatures/src/fx83dfeatures/PNTMeshViewer.java:150-184 | the first and last point are opposite corners of the square from -10 to 10, scaled |
| MeshGeometry.FaceCoversHalfACell | apps/toys/FX8-3DFeatures/src/fx83dfeatures/PNTMeshViewer.java:223-264 | all faces run in the same sense (clockwise, with y up) and each covers exactly half a cell, whatever the surface |
| TriangleMesh.KeysMoveTheValue | apps/toys/FX8-3DFeatures/src/fx83dfeatures/PNTMeshViewer.java:328-345 | the two bracket keys move the value by a tenth, undo each other away from the ends, and never leave the range |
| MeshEdges.NoEdgeTwice | apps/toys/FX8-3DFeatures/src/fx83dfeatures/PNTMeshViewer.java:223-264 | no directed edge belongs to two faces |
| MeshEdges.AcrossIsReversed | apps/toys/FX8-3DFeatures/src/fx83dfeatures/PNTMeshViewer.java:223-264 | the face across an inner edge has it in the other direction |
| MeshEdges.ReversedIff | apps/toys/FX8-3DFeatures/src/fx83dfeatures/PNTMeshViewer.java:223-264 | an edge is there in both directions exactly if it is not on the border of the grid |
| MeshEdges.VerticesEdgesFaces | apps/toys/FX8-3DFeatures/src/fx83dfeatures/PNTMeshViewer.java:150-289 | vertices - edges + faces = 1 for all subdivisions |
| SlideShow.StepsUndo | apps/toys/FXSlideShow/src/fxslideshow/Files.java:112-171 | a step either way stays in the list and is undone by a step the other way, with and without the loop |
| SlideShow.StepsAlong | apps/toys/FXSlideShow/src/fxslideshow/Files.java:112-171 | there is a step exactly in a loop or away from the end, and it goes to the next or previous file, around the ends |
| SlideShow.Files.SetLoop | apps/toys/FXSlideShow/src/fxslideshow/Files.java:184-188 | both neighbors are right after the mode is set |
| SlideShow.Files.Next | apps/toys/FXSlideShow/src/fxslideshow/Files.java:140-152 | moves to the next file, around the end in a loop, exactly if there is one, says so, and keeps both neighbors right |
| SlideShow.Files.Previous | apps/toys/FXSlideShow/src/fxslideshow/Files.java:158-171 | the same backwards |
| SlideShow.AlwaysGood | apps/toys/FXSlideShow/src/fxslideshow/FXSlideShow.java:419-479 | over every run of requests and task completions each filled slot holds an uncancelled task of its own for its neighbor's file, only images of the then current file are put on view, and the busy indicator shows exactly while the image on view is not the current slot's |
| SlideShow.StepKeepsGood | apps/toys/FXSlideShow/src/fxslideshow/FXSlideShow.java:126-141 | every step keeps that, and keeps that a task the event thread knows to have succeeded is on view if it is current |
| SlideShow.StartLoads | apps/toys/FXSlideShow/src/fxslideshow/FXSlideShow.java:648-655 | at the start the first file is current and being loaded, and so is the next one exactly if there is one |
| SlideShow.DisplaysRecordTheCurrentFile | apps/toys/FXSlideShow/src/fxslideshow/FXSlideShow.java:126-141 | a step puts at most the current slot's image on view |
| SlideShow.StepLoadsAhead | apps/toys/FXSlideShow/src/fxslideshow/FXSlideShow.java:474-478 | after a step the slot ahead is filled exactly if there is a file ahead |
| SlideShow.RequestLeaves | apps/toys/FXSlideShow/src/fxslideshow/FXSlideShow.java:440-458 | a request that moves cancels the task in the slot behind, and the old current one unless it is saved, if it runs and is not over; every other task stays as it was and new ones are pending |
| SlideShow.CancelledIffGivenUp | apps/toys/FXSlideShow/src/fxslideshow/FXSlideShow.java:440-458 | over every run a task is cancelled exactly if a request that moved gave it up while it ran and was not over, and runs exactly if it was reported running and is neither cancelled nor told to be over |
| SlideShow.RunningIsCancelled | apps/toys/FXSlideShow/src/fxslideshow/FXSlideShow.java:446-455 | stepping on cancels the first of two tasks if it runs, and leaves it to load in vain if it still waits |
| SlideShow.ThereAndBack | apps/toys/FXSlideShow/src/fxslideshow/FXSlideShow.java:440-458 | with the previous image saved, stepping there and back finds the same task |
| SlideShow.BusyUntilTold | apps/toys/FXSlideShow/src/fxslideshow/FXSlideShow.java:126-141 | while nobody steps on, the busy indicator goes out only when the current image is known to be there |
| SlideShow.TellingShowsIff | apps/toys/FXSlideShow/src/fxslideshow/FXSlideShow.java:126-160 | in every run, once the end of the current file's task is known and nobody has stepped on since the show came to the file, its image is missing exactly if the task failed after that |
| SlideShow.FailedThenShown | apps/toys/FXSlideShow/src/fxslideshow/FXSlideShow.java:419-479 | a run in which a failed image stays missing, and is on view after stepping on and back |
| SlideShow.FXSlideShow.constructor | apps/toys/FXSlideShow/src/fxslideshow/FXSlideShow.java:648-655 | starting lists the files found and queues the first and the next one, if any |
| SlideShow.FXSlideShow.NextImage | apps/toys/FXSlideShow/src/fxslideshow/FXSlideShow.java:419-479 | the rotation of the slot array is the request step of the state machine; the tasks given up are cancelled and the others stay |
| SlideShow.FXSlideShow.Told | apps/toys/FXSlideShow/src/fxslideshow/FXSlideShow.java:126-141 | so is the completion callback |

## Left out

gltrace:

- The GL and EGL driver calls inside a record are opaque; a call's results are arguments of the call.
- The log file is a sequence of bytes; mapping, truncation and their errors are not part of this model.
- `putFloatPtr` and `getFloatPtr`: on NULL and on the marker value the reader does not step over the second word.
- Commands outside the opcode tables of `Gles`, among them textures, uniforms and everything the decoder rejects; glGetAttachedShaders, whose ids are read only when executing.
- Nested or racing glBindBuffer calls in the lock-step theorem: the binding changes after the record is closed, and also when the record was suppressed. Nesting and interleaving are the subject of `TraceLock` and `SharedLog`.
- Gles.CountByLargestIndex: indices are given as numbers; reading them from client memory and from a bound element buffer is not modelled. The code is compiled only with MT_BUFFER_DATA_FIXED.
- LockStep.LockStep: draw calls for which a size the tracer computes overflows a C int, and word sizes other than 4 and 8, are not covered.
- LockStep.ReplayFetchesTheSame: stated for replay that executes; when the commands are only printed, replay keeps no copies of size, type and normalization, and needs none.
- SharedLog.EveryInterleavingReplays: assumes that the outermost records, in the order in which the lock lets them in, are what a sequence of calls logs; racing changes of the bindings can break that.
- An attribute index outside the table is a stray write in the original; both models stop there. Where `getIntPtr` or `getString` would read past the end of the file the model answers NULL.
- Enum names, printing, frame rates, and saved pictures.

WebTerminal:

- The tree is a value with a position in it (`Dom.Ctx`), not linked nodes changed in place; the identity of nodes is not modelled.
- Terminal.Terminal.MoveTo: documents with tabs or carriage returns, object elements, nested blocks and `addSpaceAsNeeded = false` are not covered; `columnWidth` is never finite in the code, so its branch is not there. Goals are not negative.
- LineEdit.InsertLines, like the other line operations: documents of text and breaks without form feeds, of less than 2^31 characters, with no line that starts with a zero-width character.
- LineEdit.DeleteLines: the same.
- LineEdit.ScrollForward: the same.
- LineEdit.ScrollReverse: the same.
- CursorMotion.CursorLeft: moves past the start of the line are not covered, nor are documents with tabs or carriage returns; of tabs `CursorMotion.ShortcutLandsIff` says when the shortcut is right.
- LineEdit.EraseCharactersRight: only deleting is modelled, on a home of text and breaks.
- AdjustStyle.Adjust: the styles of elements outside the home and the `class` attribute of spans are not modelled.
- OutputRuns.SplitsAlikeIff: the screen answers by functions of the actions, so what a query writes into the cache does not show.
- OutputParser.TerminalOutput.InsertString: the screen answers by functions of the actions so far, so that asking it changes nothing, and text inserted in two pieces counts as one; what the control sequences do to the screen is left open. At most 2^30 parameters.
- Key and mouse handling, the alternate screen buffer, HTML insertion, prompts, and the decoding of UTF-8.
- NodeWriter prints whole nodes too; only `writeData` is modelled.

PNTMeshViewer:

- TriangleMesh.PNTMeshViewer.BuildTriangleMesh: numbers are reals, without rounding; the surface and the normal of a triangle are left open; the points and the texture coordinates are set in two loops instead of one; array sizes are unbounded.
- Scenes, materials, cameras and the other mesh viewers.

FXSlideShow:

- SlideShow.FXSlideShow.NextImage: tasks are numbered entries of a list, and threads show as the order of the steps.
- Transitions, timers, arguments, listing directories, shuffling, the reload key, and the icon for broken images.
