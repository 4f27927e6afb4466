# Verified models of the Cokra engine

Cokra is a terminal coding agent. This project models the parts of it whose behaviour is spread over
several functions and hard to see from any one of them, and proves what they promise: the bytes the
interface sends to the terminal, the patch engine, the submission loop, the configuration layers, the
prompt queue, table layout, the names of MCP tools and the marking of user messages.

`dafny verify dfyconfig.toml` checks everything, with Dafny 4.11.

## How it is laid out

| files | what they model |
|---|---|
| `Screen.dfy` | a terminal: rows, scrollback, cursor, pen, scroll region, and the controls of ECMA-48 (SGR, section 8.3.117; EL, section 8.3.41; ED, RI) and DECSTBM that the program sends |
| `Diff.dfy`, `DiffProofs.dfy`, `DiffMinimal.dfy` | `diff_buffers`: from two buffers to a list of draw commands, no longer than needed |
| `Draw.dfy`, `DrawProofs.dfy` | `draw` and `ModifierDiff`: from draw commands to controls, leaving out what the tracking finds unnecessary |
| `History.dfy`, `HistoryProofs.dfy` | `insert_history_lines`: finished lines go above the viewport, into the scrollback |
| `CustomTerminal.dfy`, `Session.dfy`, `Viewport.dfy` | the objects that hold the buffers and the viewport, one redraw, whole runs of redraws, and where viewport, cursor and scrollback are |
| `Text.dfy`, `PatchParser.dfy`, `PatchGrammar.dfy`, `PatchAccepts.dfy`, `PatchProofs.dfy` | patches: the parser, the grammar as a printer, both directions between them, whole texts, error lines |
| `PatchApply.dfy`, `PatchApplyProofs.dfy`, `PatchTiers.dfy`, `PatchScripts.dfy` | locating chunks, collecting replacements, rewriting the file from the back; what the search takes as equal; edit scripts |
| `Submissions.dfy`, `SubmissionProofs.dfy` | `submission_loop` and `run_turn_with_interrupt`: two receive loops over one channel and one queue |
| `ConfigLayers.dfy`, `ConfigProofs.dfy` | the merge of TOML layers, the origins index, command-line overrides |
| `PromptQueue.dfy`, `PromptProofs.dfy`, `PromptSteps.dfy` | approvals and questions from several threads, shown one at a time |
| `TableLayout.dfy`, `TableProofs.dfy` | column widths, clamping, cells and borders of tables, and what stands where |
| `McpNames.dfy` | qualified tool names and their registration |
| `UserSpans.dfy` | user messages cut into plain and marked spans |

Code that works by changing things step by step is a method, or a class whose methods change its fields.
Each is proved equal to a function of its inputs or of its old state, and the properties are lemmas about
that function. The environment is a parameter throughout: the terminal is one of two kinds (it accepts
scroll regions of one line, or ignores them), halves of overwritten wide glyphs may look like anything, a
schedule decides when a turn is found finished, servers answer as they like.

## What is proved

*Terminal.* A redraw keeps the terminal in step with what the program believes about it: the viewport shows
the frame, the cursor stands where the frame wants it, and scrollback followed by the rows above the viewport
is the old history followed by the rows of the new lines, in order (`Session.RunSynced`, for any number of
redraws). It rests on the diff being faithful and no longer than needed, on the omissions of `draw` being
harmless, and on insertion being an append, of lines that wrap as well: their rows hold every glyph in order,
each row as full as it can be. Where the plain statement is false the exact condition is proved.
`ModifierDiff` reaches the modifier it is asked for if and only if it does not drop one of Bold and Dim (Dim,
precisely) or one of the two blinks while the other stays, and does not touch Hidden. An insertion appends if
and only if the region above the moved viewport has two rows or the terminal accepts regions of one. The
viewport moves down by the rows counted or to the end of the screen, except that the count is kept in sixteen
bits; what leaves the screen is what the moved viewport had no room for. Rows are counted by columns, so a
line whose wide glyphs do not fit the ends of rows takes more rows than are counted; history is complete all
the same, and rows counted but not taken stay blank. A viewport at the top of the screen is lowered by a row
without being redrawn: its first row goes into the history, before the lines, and the terminal stays in step
if and only if each of its rows looks like the next. A viewport that grows on a terminal that refuses the
region above it stays in step if and only if its first row was blank.

*Patches.* A text parses to some hunks if and only if it is a printed form of them, in a grammar that has
every form the parser takes: indented headers, blank lines between chunks, kept blank lines written as empty
ones, a first chunk without its marker, heredocs. The search is sound, complete and strictest first, and what
each tier takes as equal is said without trimming or folding. The rewriting loop from the back is the
left-to-right splice of disjoint replacements, and they are disjoint if and only if the chunks keep clear of
each other. An unambiguous edit script is carried out to the letter: blocks replaced, lines added at the end
of the file, blocks whose last blank line the file lacks. Where the code falls short: an end-of-file chunk
ignores the cursor although the comment in `seek_sequence.rs` says it falls back to it, so it can overlap an
earlier chunk; a pure insertion goes before a blank last line; a chunk whose only old line is blank inserts at
the top of a file without blank lines; blank lines at the start of a chunk without its marker are lost; a file
that ends in a blank line loses it; an added line that ends in a carriage return loses that; without a `@@`
marker the error for an unexpected line names the line after it.

*Submissions.* In every interleaving, what may wait is run exactly once and in arrival order, control
operations are acted upon at once and in order, turns are bracketed and never nest, and the loop returns.
Without a shutdown the turns and their configurations do not depend on the interleaving. A received shutdown
stops the loop if and only if no turn is running, so under every interleaving if nothing before it starts one.
What each operation does, during a turn and between turns, is said operation by operation.

*Configuration.* The path law of the merge, its idempotence, associativity with the exact condition, and when
the last override wins. For any trees the origins index names the last layer that records a key; it agrees
with the merge if and only if no later layer, different from the one that gives the value, records the same
key from another path, which takes a key with a dot in it or an empty one.

*Prompts.* At most one is active, nothing stalls, and if no id or turn comes again counts are backed by stored
requests, and are exactly their number if prompts come in the background only. Answering shows everything that
waits, in order, if and only if no two approvals have one id and no two questions one turn. Questions are told
apart by their turn only: of two that wait in one turn the second is lost, although its call is another, and
in the background the two are miscounted. A decision that cannot be sent ends the program.

*Tables, names, spans.* Every column shows its cells, between bars and joints that stand above each other.
Clamping has exactly one possible result, and no other widths of that total have a smaller maximum; all lines
of a table are equally wide. The suffix search ends by pigeonhole, and registering n tools makes n entries
that resolve. The spans of a line add up to it exactly when no two marks overlap.

## Model

| member | source | states |
|---|---|---|
| Diff.DiffBuffers | cokra-rs/tui/src/custom_terminal.rs:387-447 | the loops with their counters produce the clears of all rows, then the puts, cell by cell, with the skipping and invalidation of wide glyphs |
| Diff.ScanRow | cokra-rs/tui/src/custom_terminal.rs:399-413 | the last column of a row that still matters |
| DiffProofs.RowFaithful | cokra-rs/tui/src/custom_terminal.rs:423-445 | a row's clear and puts turn a terminal row that shows the old cells into one that shows the new, through any mix of one- and two-column glyphs |
| DiffProofs.DiffFaithful | cokra-rs/tui/src/custom_terminal.rs:387-447 | executing all commands on a screen that shows the previous buffer leaves it showing the next, all other rows untouched, for every size and content |
| DiffProofs.DiffByRow | cokra-rs/tui/src/custom_terminal.rs:387-447 | the counters of the cell loop never carry from one row to the next: the diff is the diff of each row |
| DiffMinimal.PutsExactly | cokra-rs/tui/src/custom_terminal.rs:423-445 | a cell is put if and only if a glyph starts there, before the blank end of its row, and it differs from the one shown or stood under the second half of a wide one |
| DiffMinimal.NothingToPut | cokra-rs/tui/src/custom_terminal.rs:423-445 | drawing the same buffer again puts nothing |
| DiffMinimal.ClearExactly | cokra-rs/tui/src/custom_terminal.rs:399-421 | the clear of a row begins behind its last glyph that is not a plain blank, and all behind is blank in its colour |
| Draw.QueueModifierDiff | cokra-rs/tui/src/custom_terminal.rs:517-573 | queues exactly the attribute changes wanted for a transition, in order |
| Draw.QueuePen | cokra-rs/tui/src/custom_terminal.rs:468-484 | queues modifier and colour changes only when they differ from the tracked ones |
| Draw.DrawAll | cokra-rs/tui/src/custom_terminal.rs:449-506 | the loop with its tracked pen and position queues the controls of every command and the final reset |
| DrawProofs.ModifierDiffExact | cokra-rs/tui/src/custom_terminal.rs:517-573 | from a pen with the old modifier the changes reach the new one if and only if the transition is safe: it does not drop Dim and keep Bold, nor one blink and keep the other, nor touch Hidden |
| DrawProofs.PenSet | cokra-rs/tui/src/custom_terminal.rs:468-484 | the pen controls of a put set the cell's colours whatever the pen was, and its attributes as far as the changes reach |
| DrawProofs.PenChanges | cokra-rs/tui/src/custom_terminal.rs:468-484 | after the pen controls of a put the terminal's pen is the cell's exactly for a safe transition |
| DrawProofs.DrawRefines | cokra-rs/tui/src/custom_terminal.rs:449-506 | leaving out moves and pen changes never misplaces or miscolours a glyph: the controls have the effect of the commands, and leave the default pen |
| DrawProofs.PensRightExactly | cokra-rs/tui/src/custom_terminal.rs:449-506 | the terminal's pen is the cell's at every print if and only if no put makes an unsafe transition |
| DrawProofs.DiffChain | cokra-rs/tui/src/custom_terminal.rs:387-447 | every diff is a list that `draw` can handle: clears before puts, no put right of a clear's start or on a wide glyph's tail |
| DrawProofs.FrameDrawn | cokra-rs/tui/src/custom_terminal.rs:197-205 | from the controls on, a terminal that shows the previous buffer shows the next one, and nothing outside the viewport changes |
| DiffMinimal.RunPrinted | cokra-rs/tui/src/custom_terminal.rs:449-506 | a run of cells in one pen, behind the last one put, is printed without any other control |
| History.WriteSpans | cokra-rs/tui/src/insert_history.rs:289-336 | the controls for a line's spans, with the modifier and colours tracked, control characters left out |
| History.WriteLine | cokra-rs/tui/src/insert_history.rs:128-166 | the controls for one wrapped line: the extra rows cleared, colours, erase, spans in the line's style |
| History.QueueRoom | cokra-rs/tui/src/insert_history.rs:73-99 | the controls that move the viewport's rows down by as much as there is room |
| History.QueueRegion | cokra-rs/tui/src/insert_history.rs:121-171 | the controls that write the lines in the region above the viewport and put the cursor back |
| HistoryProofs.SpansPrint | cokra-rs/tui/src/insert_history.rs:289-336 | the spans print their glyphs, whatever their styles and over however many rows, and leave the default pen |
| HistoryProofs.SpansMeant | cokra-rs/tui/src/insert_history.rs:289-336 | every glyph is printed in the pen of its span under the line's style if and only if no transition between spans is unsafe |
| HistoryProofs.MeantPen | cokra-rs/tui/src/insert_history.rs:156-165 | the pen a glyph is meant to have: the line's colours, else the span's, else the terminal's; an attribute exactly if line or span add it and neither takes it back |
| HistoryProofs.SanitizedExactly | cokra-rs/tui/src/insert_history.rs:319-328 | carriage returns are left out wherever they are, and nothing else is |
| HistoryProofs.LineAppends | cokra-rs/tui/src/insert_history.rs:128-166 | one line becomes the next rows of the history, wrapped rows included, what was in the way scrolling off into the scrollback |
| HistoryProofs.OneRowRendered | cokra-rs/tui/src/insert_history.rs:128-166 | a line that fits is one row: its glyphs, then blanks in the line's own colour |
| HistoryProofs.LineCut | cokra-rs/tui/src/insert_history.rs:128-166 | the rows of a line hold all its glyphs, in order, and a row ends only where the next glyph does not fit |
| HistoryProofs.RowsUsed | cokra-rs/tui/src/insert_history.rs:128-132 | the rows a line takes are its columns, and those left over at the ends of rows, divided by the width and rounded up |
| HistoryProofs.NarrowCounted | cokra-rs/tui/src/insert_history.rs:69-73 | for lines of one-column glyphs the rows counted are the rows taken |
| HistoryProofs.WideMiscounted | cokra-rs/tui/src/insert_history.rs:128-132 | three wide glyphs on three columns are counted as two rows and take three |
| HistoryProofs.ExtraRowsBlank | cokra-rs/tui/src/insert_history.rs:130-138 | whatever stood there, the further rows a line is counted to take are blank before it is printed |
| HistoryProofs.LinesAppend | cokra-rs/tui/src/insert_history.rs:128-166 | the lines are appended to the history in order, each with all its rows, and rows below the region are untouched |
| HistoryProofs.RoomMade | cokra-rs/tui/src/insert_history.rs:73-99 | the rows from the viewport's top on move down, those above stay, for both kinds of terminal |
| HistoryProofs.InsertionAppends | cokra-rs/tui/src/insert_history.rs:31-182 | history grows by the rows of the lines, viewport rows keep their content further down, viewport on screen: if and only if the region above the moved viewport is one the terminal accepts |
| HistoryProofs.TopInsertion | cokra-rs/tui/src/insert_history.rs:73-182 | above a viewport of one row at the top of the screen a blank row comes first, then the lines |
| CustomTerminal.Terminal.constructor | cokra-rs/tui/src/custom_terminal.rs:135-155 | an empty viewport on the cursor's row, no history rows counted |
| CustomTerminal.Terminal.SetViewportArea | cokra-rs/tui/src/custom_terminal.rs:214-219 | both buffers cover the new area, the count of history rows is cut to the rows above it |
| CustomTerminal.Terminal.Clear | cokra-rs/tui/src/custom_terminal.rs:307-318 | the screen is erased from the viewport on and the previous buffer emptied, or nothing for an empty viewport |
| CustomTerminal.Terminal.NoteHistoryRowsInserted | cokra-rs/tui/src/custom_terminal.rs:351-356 | no more history rows are counted than lie above the viewport |
| CustomTerminal.Terminal.SwapBuffers | cokra-rs/tui/src/custom_terminal.rs:363-366 | the buffer just drawn becomes the previous one, the other is emptied |
| CustomTerminal.Terminal.Flush | cokra-rs/tui/src/custom_terminal.rs:198-205 | sends the drawing of the difference and remembers the place of the last put |
| CustomTerminal.Terminal.TryDraw | cokra-rs/tui/src/custom_terminal.rs:242-276 | the frame becomes the shown buffer; the cursor goes where the frame wants it |
| CustomTerminal.Terminal.InsertHistoryLines | cokra-rs/tui/src/insert_history.rs:31-182 | the whole insertion, with the shift of the viewport and the count of history rows |
| CustomTerminal.Tui.FitViewport | cokra-rs/tui/src/tui/mod.rs:460-480 | the viewport gets the requested height, the region above scrolled up if it did not fit |
| CustomTerminal.Tui.Draw | cokra-rs/tui/src/tui/mod.rs:431-505 | one redraw: fit, pending history, frame; no line stays pending |
| Session.ScrolledUp | cokra-rs/tui/src/tui/mod.rs:466-476 | scrolling the rows above the viewport up moves the history as a whole, freed rows are blank |
| Session.FitSynced | cokra-rs/tui/src/tui/mod.rs:460-480 | fitting the viewport loses no history, and keeps the terminal in step if and only if the region above is accepted or the old first row was blank |
| Session.HistorySynced | cokra-rs/tui/src/insert_history.rs:31-182 | wherever the viewport is, no history is lost and it grows by the rows of the lines, after what a viewport at the top gives up; the terminal stays in step if and only if a viewport at the top has rows that look alike |
| Session.InsertedAtTop | cokra-rs/tui/src/insert_history.rs:56-61 | a viewport at the top of the screen loses its own first row to the history, before the lines; it is still shown if and only if its rows look alike |
| Session.InsertedAboveOneRow | cokra-rs/tui/src/insert_history.rs:56-61 | a viewport of one row at the top is kept, and a blank row precedes the lines |
| Session.LinesDropped | cokra-rs/tui/src/insert_history.rs:116-120 | at the top of the screen, with no room made below, everything stays as it is and the lines are dropped |
| Session.LoweredShows | cokra-rs/tui/src/insert_history.rs:56-61 | the screen that shows the viewport's buffer shows the lowered one if and only if, in the old buffer alone, each row looks like the next |
| Session.TwoRowsOutOfStep | cokra-rs/tui/src/insert_history.rs:56-61 | for a viewport of two different rows at the top any insertion leaves the terminal out of step |
| Session.FrameSynced | cokra-rs/tui/src/custom_terminal.rs:242-276 | drawing a frame keeps the terminal in step and the history unchanged |
| Session.CursorPlaced | cokra-rs/tui/src/custom_terminal.rs:260-274 | a cursor on the screen that the frame asks for is where the terminal's is afterwards, and what the program remembers |
| Session.RedrawSynced | cokra-rs/tui/src/tui/mod.rs:431-505 | one redraw: the viewport shows the frame, the cursor is where the frame wants it, the history has grown by the pending lines, at the top of the screen too |
| Session.RunSynced | cokra-rs/tui/src/tui/mod.rs:431-505 | the same after every redraw of every run, by an invariant |
| Session.StartSynced | cokra-rs/tui/src/custom_terminal.rs:135-155 | the interface starts in step on a screen blank from the cursor's row on |
| Viewport.FittedExactly | cokra-rs/tui/src/tui/mod.rs:460-480 | the viewport gets the height asked for or the screen's, stays where it is if it fits and ends with the screen if not; the count of history rows is cut to the rows above |
| Viewport.LoweredExactly | cokra-rs/tui/src/insert_history.rs:56-61 | a viewport of several rows at the top begins one row lower and ends where it did; no other changes |
| Viewport.ViewportMoves | cokra-rs/tui/src/insert_history.rs:73-99 | the viewport moves down by the rows counted or to the end of the screen if and only if they are fewer than 65536 or what sixteen bits keep of them still reaches the end; it never moves further |
| Viewport.ScrollbackGrows | cokra-rs/tui/src/insert_history.rs:73-171 | what leaves the screen are the rows the lines take beyond those the viewport moved, and nothing if and only if there are none |
| Viewport.NothingPushed | cokra-rs/tui/src/insert_history.rs:73-171 | narrow lines that the screen has room for below the viewport leave the scrollback as it is and move the viewport by their rows |
| Viewport.RowsNoted | cokra-rs/tui/src/insert_history.rs:173-182 | the rows counted as history on the screen are those before and the new ones, as far as they lie above the viewport |
| Viewport.CursorRestored | cokra-rs/tui/src/insert_history.rs:168-171 | an insertion leaves the cursor where the program remembers it |
| Viewport.LastPutIs | cokra-rs/tui/src/custom_terminal.rs:198-205 | without a wish of the frame the place of the last glyph put is remembered as the cursor's |
| Text.LinesJoin | cokra-rs/apply-patch/src/parser.rs:107-110 | reading the lines of joined plain lines gives them back |
| Text.JoinOfSplit | cokra-rs/apply-patch/src/lib.rs:206-231 | joining the pieces between newlines gives the text back |
| Text.TrimExactly | cokra-rs/apply-patch/src/parser.rs:107-110 | trimming takes white space from both ends, and all of it |
| PatchParser.ParseUpdateFileChunk | cokra-rs/apply-patch/src/parser.rs:271-358 | one chunk with its lines consumed, or the error with its line number |
| PatchParser.ParseAddedLines | cokra-rs/apply-patch/src/parser.rs:185-203 | contents and number of the leading added lines |
| PatchParser.ParseChunks | cokra-rs/apply-patch/src/parser.rs:224-244 | the chunks of an update hunk, blank lines between them skipped |
| PatchParser.ParseOneHunk | cokra-rs/apply-patch/src/parser.rs:183-269 | one hunk with its lines consumed, or the error |
| PatchParser.ParseHunks | cokra-rs/apply-patch/src/parser.rs:116-126 | the hunks of the body in order, or the first error |
| PatchProofs.HunksPartition | cokra-rs/apply-patch/src/parser.rs:116-126 | a successful parse splits the body into consecutive blocks of lines, each being what one hunk was read from |
| PatchProofs.BlocksFill | cokra-rs/apply-patch/src/parser.rs:116-126 | there is one block for each hunk, none is empty, and their lengths add up to the body's: no line is skipped or read twice |
| PatchParser.ParsePatchText | cokra-rs/apply-patch/src/parser.rs:107-131 | the whole parse in lenient mode, heredoc and boundary markers included |
| PatchGrammar.HunkParses | cokra-rs/apply-patch/src/parser.rs:183-269 | a printed hunk, in any form of the grammar, is parsed back and takes exactly its own lines, whatever may follow it follows |
| PatchGrammar.ChunksParse | cokra-rs/apply-patch/src/parser.rs:224-358 | printed chunks are parsed back, with blank lines around them, kept blank lines written as empty ones, and a first chunk with or without its marker |
| PatchAccepts.ChunksAccepted | cokra-rs/apply-patch/src/parser.rs:224-358 | whatever chunks are read, the lines are a printed form of them |
| PatchAccepts.BodyExactly | cokra-rs/apply-patch/src/parser.rs:116-126 | lines parse to these hunks if and only if they are a printed form of them |
| PatchAccepts.PatchFramed | cokra-rs/apply-patch/src/parser.rs:107-175 | the patch is what stands between the markers, in a heredoc or not; otherwise the error says which marker is missing |
| PatchAccepts.ParseExactly | cokra-rs/apply-patch/src/parser.rs:107-131 | a text parses to these hunks if and only if its lines between the markers are a printed form of them |
| PatchAccepts.BlankContextLost | cokra-rs/apply-patch/src/parser.rs:224-244 | a kept blank line at the start of a chunk without its marker is lost, and is kept behind a marker |
| PatchProofs.RoundTrip | cokra-rs/apply-patch/src/parser.rs:107-131 | parsing a printed patch, with any white space around it, gives exactly its hunks and its text |
| PatchProofs.HeredocRoundTrip | cokra-rs/apply-patch/src/parser.rs:142-163 | so does parsing it inside a heredoc with any accepted opener and any last line ending in EOF |
| PatchProofs.EveryChunkPrintable | cokra-rs/apply-patch/src/parser.rs:271-358 | every chunk of plain lines that has any is the meaning of a printed one, wherever it stands |
| PatchProofs.AddedLineSurvives | cokra-rs/apply-patch/src/parser.rs:107-110 | an added line survives if and only if it does not end in a carriage return |
| PatchProofs.ErrorsPoint | cokra-rs/apply-patch/src/parser.rs:183-358 | the line number of every error lies in the patch and names the line the error is about, one later for an unexpected line without a marker; and that line, or what follows it, is what the kind of error says |
| PatchProofs.ChunksErrorPoints | cokra-rs/apply-patch/src/parser.rs:224-244 | the same for errors in the chunks of one hunk, so lines consumed plus offset is the line reported |
| PatchApply.SeekSequence | cokra-rs/apply-patch/src/seek_sequence.rs:12-96 | the four scanning loops find the first tier's first match |
| PatchApply.LocateChunk | cokra-rs/apply-patch/src/lib.rs:243-297 | the replacement for one chunk and the next cursor: context line, insertion point, second try without a trailing blank line, errors |
| PatchApply.ComputeReplacements | cokra-rs/apply-patch/src/lib.rs:235-302 | the replacements of all chunks, sorted by start, or the first error |
| PatchApply.ReplaceInPlace | cokra-rs/apply-patch/src/lib.rs:311-323 | removing the old lines one by one and inserting the new ones replaces the block in place |
| PatchApply.ApplyReplacements | cokra-rs/apply-patch/src/lib.rs:306-326 | the loop from the back over a list whose positions are in order and in bounds |
| PatchApply.ComputedOrdered | cokra-rs/apply-patch/src/lib.rs:235-302 | whatever the chunks, the replacements computed are sorted and within the file, so no index is out of range |
| PatchApply.DeriveNewContents | cokra-rs/apply-patch/src/lib.rs:206-231 | the text of the new file, or the error |
| PatchApplyProofs.TiersIncrease | cokra-rs/apply-patch/src/seek_sequence.rs:30-93 | what a tier takes as equal the looser ones do too |
| PatchApplyProofs.FirstMatchExact | cokra-rs/apply-patch/src/seek_sequence.rs:31-35 | one tier finds the leftmost match in range and nothing else |
| PatchApplyProofs.SeekExactly | cokra-rs/apply-patch/src/seek_sequence.rs:12-96 | the result is the leftmost position in range under the strictest tier that matches anywhere; none means that not even the loosest matches |
| PatchTiers.TierMeans | cokra-rs/apply-patch/src/seek_sequence.rs:30-93 | a tier takes two lines as equal if and only if they are, but for white space at the end, but for white space around them, or but for that and the style of dashes, quotes and blanks |
| PatchApplyProofs.BackIsSplice | cokra-rs/apply-patch/src/lib.rs:306-326 | for disjoint replacements the loop from the back is the left-to-right concatenation of gaps and segments, insertions at one place included |
| PatchApplyProofs.SpliceLength | cokra-rs/apply-patch/src/lib.rs:306-326 | the length is the input minus the lines removed plus those inserted |
| PatchApplyProofs.ComputedDisjoint | cokra-rs/apply-patch/src/lib.rs:235-302 | computed replacements are disjoint if and only if, chunk by chunk, no block starts before the last one ended and none reaches over lines inserted before a blank last line |
| PatchApplyProofs.InOrderNoOverlap | cokra-rs/apply-patch/src/lib.rs:235-302 | that is so if end-of-file chunks match at or after the cursor and no pure insertion meets a blank last line |
| PatchApplyProofs.NewLinesSpliced | cokra-rs/apply-patch/src/lib.rs:206-231 | under that condition the derived lines are the left-to-right concatenation of gaps and segments |
| PatchScripts.ScriptApplied | cokra-rs/apply-patch/src/lib.rs:206-326 | an edit script whose context lines and old blocks first occur where it has them gives its target lines: blocks replaced, with or without an excess blank line, and added lines at the end in the order of their chunks |
| PatchScripts.LinesAdded | cokra-rs/apply-patch/src/lib.rs:261-268 | a chunk without old lines adds its lines at the end of the file, before a blank last line |
| PatchScripts.LocateFails | cokra-rs/apply-patch/src/lib.rs:243-297 | a chunk cannot be located if and only if its context is absent, or its old lines are, also without a blank one at their end; the error names what is missing |
| PatchScripts.LoneBlankInserts | cokra-rs/apply-patch/src/lib.rs:270-297 | a chunk whose only old line is blank takes nothing away from a file without blank lines and inserts at its top |
| PatchScripts.FilePatched | cokra-rs/apply-patch/src/lib.rs:206-231 | the derived text is the target file if and only if the target does not end in a blank line |
| PatchScripts.NothingChanged | cokra-rs/apply-patch/src/lib.rs:206-231 | an update without chunks gives the file back exactly if it ends in a newline and its last line is not blank, or is empty |
| PatchApplyProofs.EofChunkMayOverlap | cokra-rs/apply-patch/src/seek_sequence.rs:25-29 | a two-chunk patch whose end-of-file chunk overlaps the chunk before it |
| PatchApplyProofs.InsertionMayOverlap | cokra-rs/apply-patch/src/lib.rs:261-268 | a pure insertion placed inside a block an earlier chunk replaced |
| Submissions.SubmissionLoop.constructor | cokra-rs/core/src/cokra.rs:931-942 | an empty queue and the session's configuration |
| Submissions.SubmissionLoop.HandleDuringTurn | cokra-rs/core/src/cokra.rs:1278-1365 | control operations are acted upon, interrupt and shutdown end the turn, all others are queued |
| Submissions.SubmissionLoop.RunTurn | cokra-rs/core/src/cokra.rs:1261-1369 | the loop of a turn is a number of steps of the model that ends between turns |
| Submissions.SubmissionLoop.StartTurn | cokra-rs/core/src/cokra.rs:1237-1259 | a blank message starts no turn |
| Submissions.SubmissionLoop.DispatchSubmission | cokra-rs/core/src/cokra.rs:953-1231 | what each operation does to the configuration, the trace and the loop |
| Submissions.SubmissionLoop.Run | cokra-rs/core/src/cokra.rs:931-1234 | the nested loops take a number of steps of the model and return stopped |
| SubmissionProofs.RunKept | cokra-rs/core/src/cokra.rs:940-951 | at every point of every interleaving: deferrable operations run, followed by the queue, are those received, in order; control operations are acted upon in order and never queued; turns do not nest; received and not yet received make up the input |
| SubmissionProofs.EveryRunStops | cokra-rs/core/src/cokra.rs:931-1369 | every run ends within three steps per submission and one more |
| SubmissionProofs.StoppedRun | cokra-rs/core/src/cokra.rs:931-1369 | when the loop has returned the queue is empty, every received operation was run or acted upon exactly once, the turns are those of running them in order, and all input was received or a shutdown was dispatched last |
| SubmissionProofs.ScheduleIndependent | cokra-rs/core/src/cokra.rs:931-1369 | without a shutdown any two interleavings run the same operations and turns under the same configurations |
| SubmissionProofs.TurnsBracketed | cokra-rs/core/src/cokra.rs:1261-1369 | each turn begun is ended: only reactions, then both clears, then the end, all for its id |
| SubmissionProofs.TurnReacts | cokra-rs/core/src/cokra.rs:1278-1365 | during a turn steering, approvals, answers, interrupts and shutdowns are handled in the step that receives them, with the events each leads to; every other operation waits in the queue, unheard |
| SubmissionProofs.IdleRuns | cokra-rs/core/src/cokra.rs:944-1231 | between turns the operation at the front is run, with the events it leads to: only a message that is not blank begins a turn, only a shutdown stops the loop |
| SubmissionProofs.ConfigSet | cokra-rs/core/src/cokra.rs:954-1100 | an operation sets those fields of the configuration that it names, and no other |
| SubmissionProofs.ShutdownStopsIdle | cokra-rs/core/src/cokra.rs:1216-1219 | a received shutdown stops the loop if and only if no turn is running |
| SubmissionProofs.ShutdownStops | cokra-rs/core/src/cokra.rs:1216-1219 | if nothing before a shutdown starts a turn, every interleaving stops after exactly as many steps, having received what came up to it, and leaves the rest unread |
| SubmissionProofs.TurnAfterShutdown | cokra-rs/core/src/cokra.rs:1216-1219 | an input on which a turn begins after the shutdown was announced |
| ConfigLayers.MergeTomlValues | cokra-rs/config/src/layer_stack.rs:132-148 | the loop over the overlay's keys, in any order, gives the merge |
| ConfigLayers.EffectiveConfig | cokra-rs/config/src/layer_stack.rs:98-106 | the enabled layers merged from the lowest up |
| ConfigLayers.UpdateOriginsForValue | cokra-rs/config/src/layer_stack.rs:150-184 | records exactly the keys below a value, leaving others alone |
| ConfigLayers.ComputeOrigins | cokra-rs/config/src/layer_stack.rs:111-129 | the index over all enabled layers |
| ConfigLayers.BuildCliOverridesLayer | cokra-rs/config/src/loader.rs:271-277 | the overrides set one after the other |
| ConfigProofs.MergePath | cokra-rs/config/src/layer_stack.rs:132-148 | reading any path of a merge: overlay first, a scalar of the overlay on the way hides the base, tables merge |
| ConfigProofs.MergeIdempotent | cokra-rs/config/src/layer_stack.rs:132-148 | merging a tree into itself changes nothing |
| ConfigProofs.MergeAbsorbs | cokra-rs/config/src/layer_stack.rs:132-148 | the overlay is unchanged exactly if it covers every path of the base |
| ConfigProofs.MergeAssociative | cokra-rs/config/src/layer_stack.rs:144-146 | merging is associative if and only if, wherever a scalar stands between two tables, the upper one covers the lower |
| ConfigProofs.SegmentsExactly | cokra-rs/config/src/loader.rs:296-300 | the segments of a key are those before a dot and those behind it; a piece without dots is one, or none if empty |
| ConfigProofs.SegmentsOfDotted | cokra-rs/config/src/loader.rs:296-300 | a dotted key of nonempty, dot-free segments names its path and no other |
| ConfigProofs.KeysUnderExactly | cokra-rs/config/src/layer_stack.rs:150-184 | the keys recorded are the dotted forms of the paths of the tree, for any tree |
| ConfigProofs.OriginIsLast | cokra-rs/config/src/layer_stack.rs:111-129 | for any trees and any key: the key is in the index exactly if an enabled layer records it, with the source and the version of the last one that does |
| ConfigProofs.EffectiveIsLast | cokra-rs/config/src/layer_stack.rs:98-106 | a path has an effective value exactly if an enabled layer contains it and no scalar hides it since; if not a table, it is the last such layer's |
| ConfigProofs.OriginsAgree | cokra-rs/config/src/layer_stack.rs:98-184 | for any trees: the origin named for an effective value that is not a table is the layer that gives it, if and only if no later layer, different from it, records the key from another path |
| ConfigProofs.OriginsAgreeDotFree | cokra-rs/config/src/layer_stack.rs:98-184 | for keys that are nonempty and free of dots the origin named is always the layer that gives the value |
| ConfigProofs.DottedKeyMisleads | cokra-rs/config/src/layer_stack.rs:159-165 | two layers for which a key with a dot makes the index name a layer that does not contain the path |
| ConfigProofs.PutGet | cokra-rs/config/src/loader.rs:296-322 | a blocked key leaves the tree as it is, any other reads back as set |
| ConfigProofs.PutElsewhere | cokra-rs/config/src/loader.rs:296-322 | paths neither above nor below the one set keep their value |
| ConfigProofs.LastOverrideWins | cokra-rs/config/src/loader.rs:135-215 | the last override is the effective value at its key if and only if no earlier override put a scalar on the way |
| PromptQueue.App.EnqueuePrompt | cokra-rs/tui/src/app.rs:3911-3914 | the prompt goes to the back of the queue and the next one is opened if none is active |
| PromptQueue.App.MaybeOpenNextPrompt | cokra-rs/tui/src/app.rs:3916-3929 | the front prompt is opened unless one is active |
| PromptQueue.App.OpenBackgroundApproval | cokra-rs/tui/src/app.rs:4002-4031 | duplicates leave the queue; the approval becomes active, or goes to the front |
| PromptQueue.App.OpenBackgroundUserInput | cokra-rs/tui/src/app.rs:4033-4048 | the same for a question, told apart by its turn |
| PromptQueue.App.OnBackgroundApproval | cokra-rs/tui/src/app.rs:2172-2186 | the approval is counted, stored and enqueued |
| PromptQueue.App.OnBackgroundUserInput | cokra-rs/tui/src/app.rs:2187-2199 | the question is counted, stored and enqueued |
| PromptQueue.App.OnTurnFinished | cokra-rs/tui/src/app.rs:2203-2270 | what is kept for the thread is forgotten; in the foreground its active prompt closes and the next opens |
| PromptQueue.App.OnApprovalDecision | cokra-rs/tui/src/app.rs:1538-1559 | the decision closes the approval and opens the next prompt; one that cannot be sent ends the program |
| PromptQueue.App.OnUserInputDismissed | cokra-rs/tui/src/app.rs:1560-1563 | the question closes and the next prompt opens |
| PromptQueue.App.RestorePendingPrompts | cokra-rs/tui/src/app.rs:3931-3954 | the active prompt is shown again, a request without its approval is dropped |
| PromptQueue.App.CleanupTeam | cokra-rs/tui/src/app.rs:3893-3905 | nothing is pending, queued, counted or stored |
| PromptProofs.StepOrderly | cokra-rs/tui/src/app.rs:3907-4048 | every event keeps at most one active prompt and no stall |
| PromptProofs.RunOrderly | cokra-rs/tui/src/app.rs:3907-4048 | after any events: never two active prompts, approval and request agree, and while the program runs a nonempty queue has an active prompt |
| PromptSteps.ArrivesBehind | cokra-rs/tui/src/app.rs:2172-2199 | a prompt from the background behind another one is counted, kept and queued, and nothing is shown |
| PromptSteps.ArrivesFirst | cokra-rs/tui/src/app.rs:2172-2199 | while nothing is active it is shown at once |
| PromptSteps.ForegroundWaits | cokra-rs/tui/src/app.rs:3911-3914 | a prompt of the foreground behind another one waits, and is neither counted nor kept |
| PromptSteps.BackgroundFinished | cokra-rs/tui/src/app.rs:2203-2270 | the end of a turn in the background forgets its thread, and changes nothing for any other |
| PromptSteps.ForegroundFinished | cokra-rs/tui/src/app.rs:2203-2270 | the end of a turn in the foreground forgets its thread and closes its prompt; the prompt of another thread stays |
| PromptSteps.ThreadLeaves | cokra-rs/tui/src/app.rs:2203-2270 | the prompts of the thread leave the queue wherever they are, and no others |
| PromptSteps.PickedGoesFirst | cokra-rs/tui/src/app.rs:4002-4048 | a prompt picked while another is active goes to the front, its repetitions leave the queue |
| PromptSteps.SwitchShowsAgain | cokra-rs/tui/src/app.rs:3931-3954 | after a switch of threads the active prompt is shown once more, and nothing else changes |
| PromptSteps.UnsentEnds | cokra-rs/tui/src/app.rs:1549-1556 | a decision that cannot be sent ends the program: no event does anything any more |
| PromptProofs.AnsweringDrains | cokra-rs/tui/src/app.rs:1538-1563 | answering shows the prompts of the queue in order, those left out that go as duplicates, and leaves nothing waiting |
| PromptProofs.ShownAreFirsts | cokra-rs/tui/src/app.rs:3981-3993 | a prompt is left out if and only if an earlier one has its id, or its turn |
| PromptProofs.AnsweringShowsAll | cokra-rs/tui/src/app.rs:3981-3993 | answering shows everything that waits if and only if no two approvals have the same id and no two questions the same turn |
| PromptProofs.SecondQuestionLost | cokra-rs/tui/src/app.rs:3988-3993 | of two different questions of one turn that wait together the second is never shown |
| PromptProofs.OpenQuestionCounts | cokra-rs/tui/src/app.rs:4033-4048 | opening a question keeps the count within what is stored if and only if at most one stored question has its turn |
| PromptProofs.OpenApprovalCounts | cokra-rs/tui/src/app.rs:4002-4031 | the same for an approval and its id |
| PromptProofs.RunBacked | cokra-rs/tui/src/app.rs:2172-2270 | if no prompt arrives under an id still stored, no thread ever announces more prompts than are stored for it |
| PromptProofs.NeverReusedBacked | cokra-rs/tui/src/app.rs:2172-2270 | the same, read off the events: it holds in every run in which no id and no turn comes twice to a thread in the background |
| PromptSteps.AnnouncedExactly | cokra-rs/tui/src/app.rs:2172-2270 | if prompts come in the background only, with no id or turn twice, every thread announces exactly the prompts stored for it |
| PromptProofs.SameTurnMiscounts | cokra-rs/tui/src/app.rs:4039-4044 | two questions of one turn leave a count of one with nothing stored |
| TableLayout.Widest | cokra-rs/tui/src/markdown_render.rs:789-797 | the leftmost of the widest columns above the minimum, if there is one |
| TableLayout.ClampTableWidths | cokra-rs/tui/src/markdown_render.rs:771-807 | unchanged if the table fits or cannot, otherwise of total exactly the maximum and levelled from the left |
| TableLayout.ClampedBounds | cokra-rs/tui/src/markdown_render.rs:771-807 | between the minimum and the original, and a column that gave way is within one of the widest |
| TableLayout.ClampedMinMax | cokra-rs/tui/src/markdown_render.rs:771-807 | no other widths of that total, none above the original, have a smaller maximum |
| TableLayout.ClampedUnique | cokra-rs/tui/src/markdown_render.rs:771-807 | what clamping promises leaves one result |
| TableLayout.TruncateToWidth | cokra-rs/tui/src/markdown_render.rs:830-845 | the glyphs kept by the scan |
| TableLayout.TruncatedLongest | cokra-rs/tui/src/markdown_render.rs:830-845 | a prefix that fits, and the longest such |
| TableLayout.RenderCell | cokra-rs/tui/src/markdown_render.rs:809-828 | tabs replaced, cut to the column, padded by the alignment |
| TableLayout.PadCellWidth | cokra-rs/tui/src/markdown_render.rs:809-828 | a cell is exactly as wide as its column, whatever its glyphs |
| TableLayout.RenderTableBorder | cokra-rs/tui/src/markdown_render.rs:750-769 | corner, fills and joints for every column |
| TableLayout.MeasureColumns | cokra-rs/tui/src/markdown_render.rs:477-492 | each column as wide as its widest cell, at least the minimum |
| TableProofs.NaturalWidthIs | cokra-rs/tui/src/markdown_render.rs:472-492 | as many columns as the longest row has, each wide enough for all its cells and no wider than one of them or the minimum |
| TableProofs.CellPlaced | cokra-rs/tui/src/markdown_render.rs:809-828 | the text of a cell, whole if it fits, with the blanks behind it, before it, or on both sides, differing by at most one |
| TableProofs.RowShowsCell | cokra-rs/tui/src/markdown_render.rs:513-529 | column i of a row shows its i-th cell in its alignment between bars, at the place where the column begins in every line |
| TableProofs.BorderJoins | cokra-rs/tui/src/markdown_render.rs:750-769 | a border has its corner or joint where each column begins in the rows, and lines as far as the next |
| TableProofs.TableShape | cokra-rs/tui/src/markdown_render.rs:505-543 | top border, rows in order, bottom border; a separator behind the declared header, or the first of several rows |
| TableLayout.EndTable | cokra-rs/tui/src/markdown_render.rs:469-546 | borders, rows and the separator after the header, for the clamped widths |
| TableLayout.TableEven | cokra-rs/tui/src/markdown_render.rs:508-543 | every border and every row has the width the columns add up to |
| TableLayout.TableFits | cokra-rs/tui/src/markdown_render.rs:494-503 | all lines fit the available width exactly if the narrowest table does |
| TableProofs.FitsBesidePrefix | cokra-rs/tui/src/markdown_render.rs:494-503 | behind a line prefix all lines end within the wrap width exactly if the narrowest table does |
| McpNames.QualifyToolName | cokra-rs/core/src/mcp.rs:524-542 | the suffix loop ends, with the first candidate not in use |
| McpNames.TakenBound | cokra-rs/core/src/mcp.rs:534-541 | candidates are pairwise different, so no more can be in use than there are names |
| McpNames.QualifiedExactly | cokra-rs/core/src/mcp.rs:524-560 | the name is new, has allowed characters only, and is found within one try more than there are names |
| McpNames.PlainName | cokra-rs/core/src/mcp.rs:524-560 | for allowed characters the name is the prefix, the server and the tool, in that order, with the first free number from 2 on if it is in use |
| McpNames.CleanedAt | cokra-rs/core/src/mcp.rs:544-560 | each character that is not allowed becomes an underscore, every other stays |
| McpNames.RegisterTools | cokra-rs/core/src/mcp.rs:167-189 | the registration loop for one server |
| McpNames.Connect | cokra-rs/core/src/mcp.rs:95-215 | servers taken on in order, skipped or failed |
| McpNames.ConnectedExactly | cokra-rs/core/src/mcp.rs:101-215 | fails exactly if a required server does not answer, naming the first; otherwise registers those that answer and their tools |
| McpNames.RegisteredExactly | cokra-rs/core/src/mcp.rs:167-189 | n tools make n new entries, under different names, in order, whatever sanitising merges; older entries stay |
| McpNames.EntriesResolve | cokra-rs/core/src/mcp.rs:303-308 | the entries are exactly the tools that answering servers offer and their filters admit, each on a registered server |
| McpNames.ListedInOrder | cokra-rs/core/src/mcp.rs:505-522 | a server's tools are offered in its order, each as often as listed, if they are admitted |
| McpNames.OfferedInOrder | cokra-rs/core/src/mcp.rs:101-189 | server after server, in the order of the configuration |
| UserSpans.PushElement | cokra-rs/tui/src/history_cell.rs:395-416 | what one element adds to a line; no slice is refused because the cursor always is a character boundary |
| UserSpans.LineSpans | cokra-rs/tui/src/history_cell.rs:390-424 | the spans of one line |
| UserSpans.OnLineExactly | cokra-rs/tui/src/history_cell.rs:395-410 | the part of an element on a line is what it covers there, unless it cuts a character; it may begin before the line and end behind it |
| UserSpans.BoundariesBetween | cokra-rs/tui/src/history_cell.rs:400-406 | the boundaries of a text in UTF-8 are the places before, between and behind its characters |
| UserSpans.SortedStable | cokra-rs/tui/src/history_cell.rs:381-385 | elements come in the order of their starts, none lost or added, and those that start together keep their order |
| UserSpans.BuildUserMessageLines | cokra-rs/tui/src/history_cell.rs:381-435 | the lines of a message, with the elements sorted by start |
| UserSpans.LineKept | cokra-rs/tui/src/history_cell.rs:390-424 | the spans of a line add up to it if and only if the valid ranges on it do not overlap |
| UserSpans.MessageKept | cokra-rs/tui/src/history_cell.rs:381-435 | with elements that do not overlap no text is lost, and a byte is marked exactly if an element with a valid part on its line covers it |
| UserSpans.OverlapRepeats | cokra-rs/tui/src/history_cell.rs:395-416 | overlapping elements repeat text |

## Left out

- Terminal: glyphs of width zero or more than two, cells with `skip` set, and the underline colour.
- HistoryProofs.LineAppends: word wrapping itself is input; rows are those of the terminal's own wrapping.
- Session.RunSynced: terminal resizes (`pending_viewport_area`), suspend and resume, and the alternate screen. Where a redraw leaves the terminal out of step (`HistorySynced`, `FitSynced`) a run is not followed further.
- Session.FitSynced: a requested height of 0.
- History.QueueRoom: the row count is reduced modulo 65536 as in the code; other `u16` casts cannot wrap for sizes a terminal has.
- Draw.DrawAll: controls are values, their bytes are not modelled; no output error occurs.
- CustomTerminal.Terminal.TryDraw: the frame is given as cells; widgets are not part of this model.
- PatchScripts.ScriptApplied: a script whose edits leave a blank line missing from the file at its end, or add lines before a blank last line that an edit has replaced; `ComputedDisjoint` has the exact condition there.
- PatchParser.ParsePatchText: strict mode is not modelled, and error messages are values rather than text.
- PatchApply.DeriveNewContents: reading and writing files, paths, and the summary.
- Text: the white space characters are those of Unicode; the punctuation folded by the loosest tier is the list in the code.
- Submissions.SubmissionLoop.Run: the session, the agent and the event bus are opaque; only the order of the calls is kept. Steering, approvals and answers are one event each, whether or not something was waiting for them; context-window limits and compaction are not modelled.
- ConfigLayers.MergeTomlValues: trees are values; the update in place of a shared tree is not captured. `set_dotted_key` is a recursive function on values for the same reason, and override values are given as parsed.
- ConfigLayers.EffectiveConfig: which layers there are, trust decisions and file reading. A layer's version is given, not hashed.
- PromptQueue.App: the bottom pane is the list of prompts pushed to it; status lines and steering are not modelled.
- TableLayout: the width of a text is the sum of its glyphs' widths; styles of borders and cells, and the collection of cells while parsing.
- McpNames.Connect: clients, resources and resource templates; servers come in any order.
- UserSpans.BuildUserMessageLines: styles other than marked or not, and wrapping.
