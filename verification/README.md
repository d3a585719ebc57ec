# Verification model of the UEFI SSH client

The client gives a UEFI machine an interactive SSH session: a terminal emulator draws the remote
side's bytes on the firmware console, a TCP4 socket feeds the SSH library, and a small host-side proxy
stands in for the network. This project models the parts whose behaviour spans many calls and
proves what they promise.

- **Terminal** (`TerminalState`, `TerminalEmulator` and the other `Terminal*` modules). A byte-driven
  machine over a grid that is changed in place. `TerminalEmulator.Terminal` is the mutable terminal with
  its flat cell buffers, dirty spans, parameters and replies over a console that records what it
  shows; each method's new state is a function of its old one (`TerminalState`). The theorems are about
  those functions: the dirty spans are as good as repainting everything, the result does not depend on
  how the bytes were cut up (the visible text exactly where no cell inside is stale), in-place moves are splices, and what is written (parameters, UTF-8, cursor
  reports) is read back. `State.Valid` is the invariant of every reachable state: each function keeps it.
- **Keyboard** (`Keyboard`). A queue of key strokes, each taken by one call, and the bytes they stand for.
- **Receiving and sending** (`Tcp4`, `Session`). One asynchronous receive at a time; the firmware may
  complete it at any moment, with bytes, the end of the stream or an error.
- **Proxy** (`Packets`, `Proxy`). Two activities share one connection and are interleaved wherever one of
  them waits; what runs between two waits is one step. Checksums, headers and DHCP options.
- **Host key** (`HostKey`). From a fingerprint on the command line to the decision about a key.

Where the code differs from what one would expect, the model follows the code and a lemma says exactly
when: a new terminal over a console that is not blank (`CreatedStaleWhereConsoleNotBlank`,
`NewTerminalHidesCutsExactlyOverBlank`), the colours after erasing the display (`EraseDisplayAgrees`,
`ColoursNeverWrongExactly`), a wrap left pending away from the last column
(`WrapIsStrandedExactlyByRestoreAndReset`), a repeated SYN (`EveryRunConserves`, `EveryRunDeliversExactly`), a FIN
ahead of data, which closes the host's writer all the same (`EveryRunDeliversExactly`, `EarlyFinLosesData`),
answers that found the queue full (`AnswersAreLostOnlyForRoom`), and a key stroke read into too small a
buffer, which is gone (`EveryRunSendsWhatFits`). The UTF-8 decoder takes overlong forms, as the code does;
only decoding of what an encoder wrote is claimed. In the proxy a FIN that comes with data is not counted,
as in the code.

The console of the model is of the terminal's size, neither wraps nor scrolls, and shows every character
as it is. A firmware console that scrolls when its last cell is written (section 12.4 of the UEFI
Specification) is outside these theorems.

## Model

| member | source | states |
|---|---|---|
| `TerminalRendering.StepKeeps` | WolfSshPkg/Application/WolfSsh/Terminal.c:961-1065 | No byte, in any parser state, makes a cell stale (shown wrongly on the console and outside its row's dirty span); in colours too, while the console would clear in the terminal's default colours |
| `TerminalRendering.LinePaintedShows` | WolfSshPkg/Application/WolfSsh/Terminal.c:1153-1178 | The runs of a span, painted one after the other, leave exactly the grid's cells in the span and touch no other cell of the console |
| `TerminalRendering.FlushPaintsSpans` | WolfSshPkg/Application/WolfSsh/Terminal.c:1137-1187 | A repaint paints exactly the cells in dirty spans, empties every span, and leaves the console the terminal's attribute, cursor place and cursor visibility |
| `TerminalRendering.FlushRepairs` | WolfSshPkg/Application/WolfSsh/Terminal.c:1137-1187 | After a repaint a cell shows the grid if and only if it was not stale; repaints neither create nor cure staleness |
| `TerminalRendering.RunNeverLosesACell` | WolfSshPkg/Application/WolfSsh/Terminal.c:100-211 | Over every interleaving of feeds, repaints and collected replies, a cell can only stop being stale |
| `TerminalRendering.RepaintShowsTheGridIffNothingStale` | WolfSshPkg/Application/WolfSsh/Terminal.c:1137-1187 | Every run followed by a repaint shows the whole grid if and only if no cell is stale at its start: the dirty spans are then equivalent to repainting everything |
| `TerminalRendering.CreatedStaleWhereConsoleNotBlank` | WolfSshPkg/Application/WolfSsh/Terminal.c:1068-1135 | Creation does not clear the console, so a new terminal starts with a cell stale exactly where the console is not blank |
| `TerminalRendering.EraseDisplayAgrees` | WolfSshPkg/Application/WolfSsh/Terminal.c:491-529 | ESC [ 2 J and ESC [ 3 J make every cell agree at once; in colour if and only if the console's current attribute is the terminal's default one |
| `TerminalColours.ColoursStayRightExactly` | WolfSshPkg/Application/WolfSsh/Terminal.c:491-503 | From any state: any bytes and a repaint show all characters and colours right if and only if nothing is stale in colour and the console's attribute is the terminal's default one; the witness otherwise is ESC [ 2 J |
| `TerminalColours.FlushHoldsExactly` | WolfSshPkg/Application/WolfSsh/Terminal.c:1180-1180 | A repaint keeps that condition if and only if the pen writes in the default attribute when it hands it to the console |
| `TerminalColours.ColoursNeverWrongExactly` | WolfSshPkg/Application/WolfSsh/Terminal.c:1137-1187 | Over every run from such a state: colours are right after any further bytes at every moment of the run if and only if every repaint in it finds the pen at its defaults |
| `TerminalColours.NewTerminalHoldsExactly` | WolfSshPkg/Application/WolfSsh/Terminal.c:1068-1135 | A new terminal starts so if and only if the console is blank throughout in its current attribute and that has no bright background |
| `TerminalCuts.StepAlike` | WolfSshPkg/Application/WolfSsh/Terminal.c:961-1065 | What a byte does to grids, cursor, modes and parser depends on nothing else, and what a repaint would show in the first and last column afterwards depends only on what it would have shown there before besides |
| `TerminalCuts.RunIsOneFeed` | WolfSshPkg/Application/WolfSsh/Terminal.c:961-1065 | However the bytes are cut into feeds and whatever is repainted or collected in between, grids, cursor, modes and parser end as after one feed |
| `TerminalCuts.CutsShowExactlyWhereStaleInside` | WolfSshPkg/Application/WolfSsh/Terminal.c:1137-1187 | From any state, the text visible after a last repaint is that of one feed of all bytes, for every way of cutting and repainting, if and only if no cell between the first and the last column is stale |
| `TerminalCuts.CutsShowWhereStale` | WolfSshPkg/Application/WolfSsh/Terminal.c:100-139 | For every stale cell between the first and last column, a run and its uncut form that show it differently: as the console had it, and as the grid has it |
| `TerminalCuts.NewTerminalHidesCutsExactlyOverBlank` | WolfSshPkg/Application/WolfSsh/Terminal.c:1068-1135 | For a new terminal, cuts never show if and only if the console was blank between its first and last column |
| `TerminalRuns.LineIsDrawnInUncutRuns` | WolfSshPkg/Application/WolfSsh/Terminal.c:1153-1177 | The output calls for a span are consecutive, cover it exactly once, show its cells as they are, contain no NUL, and neighbours differ in attribute |
| `TerminalRuns.RepaintMakesFewestCalls` | WolfSshPkg/Application/WolfSsh/Terminal.c:1153-1177 | No other way to cover a span correctly with single-attribute output calls needs fewer calls |
| `TerminalReplies.FeedQueuesWhatFits` | WolfSshPkg/Application/WolfSsh/Terminal.c:343-358 | Within a feed the reply queue is exactly as much of all answers, in order, as fits its 128 bytes |
| `TerminalReplies.AnswersAreLostOnlyForRoom` | WolfSshPkg/Application/WolfSsh/Terminal.c:1216-1238 | Collected bytes followed by the queue are all answers, in order, if and only if every piece found room; otherwise they are strictly fewer |
| `TerminalParsing.CommandIsIgnored` | WolfSshPkg/Application/WolfSsh/Terminal.c:1050-1059 | An operating-system command of any length without a terminator changes nothing but the parser's mode |
| `TerminalParsing.CommandEnds` | WolfSshPkg/Application/WolfSsh/Terminal.c:973-983 | A command ends exactly at the first BEL not right after ESC or backslash right after ESC, with the terminal as it was |
| `TerminalParsing.ParametersAreRead` | WolfSshPkg/Application/WolfSsh/Terminal.c:1028-1043 | Every list of 1 to 16 empty or at most seven-digit parameters, written with ';', is read back exactly |
| `TerminalParsing.ControlSequenceIsRead` | WolfSshPkg/Application/WolfSsh/Terminal.c:984-987 | From any state outside an operating-system command, a written control sequence is carried out with exactly the written parameters and private mark |
| `TerminalParsing.ReportIsQueued` | WolfSshPkg/Application/WolfSsh/Terminal.c:852-866 | ESC [ 6 n queues the cursor report for the cursor's place when there is room for it |
| `TerminalParsing.ReportSentBackRestoresTheCursor` | WolfSshPkg/Application/WolfSsh/Terminal.c:782-788 | The cursor report with its final R turned into H, fed to a terminal of that size, puts the cursor at the reported cell and changes nothing else on screen |
| `TerminalParsing.CharacterIsDecoded` | WolfSshPkg/Application/WolfSsh/Terminal.c:908-957 | The UTF-8 bytes of any typable character, from the ground state, put exactly that character |
| `TerminalParsing.TypedTextIsShown` | WolfSshPkg/Application/WolfSsh/Terminal.c:892-957 | Decoding the concatenated encodings of any typable text puts exactly its characters, in order (section 3 of RFC 3629) |
| `Keyboard.ReadKey` | WolfSshPkg/Application/WolfSsh/Terminal.c:1261-1392 | The oldest stroke is off the queue after every call, too small a buffer included; what it sends, the local exit and the size asked for; nothing is stored unless all bytes fit |
| `Keyboard.AnswersMean` | WolfSshPkg/Application/WolfSsh/Terminal.c:1286-1390 | A stroke's bytes are stored if and only if it means something to the remote side and the call that took it had room for all of them; the size asked for is more than was offered, and less than needed exactly for a multi-byte character and no room at all |
| `Keyboard.EveryRunSendsWhatFits` | WolfSshPkg/Application/WolfSsh/Terminal.c:1281-1390 | Over every run of presses and reads with any capacities: every stroke is taken by one call, in order; the bytes sent are those of exactly the strokes that fitted the call that took them; and the first local exit ends it |
| `Keyboard.BufferLosesNothingExactly` | WolfSshPkg/Application/WolfSsh/Terminal.c:1291-1386 | A buffer loses no stroke if and only if it holds five bytes, which the session's sixteen do |
| `Keyboard.EchoedKeysAreShown` | WolfSshPkg/Application/WolfSsh/Terminal.c:1366-1390 | Typed characters, encoded key by key and echoed back, show as exactly the typed characters |
| `Keyboard.SequencesDiffer` | WolfSshPkg/Application/WolfSsh/Terminal.c:1291-1358 | No two keys send the same escape sequence, in either cursor-key mode |
| `Keyboard.EchoedArrowsMoveTheCursor` | WolfSshPkg/Application/WolfSsh/Terminal.c:1292-1309 | Outside application mode, an echoed arrow key moves the cursor its way by one, and Home homes it |
| `TerminalAlternate.FeedKeepsPrimary` | WolfSshPkg/Application/WolfSsh/Terminal.c:562-589 | Bytes that stay on the alternate screen leave the primary grid and its saved place untouched |
| `TerminalAlternate.VisitLeavesPrimaryAsItWas` | WolfSshPkg/Application/WolfSsh/Terminal.c:562-614 | Switching to the alternate screen, feeding any bytes that stay on it, and switching back restores the entry grid and cursor and marks every row dirty |
| `TerminalLayout.CharacterIsLaid` | WolfSshPkg/Application/WolfSsh/Terminal.c:274-313 | One printable character after a text of any length lands in the next cell; in the last column the wrap is left pending |
| `TerminalLayout.WrapIsReady` | WolfSshPkg/Application/WolfSsh/Terminal.c:246-257 | The pending wrap moves on to the next line, scrolling exactly when the last row was full |
| `TerminalLayout.TextLayout` | WolfSshPkg/Application/WolfSsh/Terminal.c:246-313 | Any printable text of n >= 1 characters on a new terminal of any size: cell (r, c) holds character (r + shift) * columns + c or a blank, shift being the number of lines that do not fit; a full screen has not scrolled yet |
| `TerminalPaper.PaperIsShown` | WolfSshPkg/Application/WolfSsh/Terminal.c:246-313 | Any letters and CR LF line ends on a new terminal of any size show as the last rows of the same text typed on paper of that width, with the cursor after the last letter or waiting on it when its line is full |
| `TerminalCommands.EveryReachableState` | WolfSshPkg/Application/WolfSsh/Terminal.c:28-64 | In every state a new terminal can reach by feeds, repaints and collected replies: size kept, cursor in the grid, margins in order, 1 to 16 parameters in -1..9999999, UTF-8 accumulator within its bits and empty outside the ground state, colours below 16, at most 128 reply bytes, no NUL cell, spans inside their rows or empty |
| `TerminalCommands.EraseDisplayMeans` | WolfSshPkg/Application/WolfSsh/Terminal.c:491-529 | In reading order, exactly the cells up to the cursor, from it on, or all become blank; in the current attribute, or the default one for the whole display |
| `TerminalCommands.EraseLineMeans` | WolfSshPkg/Application/WolfSsh/Terminal.c:530-559 | The same within the cursor's row |
| `TerminalCommands.MoveGoesAsFarAsItCan` | WolfSshPkg/Application/WolfSsh/Terminal.c:758-770 | A written relative move goes its count or as far as there is room, forgets a pending wrap and changes nothing else on screen |
| `TerminalCommands.MovesAddUp` | WolfSshPkg/Application/WolfSsh/Terminal.c:758-770 | Moving by a and then by b ends where moving by a + b does, edges included |
| `TerminalCommands.MovesUndoExactlyWithRoom` | WolfSshPkg/Application/WolfSsh/Terminal.c:758-770 | The opposite move undoes a move if and only if there was room for all of it or the cursor started at the opposite edge |
| `TerminalCommands.PenIsReadBack` | WolfSshPkg/Application/WolfSsh/Terminal.c:425-488 | Every pen, written as a graphic rendition with each colour in its short or its palette form, is read back exactly, whatever pen was in use |
| `TerminalCommands.CharactersAreWrittenInChosenColours` | WolfSshPkg/Application/WolfSsh/Terminal.c:66-88 | A character written after a pen was chosen has just its colours: low nibble and high nibble exchanged exactly when reversed, the ink raised by 8 exactly when bold and one of the first eight, the background one of the first eight |
| `TerminalCommands.PenIsReset` | WolfSshPkg/Application/WolfSsh/Terminal.c:436-456 | ESC [ m and ESC [ 0 m give back all defaults, 39 and 49 one colour each, and change nothing else |
| `TerminalCommands.PaletteColourIsSelected` | WolfSshPkg/Application/WolfSsh/Terminal.c:360-397 | The colour each of the cube's and the greys' palette numbers selects, by its components |
| `TerminalCommands.RgbColourIsSelected` | WolfSshPkg/Application/WolfSsh/Terminal.c:399-423 | The colour a red, green and blue triple selects |
| `TerminalSequences.LinesAreInserted` | WolfSshPkg/Application/WolfSsh/Terminal.c:819-821 | ESC [ n L, default 1: n blank rows pasted in at the cursor's row, the region's last n lost; nothing outside the region, and nothing at all with the cursor outside it |
| `TerminalSequences.LinesAreDeleted` | WolfSshPkg/Application/WolfSsh/Terminal.c:822-824 | ESC [ n M: n rows cut out at the cursor's row, blank ones in at the region's end |
| `TerminalSequences.RegionIsScrolledUp` | WolfSshPkg/Application/WolfSsh/Terminal.c:840-842 | ESC [ n S: the region's first n rows cut out, blank ones in at its end |
| `TerminalSequences.RegionIsScrolledDown` | WolfSshPkg/Application/WolfSsh/Terminal.c:843-845 | ESC [ n T: n blank rows in at the region's top, its last n lost |
| `TerminalSequences.CharactersAreInserted` | WolfSshPkg/Application/WolfSsh/Terminal.c:825-827 | ESC [ n @: n blanks in at the cursor, the line's last n cells lost |
| `TerminalSequences.CharactersAreDeleted` | WolfSshPkg/Application/WolfSsh/Terminal.c:828-830 | ESC [ n P: n cells cut out at the cursor, blanks in at the line's end |
| `TerminalSequences.CharactersAreErased` | WolfSshPkg/Application/WolfSsh/Terminal.c:831-839 | ESC [ n X: n cells from the cursor on become blank in place |
| `TerminalSequences.DisplayIsErased` | WolfSshPkg/Application/WolfSsh/Terminal.c:792-794 | ESC [ n J: which cells become blank, and in which attribute, by reading order and n |
| `TerminalSequences.LineIsErased` | WolfSshPkg/Application/WolfSsh/Terminal.c:795-797 | ESC [ n K: which cells of the cursor's line become blank |
| `TerminalPlaces.CursorIsMoved` | WolfSshPkg/Application/WolfSsh/Terminal.c:758-770 | ESC [ n A, B, C, D: n up, down, right, left, default 1, clamped to the screen, and nothing else |
| `TerminalPlaces.CursorIsPlaced` | WolfSshPkg/Application/WolfSsh/Terminal.c:771-791 | ESC [ E, F, G, d, H and f: the place each goes to, with defaults and clamping, and nothing else |
| `TerminalPlaces.ReturnAndBackspacePlace` | WolfSshPkg/Application/WolfSsh/Terminal.c:918-932 | CR goes to the line's start and BS one column back |
| `TerminalPlaces.TabPlaces` | WolfSshPkg/Application/WolfSsh/Terminal.c:918-945 | HT goes to the nearest later multiple of eight, or to the last column before it |
| `TerminalPlaces.LineFeedGoesOneLineOn` | WolfSshPkg/Application/WolfSsh/Terminal.c:246-257 | LF goes one line on in the same column: at the region's last row it scrolls by one, elsewhere the cursor goes down, not off the screen |
| `TerminalPlaces.OtherBytesAreIgnored` | WolfSshPkg/Application/WolfSsh/Terminal.c:908-947 | Every other control, DEL, stray continuation and invalid byte changes nothing |
| `TerminalPlaces.EscapesSaveAndRestore` | WolfSshPkg/Application/WolfSsh/Terminal.c:995-1001 | ESC 7 saves the place, ESC 8 goes to the saved one, and a pending wrap stays as it is |
| `TerminalPlaces.RestoreReturnsToTheLastSave` | WolfSshPkg/Application/WolfSsh/Terminal.c:995-1001 | After ESC 7, any bytes that do not save again, and ESC 8, the cursor is back where it was |
| `TerminalPlaces.SequencesSaveAndRestore` | WolfSshPkg/Application/WolfSsh/Terminal.c:801-808 | ESC [ s and ESC [ u do the same and forget a pending wrap |
| `TerminalPlaces.EscapeGoesOneLineOn` | WolfSshPkg/Application/WolfSsh/Terminal.c:1002-1004 | ESC D goes one line on |
| `TerminalPlaces.EscapeStartsTheNextLine` | WolfSshPkg/Application/WolfSsh/Terminal.c:1008-1011 | ESC E goes to the start of the next line |
| `TerminalPlaces.EscapeGoesOneLineBack` | WolfSshPkg/Application/WolfSsh/Terminal.c:260-271 | ESC M goes one line back: at the region's first row it scrolls the other way |
| `TerminalPlaces.EscapeResets` | WolfSshPkg/Application/WolfSsh/Terminal.c:1012-1023 | ESC c: grid, pen, cursor and margins as new, a pending wrap, modes and saved place as before |
| `TerminalPlaces.ScrollRegionIsSet` | WolfSshPkg/Application/WolfSsh/Terminal.c:809-818 | ESC [ r sets the region and homes the cursor if and only if it has at least two rows of the screen; otherwise it only forgets a pending wrap |
| `TerminalPlaces.ModeIsSet` | WolfSshPkg/Application/WolfSsh/Terminal.c:591-614 | Private modes 1 and 25 and mode 4 are set and reset by their numbers, and the same numbers in the other family mean nothing |
| `TerminalPlaces.ModesAreSetInOrder` | WolfSshPkg/Application/WolfSsh/Terminal.c:591-614 | A list of modes, alternate screen included, sets them one after the other |
| `TerminalPlaces.AlternateIsEntered` | WolfSshPkg/Application/WolfSsh/Terminal.c:562-589 | Entering the alternate screen: blank grid, cursor home, full region, primary grid and place kept |
| `TerminalPlaces.OtherSequencesAreIgnored` | WolfSshPkg/Application/WolfSsh/Terminal.c:758-872 | A sequence with any other final byte only forgets a pending wrap |
| `TerminalPlaces.CharacterIsPut` | WolfSshPkg/Application/WolfSsh/Terminal.c:274-313 | Where a character goes, in front of the rest of the line with insert mode, and where the cursor is then |
| `TerminalPlaces.ThreeBytesArePut` | WolfSshPkg/Application/WolfSsh/Terminal.c:892-957 | Three-byte sequences put the character of their bits, or '?' for NUL and surrogates (two and four bytes alike) |
| `TerminalPlaces.FourBytesArePut` | WolfSshPkg/Application/WolfSsh/Terminal.c:892-957 | Four-byte sequences put '?' for every character beyond 16 bits |
| `TerminalPlaces.CutSequenceIsReplaced` | WolfSshPkg/Application/WolfSsh/Terminal.c:948-957 | A sequence cut short shows as one U+FFFD, and the byte that cut it counts in full |
| `TerminalPlaces.NewTerminalIs` | WolfSshPkg/Application/WolfSsh/Terminal.c:1068-1135 | The initial state, literally |
| `TerminalEditing.ScrollingIsSplicing` | WolfSshPkg/Application/WolfSsh/Terminal.c:183-243 | Scrolling is a splice of the scroll region with blank lines in the current attribute; nothing else but spans changes |
| `TerminalEditing.LineEditingIsSplicing` | WolfSshPkg/Application/WolfSsh/Terminal.c:617-678 | Inserting and deleting lines splice the rows from the cursor to the region's end, and do nothing with the cursor outside the region |
| `TerminalEditing.CharacterEditingIsSplicing` | WolfSshPkg/Application/WolfSsh/Terminal.c:680-740 | Inserting and deleting characters splice the cursor's line from the cursor on |
| `TerminalEditing.LineEditingIsScrolling` | WolfSshPkg/Application/WolfSsh/Terminal.c:617-678 | Deleting and inserting lines are scrolling up and down of the region that starts at the cursor's row |
| `TerminalEditing.ScrollsAddUp` | WolfSshPkg/Application/WolfSsh/Terminal.c:183-243 | Scrolling by a and then by b is scrolling by a + b, whatever the region's size |
| `TerminalEditing.LineEditsAddUp` | WolfSshPkg/Application/WolfSsh/Terminal.c:617-678 | Line edits of a and then b at one cursor are one edit of a + b |
| `TerminalEditing.CharacterEditsAddUp` | WolfSshPkg/Application/WolfSsh/Terminal.c:680-740 | Character edits of a and then b at one cursor are one edit of a + b |
| `TerminalEditing.DeleteUndoesInsert` | WolfSshPkg/Application/WolfSsh/Terminal.c:617-678 | Deleting as many lines as were inserted restores every line that was not pushed out of the region |
| `TerminalEditing.WrapIsStrandedExactlyByRestoreAndReset` | WolfSshPkg/Application/WolfSsh/Terminal.c:998-1023 | A pending wrap implies the last column after a byte if and only if the byte is not ESC 8 to another column or ESC c on a wider screen |
| `TerminalEditing.PendingWrapTakesTheNextLine` | WolfSshPkg/Application/WolfSsh/Terminal.c:274-285 | A pending wrap, wherever the cursor is, puts the next character in the first column of the next line, scrolling at the bottom margin |
| `Grids.PulledByCopies` | WolfSshPkg/Application/WolfSsh/Terminal.c:183-211 | Copying rows in ascending order and blanking the vacated ones is the upward move, although source and target overlap |
| `Grids.PushedByCopies` | WolfSshPkg/Application/WolfSsh/Terminal.c:214-243 | Copying rows in descending order and blanking the vacated ones is the downward move |
| `TerminalEmulator.Terminal.constructor` | WolfSshPkg/Application/WolfSsh/Terminal.c:1068-1135 | A new terminal of a given size, in its initial state over the console as it was |
| `TerminalEmulator.Terminal.Feed` | WolfSshPkg/Application/WolfSsh/Terminal.c:961-1065 | The byte loop over the mutable buffers is the fold of the byte-at-a-time step, and keeps the invariant on cursor, margins, parameters, UTF-8 accumulator, replies, spans and grids |
| `TerminalEmulator.Terminal.HandleGroundByte` | WolfSshPkg/Application/WolfSsh/Terminal.c:907-958 | Control characters, printable bytes and the UTF-8 accumulator, including the replacement of a broken sequence |
| `TerminalEmulator.Terminal.HandleCsi` | WolfSshPkg/Application/WolfSsh/Terminal.c:743-872 | Every control sequence against its step |
| `TerminalEmulator.Terminal.PutCharacter` | WolfSshPkg/Application/WolfSsh/Terminal.c:274-313 | Deferred wrap, insert mode and cell store against their step |
| `TerminalEmulator.Terminal.ScrollUp` | WolfSshPkg/Application/WolfSsh/Terminal.c:183-211 | Row copies in place are the upward move of the scroll region |
| `TerminalEmulator.Terminal.ScrollDown` | WolfSshPkg/Application/WolfSsh/Terminal.c:214-243 | Row copies in place are the downward move of the scroll region |
| `TerminalEmulator.Terminal.InsertLines` | WolfSshPkg/Application/WolfSsh/Terminal.c:617-647 | Row copies in place are the downward move from the cursor's row |
| `TerminalEmulator.Terminal.DeleteLines` | WolfSshPkg/Application/WolfSsh/Terminal.c:649-678 | Row copies in place are the upward move from the cursor's row |
| `TerminalEmulator.Terminal.InsertCharacters` | WolfSshPkg/Application/WolfSsh/Terminal.c:680-710 | Cell copies in place open a gap of blanks at the cursor |
| `TerminalEmulator.Terminal.DeleteCharacters` | WolfSshPkg/Application/WolfSsh/Terminal.c:712-740 | Cell copies in place close a gap at the cursor |
| `TerminalEmulator.Terminal.EraseDisplay` | WolfSshPkg/Application/WolfSsh/Terminal.c:491-529 | Each erase mode against its step, with the console clear and span reset of modes 2 and 3 |
| `TerminalEmulator.Terminal.SetAlternateScreen` | WolfSshPkg/Application/WolfSsh/Terminal.c:562-589 | The displayed-buffer pointer, saved place, margins and spans after a switch |
| `TerminalEmulator.Terminal.SelectGraphicRendition` | WolfSshPkg/Application/WolfSsh/Terminal.c:425-488 | The parameter loop, with its skips over colour arguments, against a recursive reading of the list |
| `TerminalEmulator.Terminal.QueueReply` | WolfSshPkg/Application/WolfSsh/Terminal.c:343-358 | As much of the reply as fits is appended |
| `TerminalEmulator.Terminal.TakeResponse` | WolfSshPkg/Application/WolfSsh/Terminal.c:1216-1238 | The oldest replies are handed out and the rest kept in order |
| `TerminalEmulator.Terminal.PaintRun` | WolfSshPkg/Application/WolfSsh/Terminal.c:1160-1177 | The loaded run is one console output of the maximal run's text, not cut by a NUL |
| `TerminalEmulator.Terminal.Flush` | WolfSshPkg/Application/WolfSsh/Terminal.c:1137-1187 | The repaint loops against the span-by-span repaint |
| `Tcp4.ReceivingDequeues` | WolfSshPkg/Application/WolfSsh/Tcp4.c:334-384 | The receive callback returns the oldest pending bytes, as many as asked for or all there are, and bytes exactly when some are pending |
| `Tcp4.CompletingEnqueues` | WolfSshPkg/Application/WolfSsh/Tcp4.c:113-134 | A completion adds exactly its bytes, with nothing pending before |
| `Tcp4.AnswersMean` | WolfSshPkg/Application/WolfSsh/Tcp4.c:363-384 | Want-read is answered only with a receive outstanding, connection-closed exactly at the end of the stream with nothing pending, and a receive is posted only over a drained buffer |
| `Tcp4.NextIsExact` | WolfSshPkg/Application/WolfSsh/Tcp4.c:82-145 | Each firmware completion, poll and callback keeps: delivered = returned ++ pending, at most one receive held, closed only after everything was returned |
| `Tcp4.EveryRunIsExact` | WolfSshPkg/Application/WolfSsh/Tcp4.c:334-384 | The same over every run from a new socket, with completions at arbitrary moments |
| `Tcp4.EndIsFinal` | WolfSshPkg/Application/WolfSsh/Tcp4.c:82-95 | After the end of the stream nothing is delivered or posted any more |
| `Tcp4.FailureIsFinal` | WolfSshPkg/Application/WolfSsh/Tcp4.c:113-134 | A receive that failed is answered for ever after by its own verdict: end of stream, reset, or general error |
| `Tcp4.EveryEndHasItsCause` | WolfSshPkg/Application/WolfSsh/Tcp4.c:363-379 | Over every run, end of stream is answered only after the firmware reported it, and a failure only after the firmware failed or refused a receive with that status |
| `Tcp4.ReceiveSocket.PostReceive` | WolfSshPkg/Application/WolfSsh/Tcp4.c:82-111 | Posting resets token and buffer, and does nothing while a receive is active or after the end |
| `Tcp4.ReceiveSocket.RecvCallback` | WolfSshPkg/Application/WolfSsh/Tcp4.c:334-384 | The callback over the mutable socket, with its poll, copy-out and next post, against its step |
| `Tcp4.WaitForCompletion` | WolfSshPkg/Application/WolfSsh/Tcp4.c:30-56 | Success if and only if the token completes within the polls the limit allows, and then without a poll too many; giving up, exactly the limit was stalled |
| `Tcp4.AwaitCancel` | WolfSshPkg/Application/WolfSsh/Tcp4.c:59-79 | After a cancel it polls up to the completing poll, or 20000 times 50 microseconds |
| `Tcp4.SendCallback` | WolfSshPkg/Application/WolfSsh/Tcp4.c:386-437 | Which answer is given in which case, each as an if and only if |
| `Session.SendAll` | WolfSshPkg/Application/WolfSsh/Main.c:29-67 | What was taken is a prefix of the buffer, all of it exactly on success; it fails at the first fatal or 2001st consecutive refusal and not before; at most 2000 stalls for every byte |
| `Packets.FoldedIsResidue` | tests/qemu_net_proxy.py:24-30 | Carry folding ends in 0..65535, congruent to the sum modulo 65535 and zero only for sum zero (section 1 of RFC 1071) |
| `Packets.ComputeChecksum` | tests/qemu_net_proxy.py:24-30 | The folding loop ends with the complement of that residue |
| `Packets.ChecksumIsAcceptedExactly` | tests/qemu_net_proxy.py:24-30 | Data with a 16-bit field checksums to zero if and only if the field is the checksum of the rest, or the other form of zero |
| `Packets.ChecksumOfKnownBytes` | tests/qemu_net_proxy.py:24-30 | The example of section 3 of RFC 1071, and an odd length: words are big-endian and a lone last byte is the high one |
| `Packets.Ipv4IsSound` | tests/qemu_net_proxy.py:37-52 | Every header byte but the checksum's, literally, with the whole length, the addresses and the payload; the header checksums to zero; it fails exactly for fields out of range |
| `Packets.TcpIsSound` | tests/qemu_net_proxy.py:59-79 | Every byte of a segment but the checksum's, literally, options padded with no-operations; it is read back with its fields and payload; with both addresses, protocol 6 and its length in front it checksums to zero; it fails exactly when too long |
| `Packets.DhcpMessageType` | tests/qemu_net_proxy.py:82-97 | The option scan against a recursive reading |
| `Packets.OptionsAreReadBack` | tests/qemu_net_proxy.py:82-97 | The first non-empty message type of any written option list is found, padding and empty options included |
| `Proxy.NextConserves` | tests/qemu_net_proxy.py:131-192 | Each block between two waits of either activity, a repeated SYN included, keeps payload conservation and numbering; any but a repeated SYN keeps the order and the single unacknowledged segment too |
| `Proxy.EveryRunConserves` | tests/qemu_net_proxy.py:131-192 | Over every interleaving: sent payloads ++ pending = bytes read from the host, and numbers are gapless modulo 2^32; at most one segment is unacknowledged and SYN-ACK, data, one FIN come in that order (bare acknowledgments anywhere) if and only if no SYN arrived on an open connection |
| `Proxy.PositionOfConversation` | tests/qemu_net_proxy.py:142-152 | server_next has advanced by the bytes sent, one for the SYN and one for the FIN |
| `Proxy.SynConservesOnlyOnce` | tests/qemu_net_proxy.py:267-272 | Handling a SYN keeps the invariant if and only if it is the first one |
| `Proxy.AcknowledgmentsCompare` | tests/qemu_net_proxy.py:274-277 | Within half the sequence space, an acknowledgment releases the next segment exactly when it covers everything sent |
| `Proxy.NextExpects` | tests/qemu_net_proxy.py:250-295 | Each block moves the expected place as its data, FIN or SYN says; the data it takes is the piece of the stream from that place on, and it forwards that unless a FIN has closed the host's writer |
| `Proxy.NextAcknowledges` | tests/qemu_net_proxy.py:131-167 | Segments are never unsent, and each carries the number that is expected once its block is done |
| `Proxy.EveryRunDelivers` | tests/qemu_net_proxy.py:250-295 | From the first SYN on, for repeated and reordered pieces of a stream of any length that are less than the sequence space away, with no SYN repeated after something was forwarded and no data taken after a FIN closed the writer: forwarded bytes are always a prefix, guest_next is the number after exactly it, or after the FIN with all of it, and no segment ever acknowledged more to the guest than had been forwarded (section 3.4 of RFC 9293) |
| `Proxy.SynKeepsDeliveryExactly` | tests/qemu_net_proxy.py:267-272 | A repeated SYN keeps this if and only if nothing was forwarded and no FIN counted |
| `Proxy.EveryRunDeliversExactly` | tests/qemu_net_proxy.py:280-295 | For a stream shorter than the sequence space with its SYN repeated anywhere: at every moment of a run what was forwarded is a prefix that is exactly acknowledged, if and only if no SYN came after something had been forwarded and no data was taken after a FIN, in its place or ahead of it, closed the writer |
| `Proxy.LateSynIsNeverMadeUp` | tests/qemu_net_proxy.py:267-272 | As long as no data is lost to a closed writer, the same holds at the end of a run if and only if no SYN came after something had been forwarded |
| `Proxy.EarlyFinLosesData` | tests/qemu_net_proxy.py:290-295 | The input that shows the second fault: SYN, [7], a FIN ahead of its place, [8]: both bytes are acknowledged, only the first was forwarded |
| `Proxy.SynOpensDeliveryExactly` | tests/qemu_net_proxy.py:169-180 | A first SYN starts delivery of its stream if and only if no data taken before it waits for the host |
| `Proxy.InOrderPieceIsForwarded` | tests/qemu_net_proxy.py:280-287 | Until a FIN closes the writer, a piece at the next place is forwarded whole |
| `Proxy.FirstSynIsAnswered` | tests/qemu_net_proxy.py:267-272 | The first SYN is answered by a SYN-ACK of the next number, from the proxy's own first number |
| `Proxy.BlockAcknowledges` | tests/qemu_net_proxy.py:288-293 | The block after a frame's data and that of its FIN each send exactly one segment, flags 0x10, no payload, acknowledging the number expected then, duplicates and out-of-order data included; a frame's other blocks send none |
| `Proxy.FinishedFrameIsAnswered` | tests/qemu_net_proxy.py:280-295 | Whenever a frame with data or FIN has been dealt with, with the host reader interleaved anywhere, some segment sent since it arrived acknowledges the place reached |
| `Proxy.AckReleasesNext` | tests/qemu_net_proxy.py:158-167 | An acknowledgment of everything sent lets the first 1200 waiting bytes go at once, under the number acknowledged |
| `Proxy.EarlyDataWaitsForTheSyn` | tests/qemu_net_proxy.py:169-180 | The first SYN forwards what had waited for the host, once and in full |
| `Proxy.NetworkProxy.HandleTcp` | tests/qemu_net_proxy.py:250-295 | The handler over the mutable connection, run without interruption, is its blocks in sequence |
| `HostKey.ParseFingerprint` | WolfSshPkg/Application/WolfSsh/Arguments.c:85-117 | Parsing succeeds if and only if the text is 64 hexadecimal digits and separators, and stores exactly the lower-case digits |
| `HostKey.RenderDigest` | WolfSshPkg/Application/WolfSsh/Auth.c:122-126 | Two lower-case digits for every byte, terminated |
| `HostKey.MatchIsSemantic` | WolfSshPkg/Application/WolfSsh/Arguments.c:85-117 | For every mix of case and separators, the stored pin equals the rendered digest if and only if the text denotes the digest's 32 bytes |
| `HostKey.DigitsAreExact` | WolfSshPkg/Application/WolfSsh/Arguments.c:67-83 | A character is a digit if and only if it is in '0'..'9', 'a'..'f' or 'A'..'F', and then the digit of its value |
| `HostKey.CaseDoesNotMatter` | WolfSshPkg/Application/WolfSsh/Arguments.c:85-117 | Texts that differ in letter case only are fingerprints both or neither, store the same pin and denote the same bytes |
| `HostKey.SeparatorsDoNotMatter` | WolfSshPkg/Application/WolfSsh/Arguments.c:100-103 | ':' and '-' vanish wherever they are, every other character stays |
| `HostKey.WrittenDigestIsDenoted` | WolfSshPkg/Application/WolfSsh/Auth.c:122-126 | A digest written out, high digits first, in any mix of cases and with any separators, is a fingerprint that denotes it and is stored in lower case |
| `HostKey.HostKeyCheck.Ask` | WolfSshPkg/Application/WolfSsh/Auth.c:87-145 | The decision is made once, by pin, by policy or by the user, and repeated for every later call; a key that cannot be hashed is rejected without deciding |
| `HostKey.PinDecides` | WolfSshPkg/Application/WolfSsh/Auth.c:128-132 | From command line to decision: a pinned key is accepted if and only if the pin text denotes its digest |
| `HostKey.ParsePort` | WolfSshPkg/Application/WolfSsh/Arguments.c:36-64 | Accepted if and only if a decimal text, of any length, with value 1 to 65535 |

## Left out

- The SSH library, SHA-256, random numbers and the handshake: third-party code. Its send call is an arbitrary sequence of partial successes and refusals, and a digest is a parameter.
- UEFI plumbing: handles, media detection, connecting, closing, events and their creation. An event's notification is part of the firmware's completion step.
- Checks for NULL pointers, except the receive callback's and TakeResponse's buffer, and failed allocations: objects of the model exist.
- Fixed-width arithmetic: the invariant bounds every stored number far below the width of its type, so nothing wraps; only sequence numbers, checksums and bytes are reduced.
- A console that wraps, scrolls or interprets what it is given, or has a size other than the terminal's.
- How close the sixteen colours come to the ones 256-colour and RGB parameters ask for: only which one each selects.
- TerminalEmulator.Terminal.ScrollUp: the row-copy loops that scrolling and line editing each have are one method here (PullRows, PushRows), as are the cell-copy loops of InsertCharacters and of insert mode.
- Keyboard.ReadKey: which key has which sequence is the table's own definition, beyond SequencesDiffer and EchoedArrowsMoveTheCursor; an error other than an empty queue from the firmware's input is not modelled, and a scan code without a sequence is the same as none.
- TerminalReplies.AnswersAreLostOnlyForRoom: counts a feed as one piece, so room is asked for all its answers together.
- Session.SendAll: the library's background work, the extra poll and the pause after a refusal have no effect on what is sent and only the number of pauses is kept.
- Tcp4.SendCallback: the poll that completes a transmit is a parameter; data is handed to the firmware as a whole.
- Proxy.EveryRunConserves: a host that can be reached, and frames already found to be addressed to the proxy and well formed.
- Proxy.EveryRunDelivers: forwarded means written while the proxy had not closed the writer; a transport that still had earlier bytes to send then may pass later ones on, and a host that breaks the connection itself may lose some. Where writing to a closed writer raises, the run of the frame handler ends there. A duplicate from a whole sequence space away cannot be told from new data, so none is admitted. A frame numbered 0 that arrives with data or FIN before the SYN is covered by SynOpensDeliveryExactly only.
- ARP and DHCP responses, Ethernet and UDP framing, message and usage texts, user authentication prompts, the target argument, the interactive session loop, scripts and build files: constant layouts or glue.
