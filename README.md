# cmdArduino command line, modelled in Dafny

cmdArduino is a command-line interpreter for an Arduino serial port. The
sketch calls `poll()` repeatedly, and `poll()` hands each available byte
to `handler()`. The handler keeps a line buffer with a cursor and decodes
the terminal's escape sequences for the arrow keys and the Delete key.
Typed bytes are echoed, and the line is redrawn after an edit in the
middle. Carriage return completes the line. In the standard mode the line
is split into space-separated tokens and the handler registered with
`add()` under the first token is called with `(argc, argv)`. In the two
JSON modes a line that has the shape `{…}` is handed to one callback.
Two ESC bytes in a row raise an exit request, which `exit_cli()` reports
once.

The repository holds two versions of the class:

- the library in `src/cmdArduino.cpp` and `src/cmdArduino.h`;
- an older, simpler handler in the root `cmdArduino.cpp`. It has no
  cursor, no escape sequences and no modes, and a configurable exit
  character instead of the double ESC.

The model has three layers.

- **Specification functions on values.**
  - `LineEdit`: the line edits and what each one writes to the terminal.
  - `EscapeSeq`: the escape-sequence decoder and `check_esc_cmd`.
  - `Tokenizer`: `strtok` and the argv loop.
  - `Registry`: the command list.
  - `JsonShape`: the brace test of `parse_json`.
  - `Parsing`: what `parse_std` and `parse_json` do with a completed line.
  - `CmdSpec`: the whole object as a state machine. `Step` is one byte
    through `handler()` and `Run` is `poll()`.
  - `LegacySpec`: the same for the older handler.
- **Classes.** `CmdArduino.Cmd` and `LegacyCmdArduino.LegacyCmd` keep
  `msg` and `_esc_cmd` as arrays updated in place, and the pointers as
  indices.
  - Every method is proved to move the object's abstract state exactly as
    the specification function says.
  - Every method is proved to append exactly the specified events to
    `trace`.
- **The stream.** It is a trace of `Terminal.Event`s: every write, in
  order, and every call of a user handler or of the JSON callback. Writes
  made through `cli_print`/`cli_println` appear only while `_print` (here
  `echo`) is set. The bytes `poll()` reads are the parameter `input`.

Integers are unbounded, except the one place where the width changes
behaviour: the `uint8_t` counters of the cursor-left loops (see
Findings). `char` is treated as an unsigned byte.

Where the library's own documentation and the code disagree, the model
follows the code:

- A second ESC while a sequence is being collected is appended to the
  accumulator (`esc_key`, src/cmdArduino.cpp:450-456). It does not
  restart the accumulator at length one, so `ESC ESC x` is an unknown
  three-byte sequence that swallows `x`.
- The JSON shape test also rejects a `}` anywhere before the last byte,
  because it compares the first `strchr(cmd, '}')` with the last
  position. It does more than require '{' first, '}' last and no second
  '{'.
- The line is not dropped when the exit request is raised. It is dropped
  when `exit_cli()` reports the request.

## Model

| member | source | states |
|---|---|---|
| Defs.CString | src/cmdArduino.cpp:222-223 | the string a NUL-terminated buffer stands for is a prefix of it, holds no NUL, and ends where the first NUL is |
| Defs.SequenceSizes | src/cmdArduino.h:73-81 | the cursor sequences are ESC_CMD_SIZE bytes long and the Delete report ESC_EXT_CMD_SIZE bytes, which fits with its terminator in `_esc_cmd`, and none contains a NUL |
| Defs.CStringNulFree | src/cmdArduino.cpp:545 | a buffer without NUL is read by strlen/strcmp as itself |
| Defs.CStringTerminated | src/cmdArduino.cpp:223 | storing NUL at msg_ptr makes the C string exactly the typed bytes, whatever the buffer holds after them |
| Terminal.EchoAll | src/cmdArduino.cpp:617-620 | printing a run of bytes writes one event per byte |
| Terminal.Out | src/cmdArduino.h:205-208 | a gated write reaches the stream unchanged exactly when `_print` is set (or there is nothing to write), and is lost otherwise |
| Terminal.OutAppend | src/cmdArduino.h:205-208 | gating writes on `_print` distributes over a sequence of writes |
| Terminal.MovesEchoAll | src/cmdArduino.cpp:617-620 | reprinting `s` moves the terminal cursor \|s\| columns right and emits no cursor-left |
| Terminal.MovesLefts | src/cmdArduino.cpp:654 | `n` ESC_CMD_LEFT writes move the terminal cursor exactly `n` columns left |
| LineEdit.Insert | src/cmdArduino.cpp:484-497 | typing a byte makes the line one byte longer and moves the cursor one past it |
| LineEdit.InsertRedraw | src/cmdArduino.cpp:484-507 | at the end of the line only the byte is echoed; in the middle a clear, the reprint of the tail (the new byte included) and one cursor-left per byte after the new one, 2 × (bytes after the cursor) + 2 writes in all |
| LineEdit.Delete | src/cmdArduino.cpp:644-648 | the cursor stays; one byte goes when there is one under the cursor, and at the end of the line nothing changes |
| LineEdit.DeleteRedraw | src/cmdArduino.cpp:650-654 | a clear, one echo per remaining byte after the cursor and as many cursor-lefts |
| LineEdit.Backspace | src/cmdArduino.cpp:665-675 | nothing at the start of the line; elsewhere the cursor moves one left and the line loses one byte |
| LineEdit.BackspaceRedraw | src/cmdArduino.cpp:665-675 | nothing is written exactly at the start of the line; at the end only the erase byte is echoed; in the middle a cursor-left and the delete redraw, 2 × (bytes after the cursor) + 2 writes in all |
| LineEdit.Left | src/cmdArduino.cpp:579-588 | the text stays; the cursor moves one left unless it is at the start |
| LineEdit.LeftRedraw | src/cmdArduino.cpp:579-588 | one cursor-left is written exactly when the cursor moves, and nothing otherwise |
| LineEdit.Right | src/cmdArduino.cpp:591-600 | the text stays; the cursor moves one right unless it is at the end |
| LineEdit.RightRedraw | src/cmdArduino.cpp:591-600 | one cursor-right is written exactly when the cursor moves, and nothing otherwise |
| LineEdit.EditsKeepValid | src/cmdArduino.cpp:471-481 | insert below capacity, delete, backspace and both arrows keep 0 <= cursor <= length <= CMD_MAX_MSG_SIZE - 1; an insert adds exactly one byte |
| LineEdit.InsertAt | src/cmdArduino.cpp:492-497 | inserting puts `c` at the old cursor, keeps the bytes before it and shifts every later byte up by one |
| LineEdit.InsertByIndex | src/cmdArduino.cpp:493-496 | a buffer that agrees index by index with the shifted-and-inserted line is that line |
| LineEdit.DeleteByIndex | src/cmdArduino.cpp:645-648 | a buffer that agrees index by index with the line shifted down over the cursor is the deleted line |
| LineEdit.DeleteAt | src/cmdArduino.cpp:644-648 | delete removes exactly the byte under the cursor, keeps the cursor, and changes nothing at the end of the line |
| LineEdit.RedrawOpenings | src/cmdArduino.cpp:611-622 | cursor_print opens every redraw with the clear: the insert redraw opens with the clear and then the new byte, the delete redraw with the clear, and the backspace redraw in the middle with its own cursor-left and then the clear |
| LineEdit.BackspaceAt | src/cmdArduino.cpp:665-675 | backspace does nothing at the start of the line and otherwise is a delete one position to the left |
| LineEdit.InsertThenBackspace | src/cmdArduino.cpp:658-677 | backspace after an insertion restores text and cursor |
| LineEdit.InsertThenDelete | src/cmdArduino.cpp:625-655 | deleting at the old cursor after an insertion restores the line |
| LineEdit.LeftRightInverse | src/cmdArduino.cpp:579-600 | right undoes left and left undoes right wherever they move; neither touches the text |
| LineEdit.InsertRedrawInSync | src/cmdArduino.cpp:499-506 | the redraw after an insertion moves the terminal cursor by exactly as much as the buffer cursor moves |
| LineEdit.DeleteRedrawInSync | src/cmdArduino.cpp:650-654 | the redraw after a delete returns the terminal cursor to where it was, like the buffer cursor |
| LineEdit.BackspaceRedrawInSync | src/cmdArduino.cpp:665-675 | backspace moves the terminal cursor exactly as it moves the buffer cursor |
| LineEdit.ArrowRedrawInSync | src/cmdArduino.cpp:579-600 | each arrow key moves the terminal cursor exactly as it moves the buffer cursor |
| LineEdit.RedrawLeftCount | src/cmdArduino.cpp:503 | the cursor-left writes after a redraw number exactly the bytes after the new cursor |
| LineEdit.Uint8Counter | src/cmdArduino.cpp:503 | a uint8_t counter incremented `k` times from 0 holds k mod 256 |
| LineEdit.LongTailOverflowsUint8 | src/cmdArduino.cpp:503 | inserting with 256 or more bytes after the cursor needs at least 256 cursor-left writes |
| LineEdit.LongTailOverflowsUint8OnDelete | src/cmdArduino.cpp:654 | deleting with 257 or more bytes after the cursor needs at least 256 cursor-left writes |
| LineEdit.InsertWalkBackNeverEnds | src/cmdArduino.cpp:503 | on a line with room and 256 or more bytes after the cursor, the uint8_t counter of standard_key's walk-back loop stays below the number of cursor-lefts due, however often it is incremented, so the loop never exits |
| LineEdit.DeleteWalkBackNeverEnds | src/cmdArduino.cpp:654 | with 257 or more bytes after the cursor, the uint8_t counter of esc_cmd_del's walk-back loop stays below the number of cursor-lefts due, so the loop never exits |
| LineEdit.LongTailExists | src/cmdArduino.cpp:471-472 | a valid line below capacity with 256 bytes after the cursor exists |
| EscapeSeq.Classify | src/cmdArduino.cpp:544-576 | an accumulator is classified as up, left, right or delete exactly when its C string equals that sequence |
| EscapeSeq.FeedByte | src/cmdArduino.cpp:518-530 | the byte is always appended; a sequence left pending from ESC_CMD_SIZE bytes on has just set the extended flag, which was clear, and a shorter one leaves the flag as it was |
| EscapeSeq.FeedAppends | src/cmdArduino.cpp:518-530 | a non-ESC byte is always appended; a sequence completes only from ESC_CMD_SIZE bytes on, and at the third byte unless it is a digit that starts the extended form |
| EscapeSeq.KnownSequences | src/cmdArduino.cpp:511-541 | ESC [ A, ESC [ D and ESC [ C complete at their third byte and ESC [ 3 ~ at its fourth, and each classifies as its key |
| EscapeSeq.UnknownUnlessKnownFinal | src/cmdArduino.cpp:544-576 | a completed sequence whose last byte is not A, C, D or ~ does nothing |
| EscapeSeq.NotCsiUnknown | src/cmdArduino.cpp:544-576 | a sequence whose second byte is not '[' matches no key |
| EscapeSeq.FeedTame | src/cmdArduino.cpp:518-526 | from at most two collected bytes, or three with the extended flag, a non-ESC byte fits in `_esc_cmd` and the decoder stays that short or completes a sequence of at most four bytes |
| EscapeSeq.DeleteIsExact | src/cmdArduino.cpp:563-565 | a byte completes the Delete key only if the accumulator plus that byte is exactly ESC [ 3 ~ |
| EscapeSeq.FullAccumulatorOverruns | src/cmdArduino.cpp:518-519 | once the accumulator holds ESC_BUF_SIZE bytes, no byte can be stored without writing past `_esc_cmd` |
| Tokenizer.TokenEnd | src/cmdArduino.cpp:318 | the end of a token is the first space at or after its start, or the end of the line |
| Tokenizer.Strtok | src/cmdArduino.cpp:318-322 | strtok returns NULL with nothing left, or a non-empty space-free token and a strictly shorter remainder |
| Tokenizer.Tokens | src/cmdArduino.cpp:318-323 | the strtok loop over a line yields no more tokens than the line has bytes |
| Tokenizer.ArgCount | src/cmdArduino.cpp:318-326 | argc is the token count when it is between 1 and the limit, the limit when there are more tokens, and 1 for a line without tokens |
| Tokenizer.ArgvOf | src/cmdArduino.cpp:318-326 | argv has argc slots; slot j holds token j when there is one, and NULL exactly when there is not |
| Tokenizer.TokensAreWords | src/cmdArduino.cpp:318-323 | every token is a non-empty run of non-space bytes |
| Tokenizer.TokensLeadingSpace | src/cmdArduino.cpp:318 | leading spaces are skipped |
| Tokenizer.TokensBlank | src/cmdArduino.cpp:318 | a line of spaces only has no token, so argv[0] is NULL |
| Tokenizer.TokensWord | src/cmdArduino.cpp:318-322 | a word without spaces is one token |
| Tokenizer.TokensSplit | src/cmdArduino.cpp:318-323 | the tokens of `a`, a space and `b` are the tokens of `a` followed by those of `b` |
| Tokenizer.ArgvHoldsTokens | src/cmdArduino.cpp:318-326 | argv holds the first min(tokens, limit) tokens in order, or a single NULL when there is none |
| Tokenizer.StrtokNext | src/cmdArduino.cpp:320-322 | each strtok(NULL) call returns the next token in order, or NULL past the last |
| Tokenizer.SplitArgs | src/cmdArduino.cpp:318-326 | the do-while loop yields argc = the token count capped at the limit (at least 1) and argv = those tokens in order, never writing past an argv one slot larger than the limit |
| Tokenizer.ArgvOverrun | src/cmdArduino.cpp:310-323 | with at least as many tokens as the limit, the loop's last store is at index argc == limit, one past an argv of `limit` slots |
| Tokenizer.RepeatWordTokens | src/cmdArduino.cpp:318-323 | a line of `n` one-letter words has exactly `n` tokens, so lines that hit the limit exist |
| Tokenizer.AddExample | src/cmdArduino.cpp:318-326 | "add 3 4" yields argc 3 and argv "add", "3", "4" |
| Registry.Register | src/cmdArduino.cpp:119-138 | add() puts one new node, with the name copied as a C string, in front of the list |
| Registry.Find | src/cmdArduino.cpp:329-336 | the search finds the first node from the head whose name equals the token, and finds nothing exactly when no node matches |
| Registry.Lookup | src/cmdArduino.cpp:329-336 | a handler is found exactly when some node carries the name |
| Registry.FindCommand | src/cmdArduino.cpp:329-336 | the loop over the list returns what the first-match search defines |
| Registry.LookupAfterRegister | src/cmdArduino.cpp:119-138 | after add(name, f) the name reaches `f`, and every other name reaches what it reached before |
| Registry.LookupMeansAdded | src/cmdArduino.cpp:119-138 | a name is found exactly when it was added |
| Registry.AddedTwiceExample | src/cmdArduino.cpp:119-138 | when "add" is added twice, the later handler wins |
| JsonShape.Strchr | src/cmdArduino.cpp:350 | strchr returns the first occurrence of the byte, or NULL exactly when the byte is absent |
| JsonShape.JsonShaped | src/cmdArduino.cpp:350 | a line that passes the test has two or more bytes, starts with '{' and ends with '}' |
| JsonShape.JsonShapedIff | src/cmdArduino.cpp:350 | the test accepts exactly the lines of two or more bytes with '{' first and '}' last and no other brace |
| JsonShape.FlatObjectForwarded | src/cmdArduino.cpp:350-353 | {"k":1} passes the test |
| JsonShape.NestedObjectDropped | src/cmdArduino.cpp:350 | {"k":{"x":1}} fails the test |
| JsonShape.PlainTextDropped | src/cmdArduino.cpp:350 | "not json" fails the test |
| JsonShape.EarlyCloseDropped | src/cmdArduino.cpp:350 | "{}}" fails the test although it starts with '{', ends with '}' and has no second '{' |
| Parsing.Dispatch | src/cmdArduino.cpp:308-345 | with a matching name the handler is called first with (argc, argv) and the display follows; otherwise exactly the not-recognised message, a line break and the display are written; with echo off nothing is written |
| Parsing.HandlerSeesItsName | src/cmdArduino.cpp:327-336 | the handler called gets argc equal to the number of argv slots, at least one, and an argv[0] that is a name added with add() |
| Parsing.JsonEvents | src/cmdArduino.cpp:348-354 | the callback is called once with the line exactly when the line has the brace shape; nothing else happens |
| Parsing.AddThreeFourExample | src/cmdArduino.cpp:308-345 | with "add" registered, the line "add 3 4" calls its handler with 3 and "add", "3", "4", then redraws |
| Parsing.UnknownCommandExample | src/cmdArduino.cpp:338-344 | an unknown command calls nothing and prints the not-recognised message and the display |
| CmdSpec.Reset | src/cmdArduino.cpp:424-433 | rst_msg_ptr empties the line (text and cursor) and the accumulator and leaves the extended flag as it was |
| CmdSpec.StandardKeyEffect | src/cmdArduino.cpp:459-508 | a full line is dropped with the error between line breaks; otherwise `c` lands at the cursor, the line grows by one and the cursor moves past `c`, which alone is echoed at the end of the line; only the line and the accumulator change, and nothing is written with echo off |
| CmdSpec.BackspaceKeyEffect | src/cmdArduino.cpp:658-677 | nothing happens at the start of the line; elsewhere the line loses one byte and the cursor moves one left, with only the erase byte echoed at the end of the line; only the line changes |
| CmdSpec.EscKeyEffect | src/cmdArduino.cpp:450-456 | ESC is appended to the accumulator and raises the exit request exactly when it follows a lone ESC; nothing else changes |
| CmdSpec.ExecuteEffect | src/cmdArduino.cpp:544-655 | check_esc_cmd's actions change only the line and keep it valid; only the Delete key changes the text; up and unknown sequences change nothing and write nothing |
| CmdSpec.EscCharEffect | src/cmdArduino.cpp:511-541 | ESC and a byte that leaves the sequence pending are stored and write nothing; a completing byte empties the accumulator and clears the extended flag; table, mode, echo and callback never change |
| CmdSpec.ReturnKeyEffect | src/cmdArduino.cpp:212-244 | Enter on an empty line changes nothing; on any other line the buffers are reset, nothing else changes, and the parser's output follows a line break that is written only while echo is on |
| CmdSpec.ParsedEffect | src/cmdArduino.cpp:308-354 | in a JSON mode the callback is called at most once, exactly for a brace-shaped line and with that line; in the standard mode a known first word calls its handler first, and an unknown one writes exactly the not-recognised message, a line break and the display |
| CmdSpec.SetMode | src/cmdArduino.cpp:156-183 | mode() sets the mode, empties line and accumulator, turns echo off exactly for CLI_MODE_JSON, writes nothing in the two JSON modes and exactly the prompt (a line break and the prompt) in every other mode, unknown ones included, and changes nothing else |
| CmdSpec.ExitCli | src/cmdArduino.cpp:194-209 | exit_cli answers the flag and clears it; without a request nothing changes, and with one the line and the accumulator are emptied as well |
| CmdSpec.Add | src/cmdArduino.cpp:119-138 | add() lengthens the command list by one node, through which the name now reaches the new handler; nothing else changes |
| CmdSpec.AttachJson | src/cmdArduino.cpp:189-191 | attach_json_callback sets the callback and changes nothing else |
| CmdSpec.Step | src/cmdArduino.cpp:363-402 | every byte handled from a valid state leaves a valid state: line invariant, accumulator within `_esc_cmd`, a pending sequence starting with ESC |
| CmdSpec.Run | src/cmdArduino.cpp:441-447 | poll() over any defined input keeps the invariant |
| CmdSpec.RunDefinedAppend | src/cmdArduino.cpp:441-447 | feeding `a + b` is defined exactly when feeding `a`, and then `b`, is |
| CmdSpec.RunAppend | src/cmdArduino.cpp:441-447 | how the bytes are split across poll() calls changes neither the final state nor the output |
| CmdSpec.InitInv | src/cmdArduino.cpp:50-58 | a new object satisfies the invariant |
| CmdSpec.OperationsPreserveInv | src/cmdArduino.cpp:119-209 | mode, exit_cli, add and attach_json_callback keep the invariant |
| CmdSpec.ExecuteIgnoresEsc | src/cmdArduino.cpp:544-576 | what a completed sequence does depends on the line and echo only, not on the accumulator it came from |
| CmdSpec.ExitFlag | src/cmdArduino.cpp:450-456 | after a byte the exit flag is set exactly when it was set before or the byte is an ESC following a lone ESC |
| CmdSpec.ExitCliOnce | src/cmdArduino.cpp:194-209 | exit_cli answers the flag, answers false when called again, and drops the line and the accumulator when it answers true |
| CmdSpec.EscStarts | src/cmdArduino.cpp:450-456 | ESC on an idle decoder starts a sequence and writes nothing |
| CmdSpec.CsiOpens | src/cmdArduino.cpp:518-522 | '[' after ESC is collected and writes nothing |
| CmdSpec.CsiDigitPending | src/cmdArduino.cpp:522-526 | a digit after ESC [ is collected and sets the extended flag |
| CmdSpec.ArrowKeys | src/cmdArduino.cpp:511-605 | ESC [ D moves left, ESC [ C moves right and ESC [ A does nothing, with the matching terminal writes; the first two bytes change nothing visible |
| CmdSpec.DeleteKey | src/cmdArduino.cpp:511-576 | ESC [ 3 ~ with the extended flag clear deletes the byte under the cursor and redraws; the first three bytes write nothing |
| CmdSpec.DoubleEscapeSwallowsNextByte | src/cmdArduino.cpp:511-541 | ESC ESC raises the exit request, and the next non-digit byte completes an unknown sequence that leaves the line untouched |
| CmdSpec.EscapeBytesNeverEditText | src/cmdArduino.cpp:367-369 | while a sequence is pending, a byte changes the text only when it completes exactly ESC [ 3 ~ |
| CmdSpec.EscOverrunReachable | src/cmdArduino.cpp:450-456 | five ESCs from a new object fill `_esc_cmd`, after which every byte would be written past it |
| CmdSpec.KeyThenBackspace | src/cmdArduino.cpp:459-508 | a standard byte typed with room, followed by BS or DEL, gives back the state before it |
| CmdSpec.EmptyReturn | src/cmdArduino.cpp:212-220 | Enter on an empty line changes nothing and only redraws the prompt |
| CmdSpec.AppendAtEnd | src/cmdArduino.cpp:484-491 | a standard byte at the end of a line with room is appended and echoed alone |
| CmdSpec.OverflowResets | src/cmdArduino.cpp:471-481 | a standard byte on a full line drops the line and prints the error between line breaks |
| CmdSpec.SilentWhenEchoOff | src/cmdArduino.h:205-208 | with echo off a byte writes nothing to the stream |
| CmdSpec.StepKeepsTerminalInSync | src/cmdArduino.cpp:363-402 | with echo on, every byte but Enter and an overflowing byte moves the terminal cursor exactly as it moves the buffer cursor |
| CmdSpec.EscCharInSync | src/cmdArduino.cpp:511-541 | a byte of an escape sequence keeps terminal and buffer cursor in step |
| CmdSpec.ExecuteInSync | src/cmdArduino.cpp:544-576 | each action of check_esc_cmd keeps terminal and buffer cursor in step |
| CmdSpec.ModeEffects | src/cmdArduino.cpp:156-183 | mode() empties the buffers, turns echo off only for CLI_MODE_JSON, writes nothing exactly for the two JSON modes, and writes a line break and the prompt for the standard and any unknown mode |
| CmdSpec.JsonLineForwarded | src/cmdArduino.cpp:229-243 | in a JSON mode, a completed line reaches the callback, unchanged, exactly when it has the brace shape, and the line is emptied |
| CmdSpec.StdLineDispatched | src/cmdArduino.cpp:222-243 | in the standard mode, a completed line is printed past a line break, dispatched, and the buffers reset |
| CmdSpec.StaleExtendedFlag | src/cmdArduino.cpp:424-433 | after ESC [ 3 and a mode switch the flag survives, and the next Delete key inserts '~' into the line |
| CmdSpec.ResetAll | src/cmdArduino.cpp:424-433 | a reset that also clears the extended flag leaves no escape state |
| CmdSpec.DeleteKeyAfterResetAll | src/cmdArduino.cpp:424-433 | with that reset the Delete key decodes and deletes after any interrupted sequence |
| CmdArduino.Cmd.constructor | src/cmdArduino.cpp:50-58 | a new object holds the initial state and has written nothing |
| CmdArduino.Cmd.AbsInv | src/cmdArduino.h:209-252 | the fields' invariant implies the state machine's invariant |
| CmdArduino.Cmd.Write | src/cmdArduino.h:205-208 | a write reaches the trace only while echo is on |
| CmdArduino.Cmd.Display | src/cmdArduino.cpp:251-265 | display() writes a line break, the banner line and the prompt |
| CmdArduino.Cmd.DisplayPrompt | src/cmdArduino.cpp:289-299 | display_prompt() writes a line break and the prompt |
| CmdArduino.Cmd.CursorPrint | src/cmdArduino.cpp:611-622 | clears to the end of the line, reprints every byte from the cursor on, and returns how many it printed |
| CmdArduino.Cmd.MoveLeft | src/cmdArduino.cpp:654 | writes exactly `n` cursor-left sequences |
| CmdArduino.Cmd.RstMsgPtr | src/cmdArduino.cpp:424-433 | moves the object to the reset state and writes nothing |
| CmdArduino.Cmd.InitBuffers | src/cmdArduino.cpp:415-421 | resets the buffers and empties the command list |
| CmdArduino.Cmd.InsertAtCursor | src/cmdArduino.cpp:492-497 | the shift loop and store leave `msg` holding the inserted line |
| CmdArduino.Cmd.DeleteAtCursor | src/cmdArduino.cpp:644-648 | the shift loop leaves `msg` holding the line without the byte under the cursor |
| CmdArduino.Cmd.AppendKey | src/cmdArduino.cpp:484-491 | at the end of the line the byte is appended and echoed |
| CmdArduino.Cmd.InsertKey | src/cmdArduino.cpp:492-507 | in the middle the byte is inserted, the tail reprinted and the terminal cursor walked back to just after it |
| CmdArduino.Cmd.StandardKey | src/cmdArduino.cpp:459-508 | state and output are those of the specified standard key |
| CmdArduino.Cmd.EscCmdDel | src/cmdArduino.cpp:625-655 | deletes the byte under the cursor, reprints the tail and walks the terminal cursor back over it |
| CmdArduino.Cmd.BackspaceMid | src/cmdArduino.cpp:670-675 | in the middle: one cursor-left, then the delete one position to the left |
| CmdArduino.Cmd.Backspace | src/cmdArduino.cpp:658-677 | state and output are those of the specified backspace |
| CmdArduino.Cmd.EscCmdLeft | src/cmdArduino.cpp:579-588 | state and output are those of the left arrow |
| CmdArduino.Cmd.EscCmdRight | src/cmdArduino.cpp:591-600 | state and output are those of the right arrow |
| CmdArduino.Cmd.EscCmdUp | src/cmdArduino.cpp:603-605 | the up arrow changes nothing and writes nothing |
| CmdArduino.Cmd.EscKey | src/cmdArduino.cpp:450-456 | stores the ESC and raises the exit request when it follows a lone ESC |
| CmdArduino.Cmd.CheckEscCmd | src/cmdArduino.cpp:544-576 | runs the action the terminated accumulator classifies as |
| CmdArduino.Cmd.PushEsc | src/cmdArduino.cpp:518-519 | appends one byte to the accumulator |
| CmdArduino.Cmd.FinishEsc | src/cmdArduino.cpp:527-539 | terminates the accumulator, runs its action, and clears the accumulator and the extended flag |
| CmdArduino.Cmd.HandleEscCmdChar | src/cmdArduino.cpp:511-541 | state and output are those of the specified escape byte |
| CmdArduino.Cmd.ParseStd | src/cmdArduino.cpp:308-345 | the trace grows by the specified dispatch of the line, with at most CMD_MAX_ARGS arguments |
| CmdArduino.Cmd.ParseJson | src/cmdArduino.cpp:348-354 | the trace grows by the callback call exactly when the line has the brace shape |
| CmdArduino.Cmd.Submit | src/cmdArduino.cpp:222-240 | terminates the line, writes the line break and hands the line to the parser of the current mode |
| CmdArduino.Cmd.ReturnKey | src/cmdArduino.cpp:212-244 | state and output are those of the specified Enter key |
| CmdArduino.Cmd.Handler | src/cmdArduino.cpp:363-402 | state and output are those of one specified step |
| CmdArduino.Cmd.Poll | src/cmdArduino.cpp:441-447 | state and output are those of the specified run over the input, and the invariant holds after it |
| CmdArduino.Cmd.Mode | src/cmdArduino.cpp:156-183 | state and output are those of the specified mode switch |
| CmdArduino.Cmd.AttachJsonCallback | src/cmdArduino.cpp:189-191 | sets the callback and nothing else |
| CmdArduino.Cmd.ExitCli | src/cmdArduino.cpp:194-209 | the answer and the new state are those of the specified exit_cli |
| CmdArduino.Cmd.Add | src/cmdArduino.cpp:119-138 | the command list gains the new node at its head |
| LegacySpec.Step | cmdArduino.cpp:202-270 | every byte keeps the line shorter than CMD_MAX_MSG_SIZE - 1 and leaves the command list alone |
| LegacySpec.Run | cmdArduino.cpp:278-284 | poll() over any defined input keeps the invariant |
| LegacySpec.PlainKey | cmdArduino.cpp:256-260 | a plain byte with room is printed and appended |
| LegacySpec.OverflowClears | cmdArduino.cpp:256-267 | the byte that fills the line to CMD_MAX_MSG_SIZE - 1 is printed, then the error, and the line is dropped |
| LegacySpec.KeyThenRubout | cmdArduino.cpp:231-247 | typing a plain byte and rubbing it out with BS or DEL gives back the state |
| LegacySpec.ExitKeyOnlyFlags | cmdArduino.cpp:249-254 | the exit character only raises the flag |
| LegacySpec.ReturnDispatches | cmdArduino.cpp:208-229 | Enter on an empty line only redraws the prompt; otherwise the line is emptied and, when a command matches, its handler is called right after the line break with at most 30 arguments and the display follows; otherwise exactly the not-recognised message, a line break and the display follow the line break |
| LegacySpec.ExitCliOnce | cmdArduino.cpp:365-380 | exit_cli answers the flag once, and drops the line when it answers true |
| LegacySpec.ExitCli | cmdArduino.cpp:365-380 | exit_cli answers the flag and clears it; without a request nothing changes, and with one the line is emptied as well |
| LegacySpec.Add | cmdArduino.cpp:312-331 | add() lengthens the command list by one node, through which the name now reaches the new handler; nothing else changes |
| LegacySpec.AgreesWithLibraryOnTyping | cmdArduino.cpp:256-260 | for a plain byte typed at the end of a line with room, the old handler and the library store and print the same thing |
| LegacySpec.LineFeedDiffers | cmdArduino.cpp:256-260 | a line feed is stored by the old handler and ignored by the library's |
| LegacyCmdArduino.LegacyCmd.constructor | cmdArduino.cpp:50-58 | a new object holds the initial state and has written nothing |
| LegacyCmdArduino.LegacyCmd.InitBuffers | cmdArduino.cpp:345-352 | empties the line and the command list |
| LegacyCmdArduino.LegacyCmd.Display | cmdArduino.cpp:99-113 | writes a line break, the banner line and the prompt |
| LegacyCmdArduino.LegacyCmd.DisplayPrompt | cmdArduino.cpp:137-147 | writes a line break and the prompt |
| LegacyCmdArduino.LegacyCmd.Parse | cmdArduino.cpp:156-193 | the trace grows by the specified dispatch of the line, with at most 30 arguments |
| LegacyCmdArduino.LegacyCmd.ReturnKey | cmdArduino.cpp:218-229 | terminates the line, writes the line break, parses the line and empties it |
| LegacyCmdArduino.LegacyCmd.BackspaceKey | cmdArduino.cpp:231-247 | drops the last byte and prints the key, or does nothing on an empty line |
| LegacyCmdArduino.LegacyCmd.StoreKey | cmdArduino.cpp:256-268 | prints and stores the byte, and drops the line with the error once it reaches CMD_MAX_MSG_SIZE - 1 bytes |
| LegacyCmdArduino.LegacyCmd.Handler | cmdArduino.cpp:202-270 | state and output are those of one specified step |
| LegacyCmdArduino.LegacyCmd.Poll | cmdArduino.cpp:278-284 | state and output are those of the specified run over the input |
| LegacyCmdArduino.LegacyCmd.Add | cmdArduino.cpp:312-331 | the command list gains the new node at its head |
| LegacyCmdArduino.LegacyCmd.ExitCli | cmdArduino.cpp:365-380 | the answer and the new state are those of the specified exit_cli |

## Left out

- The serial stream: `begin`, `set_stream`, the two constructors' stream pointers and `fflush`. The bytes read are the parameter of `Poll`, and the writes are a trace of events, not characters. The banner, prompt and error texts are single events.
- `conv` (a call of `strtol`) and `display_banner`: neither is used by the command line itself.
- User handlers and the JSON callback are opaque numbers. Calling one is recorded as an event; what it does, including calling back into the object, is not modelled.
- `malloc` in `add` is taken to succeed, and a node's name is the C string of the name passed.
- `cmd_tbl` is never initialised when no command was added. The model reads that as an empty list.
- `CmdArduino.Cmd.Handler` and `CmdSpec.Step` require that a byte is never written past `_esc_cmd` (`EscapeSeq.Fits`). The library has no such check: `CmdSpec.EscOverrunReachable` shows that five ESCs reach the overrun. What the library does after the overrun is not modelled.
- The handlers also require that `strcmp` is not called with a NULL argv[0] (a line of spaces with a non-empty command list). They require too that a NULL `_json_func` is not called (a brace-shaped line in a JSON mode with no callback attached). Both are undefined behaviour in the library.
- The array `argv` is a sequence and `argc` an unbounded number; the `uint8_t` width of `argc` and `i` does not matter below CMD_MAX_ARGS + 1.
- Only the default values of CMD_MAX_MSG_SIZE and CMD_MAX_ARGS are modelled. A sketch may define its own.
- The header of the root `cmdArduino.cpp` is not part of this model. `CLI_EXIT_CHAR` is a parameter (`exitKey`), assumed distinct from '\r', '\b' and 0x7F. `exit_char` is taken to start false, and the line buffer size to be CMD_MAX_MSG_SIZE = 1024 as in the library.
- Terminal.Move: the terminal is taken to move its cursor one column right for every echoed byte, BEL, TAB, NUL and bytes from 0x80 up included (src/cmdArduino.cpp:486-490, 617-620), and one column left for an echoed erase byte, DEL (0x7F) as well as BS (src/cmdArduino.cpp:669), although a VT100 ignores DEL. LineEdit.InsertRedrawInSync, LineEdit.BackspaceRedrawInSync, CmdSpec.StepKeepsTerminalInSync, CmdSpec.EscCharInSync and CmdSpec.ExecuteInSync hold only on such a terminal.
- `CmdArduino.Cmd.EscCmdUp`: the library's up-arrow handler is empty, and so is the model's.

## Findings

| source | as written | input that shows it | evidently intended | confidence | as-written member | corrected member |
|---|---|---|---|---|---|---|
| src/cmdArduino.cpp:503 | the loop that walks the terminal cursor back after an insertion counts in a `uint8_t` against `chars_printed - 1` | a line of 300 bytes with the cursor at its start, then any standard byte: 300 cursor-left writes are due, and the counter wraps at 256 before reaching 300, so the loop never ends | a counter as wide as `chars_printed` | not executed | LineEdit.InsertWalkBackNeverEnds | CmdArduino.Cmd.MoveLeft |
| src/cmdArduino.cpp:654 | the loop after a delete counts in a `uint8_t` against `chars_printed` | the Delete key with 257 or more bytes after the cursor | a counter as wide as `chars_printed` | not executed | LineEdit.DeleteWalkBackNeverEnds | CmdArduino.Cmd.EscCmdDel |
| src/cmdArduino.cpp:310-323 | `argv` has CMD_MAX_ARGS slots, but the do-while loop stores `argv[++i]` until `i == CMD_MAX_ARGS` | a line of 128 words, "a a a … a": the last store is `argv[128]`, one past the array | an argv of CMD_MAX_ARGS + 1 slots | not executed | Tokenizer.ArgvOverrun | CmdArduino.Cmd.ParseStd |
| cmdArduino.cpp:159-171 | the same one-past store with `argv[30]` and the limit 30 | a line of 30 words | an argv of 31 slots | not executed | Tokenizer.ArgvOverrun | LegacyCmdArduino.LegacyCmd.Parse |
| src/cmdArduino.cpp:424-433 | `rst_msg_ptr` empties `_esc_cmd` but leaves `_ext_esc_cmd` set | ESC [ 3, then `mode(CLI_MODE_STD)`, then the Delete key ESC [ 3 ~: the second sequence completes at "3" as unknown, and '~' is inserted into the line | the reset also clears the extended flag | not executed | CmdSpec.StaleExtendedFlag | CmdSpec.DeleteKeyAfterResetAll |
