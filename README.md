# Phantom core, modelled in Dafny

Phantom is a desktop terminal multiplexer with AI-driven code analysis. This
project models its sequential core and proves properties of that model:

- **Screen values and their wire format.** The cell and colour types, colour
  resolution (the ANSI table, the 6x6x6 cube and the grey ramp of the
  xterm-256 layout), the bounds-checked screen view, and the 16-byte
  little-endian cell record with its row encoding (modules `Cell`, `Screen`,
  `Ipc`).
- **The terminal adapter.** Title, bell and write-back bookkeeping on top of
  the terminal emulator library, which is an abstract `Engine` of functions
  (module `Vt`).
- **Sessions and registries.** A `TerminalSession` (a PTY plus a terminal)
  with its alive/exit-code cache; the `SessionMultiplexer`; the application
  state's id counter; and the terminal commands that keep three maps in step
  (modules `Pty`, `Session`, `Multiplexer`, `State`, `TerminalCommands`). The
  PTY is a class whose read, write and resize outcomes come from behaviour
  functions fixed when it is spawned.
- **The per-tick render decision.** `extract_events`, and the rule that the
  send loop stops after `Exited` (module `RenderPump`).
- **Analysis output.** Extraction of the fenced JSON block, trailing-comma
  stripping, graph and findings validation, stats recomputation, finding ids
  from an abstract hash, graph diffing, and CLI detection, exit-code
  mapping, payload extraction and argument lists (modules `AnalysisParser`,
  `Diff`, `Cli`). JSON decoding is a decoder function passed in.
- **Git output parsers and the sandbox profile.** The porcelain parser of
  `git worktree list`, the owner/name split of `gh repo list`, the parser of
  `git branch`, path escaping and the sandbox-exec profile and command
  (modules `Worktrees`, `Branches`, `Sandbox`).

`Wrappers` (Option, Result) and `Text` (the Rust string operations the core
uses: `trim`, `lines`, `find`, `split_once`, decimal and hex formatting,
UTF-8 encoding, fixed-width integers) are shared helpers.

Each file is one module, named after the source file it models. Source
paths below are relative to the repository root.

Where the code and its documentation disagree, the model follows the code:
`sandboxed_command` passes the shell as one argument and adds no `-c`,
although its doc comment shows `/bin/sh -c <command>`; and the render pump
never reads `has_pty_data`, although `state.rs` describes a cursor-row blink
suppression based on it.

## Model

| member | source | states |
|---|---|---|
| Cell.FlagsAreSingleBits | crates/phantom-vt/src/cell.rs:20-29 | the eight attribute flags, BOLD first, are the bits 1 << k for k = 0..7, so any two of them are disjoint |
| Cell.FlagsFillTheByte | crates/phantom-vt/src/cell.rs:20-29 | the union of the eight flags is 0xFF |
| Screen.ResolveDirectAndOverride | crates/phantom-vt/src/screen.rs:115-159 | a direct RGB colour passes through unchanged; a named or indexed colour whose palette slot is set resolves to that slot |
| Screen.ResolveAnsi | crates/phantom-vt/src/screen.rs:157-159 | an unset index below 16 resolves to its ANSI table entry, whether it is a foreground or not |
| Screen.ResolveCube | crates/phantom-vt/src/screen.rs:160-167 | an unset index in 16..231 resolves, with n = idx - 16, to the levels n/36, n/6 mod 6 and n mod 6, where level 0 is byte 0 and level v is 55 + 40v; every byte is one of 0, 95, 135, 175, 215, 255 |
| Screen.ResolveGrey | crates/phantom-vt/src/screen.rs:168-172 | an unset index from 232 up resolves to the grey 8 + 10(idx - 232) with equal components between 8 and 238 |
| Screen.ResolveNamedDefaults | crates/phantom-vt/src/screen.rs:117-150 | unset Foreground, BrightForeground and Cursor are white, unset Background is black, unset names below 16 use the ANSI table; whether the colour is a foreground never changes a named colour, because every name of the emulator is listed before the final fallback |
| Screen.ResolveColor | crates/phantom-vt/src/screen.rs:115-172 | a direct RGB colour passes through and an unset grey-ramp index is a grey; ResolveDirectAndOverride, ResolveAnsi, ResolveCube, ResolveGrey and ResolveNamedDefaults state every case |
| Screen.ConvertFlags | crates/phantom-vt/src/screen.rs:185-206 | each of the seven attribute bits is set exactly when the emulator's matching flag is present; BLINK is never set |
| Screen.ConvertCell | crates/phantom-vt/src/screen.rs:178-223 | the character is kept, the foreground and background are resolved, the flags are translated, and the width is 2 for a wide character, 0 for its spacer and 1 otherwise |
| Screen.BlankGrid | crates/phantom-vt/src/terminal.rs:95-115 | a new emulator's grid has the requested columns and lines and an empty palette |
| Screen.CellAt | crates/phantom-vt/src/screen.rs:51-58 | outside the grid the cell is the default cell; inside it is the converted emulator cell |
| Screen.RowCells | crates/phantom-vt/src/screen.rs:65-68 | a row has one cell per column, and cell c is `CellAt(row, c)` |
| Screen.ConvertCursorShapeCases | crates/phantom-vt/src/screen.rs:226-233 | Block and HollowBlock become Block, Beam becomes Bar, Underline and Hidden stay as they are, and no other shape maps to each result |
| Screen.ConvertCursorShape | crates/phantom-vt/src/screen.rs:226-233 | the result is hidden exactly when the emulator's shape is; ConvertCursorShapeCases states every case |
| Vt.ApplyEventsWrites | crates/phantom-vt/src/terminal.rs:50-52 | after a list of events the pending write-backs are the earlier ones followed by the data of every write-back event, in arrival order |
| Vt.ApplyEventsBell | crates/phantom-vt/src/terminal.rs:47-49 | after a list of events the bell is set exactly when it was set before or one of the events is a bell |
| Vt.ApplyEventsKeepTitle | crates/phantom-vt/src/terminal.rs:40-56 | without Title or ResetTitle events the title does not change |
| Vt.ApplyEventsLastTitle | crates/phantom-vt/src/terminal.rs:41-46 | the title after a list of events is the one set by the last Title or ResetTitle event |
| Vt.EventState.SendEvent | crates/phantom-vt/src/terminal.rs:38-56 | Title(t) sets the title to t, ResetTitle clears it, Bell sets the bell, PtyWrite appends its data, and any other event changes nothing |
| Vt.SizeFor | crates/phantom-vt/src/terminal.rs:60-77 | the size has cols columns and rows screen lines, and its total lines equal its screen lines |
| Vt.DamageInfoOf | crates/phantom-vt/src/terminal.rs:183-197 | Full stays Full; a partial report becomes one damaged row per damaged line, in order, with the same line, left and right (truncated to 16 bits) |
| Vt.VtTerminal.constructor | crates/phantom-vt/src/terminal.rs:95-115 | a new terminal has a 10 000-line history, the requested size, full damage, no cached title and an empty event state (no title, no bell, no write-backs) |
| Vt.VtTerminal.Write | crates/phantom-vt/src/terminal.rs:121-123 | the emulator parses the bytes and every event it sends is applied to the event state in order |
| Vt.VtTerminal.Resize | crates/phantom-vt/src/terminal.rs:126-132 | the emulator takes columns = cols and lines = rows, and the screen then reports those dimensions |
| Vt.VtTerminal.Cursor | crates/phantom-vt/src/terminal.rs:140-153 | the shape is the converted emulator shape, the cursor is visible exactly when that shape is not hidden, and the position is the emulator's |
| Vt.VtTerminal.SyncTitle | crates/phantom-vt/src/terminal.rs:159-162 | the cache becomes the event state's title |
| Vt.VtTerminal.Title | crates/phantom-vt/src/terminal.rs:168-171 | the result is the event state's title, equal to `TitleOwned()`, and the cache then holds it |
| Vt.VtTerminal.Damage | crates/phantom-vt/src/terminal.rs:183-197 | the result is the translation of the emulator's damage |
| Vt.VtTerminal.ResetDamage | crates/phantom-vt/src/terminal.rs:200-202 | afterwards no line is damaged |
| Vt.VtTerminal.TakePtyWrites | crates/phantom-vt/src/terminal.rs:208-211 | the result is the pending write-backs in arrival order, and none remain; title and bell are untouched |
| Vt.VtTerminal.HasBell | crates/phantom-vt/src/terminal.rs:216-221 | the result is the bell flag and the flag is then clear, so a second call with no event in between is false |
| Ipc.U32LeRoundTrip | crates/phantom-app/src/ipc.rs:66 | reassembling the four little-endian bytes of a codepoint gives it back |
| Ipc.FlagBits | crates/phantom-app/src/ipc.rs:76 | the flag byte has exactly the bits of the flag set |
| Ipc.CellRecordLayout | crates/phantom-app/src/ipc.rs:52-86 | bytes 0-3 are the codepoint as a little-endian u32, bytes 4-6 the foreground and 7-9 the background components, byte 10 the flag bits, byte 11 the width and bytes 12-15 zero |
| Ipc.CellRecordExamples | crates/phantom-app/src/ipc.rs:115-209 | the default cell encodes as a space, white on black, no flags, width 1 and zero padding; the codepoints 0x4E16 and 0x1F600 come back from their bytes |
| Ipc.EncodeCell | crates/phantom-app/src/ipc.rs:63-87 | the zeroed 16-byte buffer, filled in place, holds the cell's record |
| Ipc.DecodeEncodeCell | crates/phantom-app/src/ipc.rs:52-86 | reading a record back by the documented layout recovers all five fields of the cell |
| Ipc.CellRecordInjective | crates/phantom-app/src/ipc.rs:52-86 | two cells with the same record are equal |
| Ipc.RowRecordBlocks | crates/phantom-app/src/ipc.rs:90-97 | a row's encoding has cols x 16 bytes, and 16-byte block c is the record of `cell(row, c)` |
| Ipc.EncodeRow | crates/phantom-app/src/ipc.rs:90-97 | the loop over the columns yields the row's encoding |
| Ipc.CursorShapeStr | crates/phantom-app/src/ipc.rs:100-107 | Block, Underline, Bar and Hidden map to "block", "underline", "bar" and "hidden", and each string comes only from its shape |
| Pty.Message | crates/phantom-pty/src/pty.rs:13-21 | each error kind prints its fixed prefix followed by its message |
| Pty.DefaultShell | crates/phantom-pty/src/pty.rs:138-140 | `$SHELL` when set, otherwise "/bin/sh" |
| Pty.ShellCommand | crates/phantom-pty/src/pty.rs:62-68 | the given shell, or the default one when none is given |
| Pty.Clip | crates/phantom-pty/src/pty.rs:116-119 | a read returns a prefix of what the shell produced, never more than the buffer holds, and all of it when it fits |
| Pty.PtyHandle.Spawn | crates/phantom-pty/src/pty.rs:50-91 | a PTY of the requested size running the chosen shell, with nothing read, written or resized yet, or `SpawnFailed` with the system's message |
| Pty.PtyHandle.Read | crates/phantom-pty/src/pty.rs:116-119 | the outcome of the next read, at most the buffer's capacity; nothing else changes |
| Pty.ReadOutcome | crates/phantom-pty/src/pty.rs:116-119 | a successful read holds at most the buffer's capacity, is a prefix of what the shell produced and all of it when it fits; a failing read becomes an `IoError` with its message |
| Pty.PtyHandle.Write | crates/phantom-pty/src/pty.rs:106-110 | the bytes reach the shell unchanged, or an I/O error after the behaviour's number of bytes got through: none, a prefix or all of them, since `write_all` can fail part way and `flush` fails only after every byte was handed over |
| Pty.PtyHandle.Resize | crates/phantom-pty/src/pty.rs:94-103 | the PTY takes the new size, or `ResizeFailed` and the old size stays |
| Pty.PtyHandle.TryWait | crates/phantom-pty/src/pty.rs:129-134 | the child's exit status if it exited, otherwise None |
| Pty.WritesBeforeFailure | crates/phantom-pty/src/pty.rs:106-110 | the number of writes that succeed before the first failing one, and the next one fails when not all succeed |
| Pty.WritesBeforeFailureIs | crates/phantom-pty/src/pty.rs:106-110 | that number is the offset of the first failing attempt, or all of them when none fails |
| Session.EncodeAll | crates/phantom-pty/src/session.rs:67-69 | each write-back string is sent as its UTF-8 bytes, in order |
| Session.Delivered | crates/phantom-pty/src/session.rs:67-69 | writing the write-backs in order delivers every one before the first failure whole, then the prefix of the failing one that got through, and nothing after it |
| Session.TerminalSession.Assemble | crates/phantom-pty/src/session.rs:36-43 | a new session keeps its id, PTY and terminal, is alive, and has no exit code and no title |
| Session.TerminalSession.New | crates/phantom-pty/src/session.rs:27-44 | the shell is spawned (or its `SpawnFailed` error returned) and an emulator of the same size is created; the session is alive with no exit code and no title |
| Session.ProcessStep | crates/phantom-pty/src/session.rs:58-82 | a successful call returns at most the 4096-byte buffer's size; partnered by ProcessStepValid, ProcessStepFrame, ProcessStepCases and ProcessStepPoll, and by ProcessPtyOutput, which it specifies |
| Session.ConsumeStep | crates/phantom-pty/src/session.rs:62-82 | after a successful read, a successful call returns the number of bytes read |
| Session.FeedStep | crates/phantom-pty/src/session.rs:62-73 | a successful feed returns the chunk's length; feeding changes only the emulator, the event state, the input written to the PTY, the write count and the title |
| Session.Polled | crates/phantom-pty/src/session.rs:76-79 | `try_wait` is counted once and changes only the liveness and the exit code |
| Session.ProcessStepValid | crates/phantom-pty/src/session.rs:76-79 | a call keeps the session invariant: alive exactly while no exit code is known, and a known exit code is the child's |
| Session.ProcessStepFrame | crates/phantom-pty/src/session.rs:58-82 | every call reads exactly once and never changes the PTY's size, its resize count, its exit status, its reader or the emulator's cached title |
| Session.ProcessStepCases | crates/phantom-pty/src/session.rs:60-73 | a failing read returns its error; a failing or empty read leaves the terminal, the input and the title alone and an empty one returns 0; a non-empty read feeds exactly those bytes, writes the write-backs in order up to the first failure, of which the delivered prefix reaches the PTY, and succeeds with the byte count and the event state's title exactly when all of them succeed |
| Session.ProcessStepPoll | crates/phantom-pty/src/session.rs:76-79 | the child is polled exactly when the call succeeds, and a known exit status then ends the session with that code; a failed call keeps the poll count, the title and the liveness |
| Session.TerminalSession.WriteBacks | crates/phantom-pty/src/session.rs:67-69 | the write-backs are written in order up to the first failure, whose error is returned; the PTY receives those that succeeded and the prefix of the failing one that got through (Delivered) |
| Session.TerminalSession.Feed | crates/phantom-pty/src/session.rs:62-73 | the new state and the outcome are FeedStep's for the old state: the emulator parses exactly the bytes, its write-backs go to the PTY in order up to the first failure, and the title is synced only when every write-back succeeded |
| Session.TerminalSession.ProcessPtyOutput | crates/phantom-pty/src/session.rs:58-82 | the new state and the result are exactly ProcessStep's for the old state, and the session invariant is kept |
| Session.TerminalSession.Consume | crates/phantom-pty/src/session.rs:62-81 | after a read, the new state and the result are exactly ConsumeStep's for the state and the bytes read |
| Session.TerminalSession.Poll | crates/phantom-pty/src/session.rs:76-79 | the new state is Polled of the old one, and the session invariant is kept |
| Session.TerminalSession.WriteInput | crates/phantom-pty/src/session.rs:85-87 | the bytes are forwarded unchanged to the PTY; a failed write returns its I/O error after the behaviour's prefix of the bytes got through; no field of the session changes |
| Session.TerminalSession.Resize | crates/phantom-pty/src/session.rs:90-94 | when the PTY refuses, the error is returned and the terminal keeps its size; otherwise both PTY and terminal take cols x rows |
| Session.TerminalSession.IsAlive | crates/phantom-pty/src/session.rs:109-117 | while alive the child is polled and alive becomes false exactly when it exited; once not alive it stays so and the PTY is not polled |
| Session.TerminalSession.ExitCode | crates/phantom-pty/src/session.rs:120-128 | a known exit code is returned unchanged without polling; otherwise the child is polled and its status becomes the code |
| Session.TerminalSession.TakePtyReader | crates/phantom-pty/src/session.rs:135-137 | the reader is handed over to a reading thread and nothing else changes |
| Session.TerminalSession.HandleWriteBacks | crates/phantom-pty/src/session.rs:143-150 | the pending write-backs are drained and written in order up to the first failure, which may still deliver a prefix (Delivered); the title is synced only when all succeeded |
| Multiplexer.SortingStep | crates/phantom-pty/src/multiplexer.rs:54-58 | moving the least remaining id to the end of a sorted prefix keeps it strictly ascending and covering the ids taken so far |
| Multiplexer.TallyStep | crates/phantom-pty/src/multiplexer.rs:64-80 | taking one more session into account lists, once each, exactly the processed ids whose output was positive |
| Multiplexer.Stepped | crates/phantom-pty/src/multiplexer.rs:64-80 | the new state of every session whose old state is known, as ProcessStep gives it |
| Multiplexer.Outcomes | crates/phantom-pty/src/multiplexer.rs:70-75 | for every session whose old state is known, whether its processing returns a positive byte count |
| Multiplexer.Mix | crates/phantom-pty/src/multiplexer.rs:68-77 | the states part-way through the loop, one per session |
| Multiplexer.MixNone | crates/phantom-pty/src/multiplexer.rs:67-68 | before the first visit every session has its old state |
| Multiplexer.MixStep | crates/phantom-pty/src/multiplexer.rs:68-77 | a session not yet visited still has its old state, and visiting it gives it its new state |
| Multiplexer.MixAll | crates/phantom-pty/src/multiplexer.rs:68-77 | once every id is visited, every session has its new state |
| Multiplexer.SessionMultiplexer.constructor | crates/phantom-pty/src/multiplexer.rs:17-22 | a new multiplexer has no sessions and next id 1 |
| Multiplexer.SessionMultiplexer.CreateSession | crates/phantom-pty/src/multiplexer.rs:25-36 | on success the result is the previous next id, the session is inserted under it with every other session untouched, and next id advances by one; on a failed spawn nothing is inserted and next id is kept; while the counter has not wrapped the new id was not in use |
| Multiplexer.SessionMultiplexer.Register | crates/phantom-pty/src/multiplexer.rs:33-34 | the session is inserted under the next id, which then advances by one |
| Multiplexer.SessionMultiplexer.GetSession | crates/phantom-pty/src/multiplexer.rs:39-41 | Some exactly when the id is registered, and then that session |
| Multiplexer.SessionMultiplexer.CloseSession | crates/phantom-pty/src/multiplexer.rs:49-51 | only the given id is removed; closing an absent id changes nothing |
| Multiplexer.SessionMultiplexer.ListSessions | crates/phantom-pty/src/multiplexer.rs:54-58 | exactly the registered ids, each once, in strictly ascending order |
| Multiplexer.SessionMultiplexer.ProcessAll | crates/phantom-pty/src/multiplexer.rs:64-80 | every session's new state is the one ProcessStep gives for its old state, so each session processes its output exactly once; the result lists, once each, exactly the ids whose processing returned a positive byte count; sessions that fail stay registered |
| Multiplexer.SessionMultiplexer.SessionIds | crates/phantom-pty/src/multiplexer.rs:67 | every registered id exactly once |
| Multiplexer.SessionMultiplexer.Visit | crates/phantom-pty/src/multiplexer.rs:68-77 | visiting each id once, in order, gives every session its new state and lists, once each, exactly the ids whose processing returned a positive byte count |
| Multiplexer.SessionMultiplexer.ProcessOne | crates/phantom-pty/src/multiplexer.rs:69-75 | the given session takes the state ProcessStep gives for its old state, every other session keeps its state, and the result says whether the call returned a positive byte count |
| State.WrappingSucc | crates/phantom-app/src/state.rs:62-64 | the counter after one `fetch_add(1)`: one more, wrapping from 2^64 - 1 to 0 |
| State.ConsistentInsert | crates/phantom-app/src/commands/terminal.rs:66-81 | inserting a session and both of its stop channels under a handed-out id keeps the three maps on the same keys |
| State.ConsistentUnused | crates/phantom-app/src/state.rs:61-64 | an id above every id handed out is not registered |
| State.ConsistentRemove | crates/phantom-app/src/commands/terminal.rs:145-177 | removing an id from all three maps keeps them on the same keys |
| State.SessionState.constructor | crates/phantom-app/src/commands/terminal.rs:44-49 | a new session state has a full frame due, no reported title and no PTY data seen |
| State.AppState.constructor | crates/phantom-app/src/state.rs:47-59 | a new application state has empty `sessions`, `io_stops` and `render_stops`, the counter at 1, and DEFAULT_MAX_CONCURRENCY (2) analysis permits |
| State.AppState.NextSessionId | crates/phantom-app/src/state.rs:61-64 | the result is the counter, which then advances by one; until the counter wraps, the ids handed out strictly ascend and are never reused |
| TerminalCommands.CreateTerminal | crates/phantom-app/src/commands/terminal.rs:27-83 | the id is taken first and the counter advances even when the spawn fails; a failed spawn returns "Failed to create terminal session: ..." and registers nothing; otherwise the session (full frame due, no title, reader taken, PTY and emulator of the requested size) and both stop channels are registered under the returned id, every other entry untouched; while the counter has not wrapped the id was not in use |
| TerminalCommands.SpawnSession | crates/phantom-app/src/commands/terminal.rs:30-81 | a failed spawn registers nothing and reports the spawn error; otherwise the session and its two stop channels are registered under the given id |
| TerminalCommands.NewSessionState | crates/phantom-app/src/commands/terminal.rs:30-49 | a failed spawn is returned as `SpawnFailed`; otherwise the new state has a full frame due, no title, no PTY data, its reader taken and the requested size |
| TerminalCommands.Register | crates/phantom-app/src/commands/terminal.rs:66-81 | the session, the I/O thread's and the render pump's stop channels are inserted under the id, and nothing else changes |
| TerminalCommands.WriteInput | crates/phantom-app/src/commands/terminal.rs:93-107 | an unknown id gives "Session <id> not found"; otherwise the bytes reach the PTY, or the PTY's error comes back as "Write error: ..." after the behaviour's prefix of the bytes (none, part or all) got through |
| TerminalCommands.ResizeTerminal | crates/phantom-app/src/commands/terminal.rs:118-137 | an unknown id gives "Session <id> not found"; a refused resize returns "Resize error: ..." and leaves the size and the full-frame flag; a resize that succeeds sets both PTY and terminal to cols x rows and requests a full frame |
| TerminalCommands.ResizeSession | crates/phantom-app/src/commands/terminal.rs:126-137 | the full-frame flag is set only when the resize succeeded, and then PTY and terminal have the new size |
| TerminalCommands.StopsOf | crates/phantom-app/src/commands/terminal.rs:151-161 | at most one stop channel is taken, exactly when the id is registered, and it is the registered one |
| TerminalCommands.CloseTerminal | crates/phantom-app/src/commands/terminal.rs:145-177 | always Ok; the id leaves all three maps and nothing else does; the I/O thread's stop signal is sent before the render pump's, each only when registered |
| TerminalCommands.CloseAbsent | crates/phantom-app/src/commands/terminal.rs:151-175 | closing an id registered nowhere changes nothing and sends no signal, so closing twice is closing once |
| TerminalCommands.TakeStops | crates/phantom-app/src/commands/terminal.rs:151-161 | both stop channels are removed from their maps and returned when they were present |
| TerminalCommands.SendStops | crates/phantom-app/src/commands/terminal.rs:164-169 | the I/O thread's signal is sent, then the render pump's, each only when its channel was taken |
| TerminalCommands.DropSession | crates/phantom-app/src/commands/terminal.rs:173-175 | only the given id leaves the session map |
| RenderPump.FrameCellsSize | crates/phantom-app/src/render_pump.rs:77-83 | a full frame has cols x rows x 16 bytes |
| RenderPump.FrameCellsRows | crates/phantom-app/src/render_pump.rs:81-83 | row r's 16-byte records follow those of rows 0 .. r - 1 in a full frame |
| RenderPump.FrameCellsUpToPrefix | crates/phantom-app/src/render_pump.rs:81-83 | encoding more rows only extends the encoding of fewer |
| RenderPump.EncodeFrame | crates/phantom-app/src/render_pump.rs:80-83 | the loop encodes exactly the rows of the screen from top to bottom |
| RenderPump.FirstOccurrences | crates/phantom-app/src/render_pump.rs:130-138 | the deduplicated rows are exactly the damaged rows, never more of them than damage entries |
| RenderPump.FirstOccurrencesOrder | crates/phantom-app/src/render_pump.rs:130-138 | the deduplicated rows come in the order of their first occurrence in the damage list |
| RenderPump.FirstOccurrencesDistinct | crates/phantom-app/src/render_pump.rs:130-138 | no row is listed twice |
| RenderPump.CollectDirtyRows | crates/phantom-app/src/render_pump.rs:127-138 | the `seen` loop yields each damaged row once, in first-occurrence order, with that row's encoding |
| RenderPump.FrameEventsCases | crates/phantom-app/src/render_pump.rs:75-153 | at most one frame event; a full frame exactly when one is due or the damage is full, then with the screen's size and all its cells; with partial damage no event exactly when no row is damaged; the cursor shape and visibility go along |
| RenderPump.DirtyRowsContents | crates/phantom-app/src/render_pump.rs:124-148 | a dirty-rows event lists exactly the damaged rows, once each, in first-occurrence order, each with its row's encoding |
| RenderPump.DirtyRowsOrder | crates/phantom-app/src/render_pump.rs:130-138 | the dirty rows follow the first-occurrence order of the damage list |
| RenderPump.TitleEventsIff | crates/phantom-app/src/render_pump.rs:157-165 | a title event for t is sent exactly when the title differs from the last one reported and is t; at most one is sent |
| RenderPump.ExitedIsLast | crates/phantom-app/src/render_pump.rs:156-178 | in one tick's events `Exited` can only be last, and it is there exactly when the session has exited, carrying its code |
| RenderPump.FrameStep | crates/phantom-app/src/render_pump.rs:75-153 | the frame event is that of the queried damage, the damage is reset on every path and no full frame is due afterwards |
| RenderPump.TitleStep | crates/phantom-app/src/render_pump.rs:157-165 | the title event is sent when the title changed and is set, and the reported title becomes the current one |
| RenderPump.ExitStep | crates/phantom-app/src/render_pump.rs:173-176 | liveness is polled; an `Exited` event is due exactly when the session is no longer alive, with its exit code, which is then known |
| RenderPump.ExtractEvents | crates/phantom-app/src/render_pump.rs:60-179 | the tick's events are frame, title, bell and exit in that order, the cursor read before anything changes; afterwards no full frame is due, the damage is reset, the bell flag is cleared and the reported title is the current one |
| RenderPump.UntilExitedPrefix | crates/phantom-app/src/render_pump.rs:47-54 | what is sent is a prefix of the events, only its last may be `Exited`, and it is cut short only after an `Exited` |
| RenderPump.UntilExitedAll | crates/phantom-app/src/render_pump.rs:47-54 | every event is sent exactly when none is `Exited` |
| RenderPump.UntilExitedSkip | crates/phantom-app/src/render_pump.rs:47-54 | events before the first `Exited` are all sent |
| RenderPump.SendEvents | crates/phantom-app/src/render_pump.rs:47-54 | the channel receives the events up to and including the first `Exited`, and the pump stops exactly when there is one |
| AnalysisParser.ExtractJsonBlock | crates/phantom-analysis/src/parser.rs:125-140 | a block found is non-empty and already trimmed; without a "```json" marker there is none |
| AnalysisParser.ExtractJsonBlockFenced | crates/phantom-analysis/src/parser.rs:125-140 | for "```json", a body and "```", the block is the trimmed body, or None when that is blank |
| AnalysisParser.ExtractJsonBlockNeedsMarker | crates/phantom-analysis/src/parser.rs:129 | a text without backquotes has no block |
| AnalysisParser.StripTrailingCommas | crates/phantom-analysis/src/parser.rs:143-189 | the scan keeps every character except the commas outside string literals whose next non-whitespace character is ']' or '}' |
| AnalysisParser.NextNonWhitespace | crates/phantom-analysis/src/parser.rs:177-178 | the character found after a comma is never whitespace |
| AnalysisParser.EscapeOnlyInString | crates/phantom-analysis/src/parser.rs:152-162 | an escape is pending only inside a string literal |
| AnalysisParser.KeptCounts | crates/phantom-analysis/src/parser.rs:175-185 | only commas are deleted: every other character occurs as often as in the input |
| AnalysisParser.KeptWithoutCommas | crates/phantom-analysis/src/parser.rs:175-185 | a text without commas is left unchanged |
| AnalysisParser.StrippedNotIdempotent | crates/phantom-analysis/src/parser.rs:176-182 | "[1,,]" becomes "[1,]", which a second pass turns into "[1]": only a comma directly before a closer is dropped |
| AnalysisParser.StrippedKeepsStringCommas | crates/phantom-analysis/src/parser.rs:164-173 | a comma inside a string literal is kept even before ']' |
| AnalysisParser.DecodeWithRetry | crates/phantom-analysis/src/parser.rs:198-202 | the text is decoded as it is; only when that fails is the comma-stripped text decoded |
| AnalysisParser.DecodeLenient | crates/phantom-analysis/src/parser.rs:198-202 | decoding succeeds exactly when the text or its comma-stripped form decodes, and a text that decodes as it is gives that result; DecodeWithRetry computes it |
| AnalysisParser.NodeIdsCount | crates/phantom-analysis/src/parser.rs:208-214 | the set of node ids is no larger than the node list, and as large exactly when the ids are distinct |
| AnalysisParser.PrefixWarningsEmpty | crates/phantom-analysis/src/parser.rs:216-225 | no prefix warning exactly when every node id starts with "L<level>_" |
| AnalysisParser.EdgeWarningsEmpty | crates/phantom-analysis/src/parser.rs:228-239 | no edge warning exactly when every edge's source and target are node ids |
| AnalysisParser.GroupWarningsEmpty | crates/phantom-analysis/src/parser.rs:242-254 | no group warning exactly when every node's group is declared |
| AnalysisParser.GraphWarningsEmptyIff | crates/phantom-analysis/src/parser.rs:204-254 | a graph gets no warning exactly when its ids are distinct and prefixed, its edges join its nodes and its nodes use declared groups |
| AnalysisParser.CheckPrefixes | crates/phantom-analysis/src/parser.rs:216-225 | one warning per node without the level prefix, in node order |
| AnalysisParser.CheckEdges | crates/phantom-analysis/src/parser.rs:228-239 | per edge, a warning for an unknown source and then one for an unknown target, in edge order |
| AnalysisParser.CheckGroups | crates/phantom-analysis/src/parser.rs:242-254 | one warning per node whose group is not declared, in node order |
| AnalysisParser.ParseGraph | crates/phantom-analysis/src/parser.rs:194-257 | "no JSON code block found in output" without a block; "invalid ArchitectureGraph JSON: ..." when it does not decode even after stripping; otherwise the graph unchanged with its duplicate, prefix, edge and group warnings in that order |
| AnalysisParser.ShortName | crates/phantom-analysis/src/parser.rs:274-277 | the short name is the preset name up to its first '/' or ' ', and contains neither |
| AnalysisParser.ShortNameWhole | crates/phantom-analysis/src/parser.rs:274-277 | a name without separators is its own short name |
| AnalysisParser.ShortNameStops | crates/phantom-analysis/src/parser.rs:274-277 | the short name stops at the first separator |
| AnalysisParser.FindingIdShape | crates/phantom-analysis/src/parser.rs:262-281 | an id is "F_", the lower-cased short name, "_" and exactly 8 hex digits |
| AnalysisParser.GenerateFindingId | crates/phantom-analysis/src/parser.rs:262-281 | an id starts with "F_" and is 11 characters longer than the short preset name; FindingIdShape, FindingIdInjective and FindingIdIgnoresPresetSuffix give its shape, what it depends on and what it ignores |
| AnalysisParser.FindingIdInjective | crates/phantom-analysis/src/parser.rs:268-280 | equal ids for one preset mean equal upper 32 bits of the titles' hashes |
| AnalysisParser.FindingIdIgnoresPresetSuffix | crates/phantom-analysis/src/parser.rs:273-278 | what follows the first '/' or ' ' of the preset name does not affect the id |
| AnalysisParser.WithIds | crates/phantom-analysis/src/parser.rs:313-315 | every finding keeps its fields except the id, which is generated from the preset and its title |
| AnalysisParser.RegenerateIds | crates/phantom-analysis/src/parser.rs:313-315 | the loop regenerates exactly the id of each finding |
| AnalysisParser.SeverityWarningsEmpty | crates/phantom-analysis/src/parser.rs:318-328 | no severity warning exactly when every severity is one of critical, high, medium, low, info |
| AnalysisParser.CheckSeverities | crates/phantom-analysis/src/parser.rs:318-328 | one warning per finding with an invalid severity, in order |
| AnalysisParser.TallyCounts | crates/phantom-analysis/src/parser.rs:288-291 | a key is tallied exactly when it occurs, and its count is its number of occurrences |
| AnalysisParser.TallySum | crates/phantom-analysis/src/parser.rs:288-291 | the counts of a tally add up to the number of keys |
| AnalysisParser.StatsConsistent | crates/phantom-analysis/src/parser.rs:284-298 | the total is the number of findings, and the counts by severity and by category each add up to it |
| AnalysisParser.ComputeStats | crates/phantom-analysis/src/parser.rs:284-298 | the loop yields the total and the per-severity and per-category tallies of the findings |
| AnalysisParser.Recomputed | crates/phantom-analysis/src/parser.rs:313-331 | version and summary are kept, ids are regenerated and stats recomputed from the findings |
| AnalysisParser.FindingsChecks | crates/phantom-analysis/src/parser.rs:318-331 | no warning exactly when all severities are valid, and the stats the tool wrote never matter |
| AnalysisParser.ParseFindings | crates/phantom-analysis/src/parser.rs:301-334 | "no JSON code block found in output" without a block; "invalid AnalysisFindings JSON: ..." when it does not decode even after stripping; otherwise the report with regenerated ids and recomputed stats, and one warning per invalid severity |
| Diff.EdgeToRef | crates/phantom-analysis/src/diff.rs:134-141 | the reference carries the edge's source, target, label and type |
| Diff.NodeMapKeys | crates/phantom-analysis/src/diff.rs:44-50 | the node map is keyed by exactly the node ids |
| Diff.NodeMapLast | crates/phantom-analysis/src/diff.rs:44-47 | when ids repeat, the map holds the last node with that id, as `collect` into a `HashMap` does |
| Diff.NodeMap | crates/phantom-analysis/src/diff.rs:44-47 | every node is stored under its own id; NodeMapKeys and NodeMapLast give the keys and which node wins |
| Diff.NodeEdgeSetsPrefix | crates/phantom-analysis/src/diff.rs:150-162 | one more edge adds its (source, target, label) tuple under its source and under its target |
| Diff.BuildNodeEdgeSets | crates/phantom-analysis/src/diff.rs:145-165 | the loop builds exactly the per-node edge sets of the edge list |
| Diff.NodeEdgeSetsTouching | crates/phantom-analysis/src/diff.rs:145-165 | a node's set is the tuples of the edges whose source or target it is, and the node has an entry exactly when some edge touches it |
| Diff.TouchingSnoc | crates/phantom-analysis/src/diff.rs:150-162 | one more edge adds its tuple to the set of a node exactly when it touches that node |
| Diff.NodeEdgeSetsIgnoreType | crates/phantom-analysis/src/diff.rs:151-155 | the per-node edge sets ignore edge types: edge lists that agree on (source, target, label) give the same sets |
| Diff.ChangesIff | crates/phantom-analysis/src/diff.rs:75-101 | a label, type or group change is listed, with the old and new values, exactly when that field differs, and EdgesChanged exactly when the edge sets differ |
| Diff.ChangesEmptyIff | crates/phantom-analysis/src/diff.rs:103-108 | a node without changes is one whose label, type, group and edge set all agree |
| Diff.ChangesOrdered | crates/phantom-analysis/src/diff.rs:75-101 | the changes are listed in the order label, type, group, edges |
| Diff.EdgesChangedIff | crates/phantom-analysis/src/diff.rs:96-101 | EdgesChanged is listed exactly when the tuples of the edges touching the node differ between the graphs |
| Diff.NodeChanges | crates/phantom-analysis/src/diff.rs:73-101 | the four checks build exactly the change list of the node |
| Diff.ModifiedSetIs | crates/phantom-analysis/src/diff.rs:68-109 | an entry is modified exactly when its id is in both graphs, its change list is non-empty and it is that id's change list |
| Diff.ModifiedMembers | crates/phantom-analysis/src/diff.rs:68-109 | every modified entry has changes and an id present in both graphs |
| Diff.CollectModified | crates/phantom-analysis/src/diff.rs:68-109 | the loop over the shared ids lists exactly the modified nodes, each id once |
| Diff.SelfUnmodified | crates/phantom-analysis/src/diff.rs:68-109 | no node of a graph is modified against itself |
| Diff.DiffGraphs | crates/phantom-analysis/src/diff.rs:42-132 | added and removed nodes are the two id differences (disjoint), the modified nodes are exactly the shared ids whose label, type, group or edges changed, each once, and added and removed edges are the two reference differences; a graph diffed with itself gives an empty diff |
| Cli.FileName | crates/phantom-analysis/src/cli.rs:17-20 | a file name found is a non-empty last path component, neither "." nor ".." |
| Cli.Detect | crates/phantom-analysis/src/cli.rs:16-31 | Claude exactly when the file name (or, without one, the whole text) starts with "claude"; Codex exactly when it starts with "codex" and not "claude"; Cursor exactly when it starts with "cursor" and with neither; Unknown otherwise |
| Cli.LastComponentAppend | crates/phantom-analysis/src/cli.rs:17-20 | the last component of dir/name is name |
| Cli.DetectIgnoresDirectory | crates/phantom-analysis/src/cli.rs:16-31 | the directory a binary lives in does not change its kind |
| Cli.FirstLine | crates/phantom-analysis/src/cli.rs:87-89 | the first line is trimmed, contains no line break, and is empty for the empty text |
| Cli.FirstLineOfLines | crates/phantom-analysis/src/cli.rs:87-89 | for a text that starts with a line, the first line is that line without a carriage return, trimmed |
| Cli.MapExitError | crates/phantom-analysis/src/cli.rs:50-85 | recoverable exactly for Codex's 124; Claude's 3, Codex's 124 and Codex's 2 get their fixed messages; every other exit gets "<Name> exited with code <code>: <first stderr line>", with "CLI" as the name of an unknown tool |
| Cli.IntToStringNoColon | crates/phantom-analysis/src/cli.rs:58 | the decimal text of an exit code holds no ':' |
| Cli.ExitMessageShape | crates/phantom-analysis/src/cli.rs:58 | the generic message is the kind's name, " exited with code ", the code, ':' and the rest |
| Cli.ExitMessageInjective | crates/phantom-analysis/src/cli.rs:57-82 | the generic message determines both the exit code and the first line of stderr |
| Cli.BuildArgs | crates/phantom-analysis/src/cli.rs:101-118 | the argument list of each kind, with "--max-budget-usd" and the budget appended for Claude only when a budget is given |
| Cli.BuildArgsPrompt | crates/phantom-analysis/src/cli.rs:101-118 | every kind passes the prompt as one whole argument, right after "-p" where the kind takes one |
| Cli.Parsed | crates/phantom-analysis/src/cli.rs:207-213 | one parsed value per stdout line, blank lines and lines that are not JSON giving none |
| Cli.Collect | crates/phantom-analysis/src/cli.rs:213-234 | one line never removes collected parts |
| Cli.CollectNonEmpty | crates/phantom-analysis/src/cli.rs:221-234 | once a part is collected, a line adds only its agent message's content |
| Cli.CollectAllAfterFirst | crates/phantom-analysis/src/cli.rs:207-236 | once a part is collected, only the agent messages' contents are added, in order |
| Cli.CollectAllContents | crates/phantom-analysis/src/cli.rs:207-236 | the loop collects the agent messages' contents in order, preceded by the "message.content" of the first line that has one when no agent message comes before or on it |
| Cli.ContentsWithoutMessages | crates/phantom-analysis/src/cli.rs:213-234 | without any "message.content", exactly the agent messages' contents are collected |
| Cli.CodexPayloadContents | crates/phantom-analysis/src/cli.rs:204-244 | the payload is the collected contents joined by line breaks, or stdout unchanged when nothing was collected |
| Cli.ExtractCodexPayload | crates/phantom-analysis/src/cli.rs:204-244 | the loop over the lines computes exactly the payload of the stream |
| Cli.ExtractPayload | crates/phantom-analysis/src/cli.rs:195-200 | Codex's stdout is scanned as a JSON line stream; every other kind's stdout is returned as it is |
| Worktrees.Classify | crates/phantom-git/src/worktrees.rs:149-168 | a line is a worktree, HEAD or branch line exactly by its prefix, tried in that order, and the value is the rest of the line |
| Worktrees.BranchName | crates/phantom-git/src/worktrees.rs:161-167 | a "refs/heads/" prefix is stripped; any other ref is kept whole |
| Worktrees.BranchNameOfHeadsRef | crates/phantom-git/src/worktrees.rs:161-167 | the branch of "refs/heads/<name>" is name |
| Worktrees.ListWorktrees | crates/phantom-git/src/worktrees.rs:131-181 | a failing git gives its trimmed stderr; otherwise the loop computes the entries of the porcelain output, whose paths are exactly the non-empty worktree paths in order, and which, when the output starts with a worktree line and no path is empty, are exactly its blocks |
| Worktrees.FoldPaths | crates/phantom-git/src/worktrees.rs:148-169 | the finished entries and the entry being read hold the non-empty worktree paths seen so far |
| Worktrees.ListWorktreesPaths | crates/phantom-git/src/worktrees.rs:143-180 | one entry per worktree line with a non-empty path, in order, with that path |
| Worktrees.FoldIgnoresOthers | crates/phantom-git/src/worktrees.rs:148-169 | lines with no recognised prefix do not change the parse |
| Worktrees.LastWorktree | crates/phantom-git/src/worktrees.rs:149-157 | the last worktree line, when there is one, is a worktree line inside the output |
| Worktrees.LastWorktreeSnoc | crates/phantom-git/src/worktrees.rs:158-168 | a HEAD, branch or other line leaves the current block's worktree line where it was |
| Worktrees.FoldDescribed | crates/phantom-git/src/worktrees.rs:148-169 | after each line the loop state is the finished blocks plus the block of the last worktree line, with its last head and last branch |
| Worktrees.DescribedNewBlock | crates/phantom-git/src/worktrees.rs:149-157 | a worktree line finishes the current block and starts a new one |
| Worktrees.DescribedSameBlock | crates/phantom-git/src/worktrees.rs:158-168 | any other line updates the current block only |
| Worktrees.ListWorktreesBlocks | crates/phantom-git/src/worktrees.rs:143-180 | each entry is its worktree line's block: the last "HEAD " and "branch " lines before the next worktree line, "" and None when absent |
| Worktrees.SplitOwnerName | crates/phantom-git/src/worktrees.rs:55-60 | with a '/', the owner is the text before the first one and the name the rest; without, no owner and the whole text as name |
| Worktrees.SplitOwnerNameRoundTrip | crates/phantom-git/src/worktrees.rs:55-60 | an owner without '/' and any name come back from "owner/name" |
| Worktrees.ToGhRepo | crates/phantom-git/src/worktrees.rs:54-68 | owner and name are split, the URL kept, and the default branch is "main" when none is given |
| Worktrees.ListGhRepos | crates/phantom-git/src/worktrees.rs:36-70 | a failing gh gives its trimmed stderr, undecodable output "failed to parse gh output: ...", otherwise one repository per record, in order |
| Sandbox.ReplaceChar | crates/phantom-app/src/sandbox.rs:93 | replacing a character by a text without it leaves no occurrence of it, and a text without the character is left as it is |
| Sandbox.ReplaceCharAppend | crates/phantom-app/src/sandbox.rs:93 | replacing distributes over concatenation |
| Sandbox.EscapePathPerChar | crates/phantom-app/src/sandbox.rs:91-94 | the two chained replacements escape each character on its own: the second never meets a backslash the first added |
| Sandbox.EscapePathLength | crates/phantom-app/src/sandbox.rs:91-94 | each backslash and each quote gains one character, and a path with neither is unchanged |
| Sandbox.UnescapeEscapeEach | crates/phantom-app/src/sandbox.rs:91-94 | reading an escaped text back character by character gives the text |
| Sandbox.EscapePathRoundTrip | crates/phantom-app/src/sandbox.rs:91-94 | a profile string reader gets exactly the path back from its escaped form |
| Sandbox.EscapePath | crates/phantom-app/src/sandbox.rs:91-94 | a path with no backslash and no quote is left as it is; partnered by Unescape through EscapePathRoundTrip and EscapePathInjective |
| Sandbox.EscapePathInjective | crates/phantom-app/src/sandbox.rs:91-94 | different paths never give the same escaped text |
| Sandbox.LayoutVersion | crates/phantom-app/src/sandbox.rs:22-23 | the profile starts with the version line |
| Sandbox.LayoutDeny | crates/phantom-app/src/sandbox.rs:23-26 | the default-deny rule follows the version line and its comment |
| Sandbox.LayoutReadWorktree | crates/phantom-app/src/sandbox.rs:56-58 | the worktree's read rule follows the system rules |
| Sandbox.LayoutWriteWorktree | crates/phantom-app/src/sandbox.rs:59-60 | the worktree's write rule follows its read rule |
| Sandbox.LayoutReadGitDir | crates/phantom-app/src/sandbox.rs:62-64 | the git directory's read rule follows its comment |
| Sandbox.GenerateProfileRules | crates/phantom-app/src/sandbox.rs:17-88 | the profile starts with "(version 1)", denies by default, allows reading and writing the escaped worktree and reading the escaped git directory |
| Sandbox.GenerateProfile | crates/phantom-app/src/sandbox.rs:17-88 | the profile starts with its version line; the rules it holds are stated by GenerateProfileRules |
| Sandbox.SandboxedCommand | crates/phantom-app/src/sandbox.rs:100-109 | the command is sandbox-exec with exactly "-p", the profile and the shell; no "-c" is added |
| Branches.TrimMarks | crates/phantom-git/src/branches.rs:57 | the leading stars and spaces are all dropped |
| Branches.TrimMarksSkip | crates/phantom-git/src/branches.rs:57 | stars and spaces before a text that does not start with one are dropped, and nothing else |
| Branches.ParseBranchLine | crates/phantom-git/src/branches.rs:51-66 | nothing for a blank line; otherwise current exactly when the trimmed line starts with '*', the name is the rest up to its first space and holds none, and the commit is what follows that space, or "" |
| Branches.TrimFormatted | crates/phantom-git/src/branches.rs:52 | the trimmed line git prints for a branch is the marker, for the current branch, and name and commit |
| Branches.RestFormatted | crates/phantom-git/src/branches.rs:57 | what is left after the marker is the name and the commit |
| Branches.MarkerFormatted | crates/phantom-git/src/branches.rs:52-56 | the printed line is not blank, and it is read as current exactly when the branch is |
| Branches.FieldsFormatted | crates/phantom-git/src/branches.rs:57-60 | the name and the commit come back from the printed line |
| Branches.ParseFormatted | crates/phantom-git/src/branches.rs:51-66 | parsing the line git prints for a branch gives the branch back |
| Branches.ParseLinesCount | crates/phantom-git/src/branches.rs:49-67 | every non-blank line yields exactly one entry |
| Branches.ParseLinesAppend | crates/phantom-git/src/branches.rs:49-67 | parsing is line by line, so the entries keep the order of the lines |
| Branches.ParseLines | crates/phantom-git/src/branches.rs:49-67 | never more entries than lines; ParseLinesCount and ParseLinesAppend give the exact count and the order |
| Branches.ParseLinesNames | crates/phantom-git/src/branches.rs:57-59 | no entry's name contains a space |
| Branches.ListBranches | crates/phantom-git/src/branches.rs:44-69 | a failing git gives its stderr text untrimmed; otherwise one entry per non-blank line |
| Branches.BranchNamesHaveNoSpace | crates/phantom-git/src/branches.rs:44-69 | no listed branch name contains a space |

## Left out

- Concurrency: the blocking reader thread (`io_thread.rs`), the tokio interval and `select!` of the render pump, every `Mutex` lock and its poisoning error path, and the atomics. One `extract_events` call, one send loop and one output-processing step are modelled as sequential methods; the command methods never produce a "Lock error".
- The operating system: spawning, reading, writing, resizing and polling a PTY, and `$SHELL`. The PTY is a class whose read, write and resize outcomes, the number of bytes a failed write still delivered, and the exit status come from behaviour functions fixed at spawn time.
- The terminal emulator library: escape-sequence interpretation, cursor movement, damage generation and grid contents are the functions of an abstract `Engine`; only the event-state bookkeeping on top of it is modelled.
- `working_dir` of `create_terminal` is passed through unused, because `TerminalSession::new` takes no such argument. `take_pty_reader` only marks the reader as taken, because `take_reader` is not part of this model.
- The `has_pty_data` cursor-row blink suppression described in `state.rs` is not modelled, because the render pump never reads the flag; the pump methods leave it unchanged.
- Vt.VtTerminal.Damage: reading the damage does not consume it; only `reset_damage` clears it.
- JSON decoding (serde_json) is a decoder function passed in, for graphs, findings, Codex lines and the `gh` listing; the free-form `metadata` values are dropped.
- `DefaultHasher` is an abstract `TitleHash` function of the title's bytes.
- AnalysisParser.ShortName: the `unwrap_or("unknown")` fallback is unreachable, because `split` always yields a first segment, so the model has no such branch.
- AnalysisParser.GenerateFindingId: `to_lowercase` is modelled for ASCII letters only; other characters are kept.
- AnalysisParser.StrippedNotIdempotent: stripping trailing commas is not idempotent, so no idempotence is claimed.
- `version` and `level` (`i64`) are unbounded integers; serde rejects values outside `i64`, so the difference is not observable after decoding.
- Diff.DiffGraphs: the `Vec`s the source collects from `HashSet` differences have an unspecified order, so added and removed nodes and edges are sets, and the modified nodes are a duplicate-free sequence whose order is not stated.
- Cli.FileName: a path ending in "/." gives no file name here, while Rust's `Path::file_name` returns the component before it. Detection then falls back to the whole text.
- Cli.BuildArgs: the budget is the text Rust prints for the `f64`, passed in. The binary, `current_dir` and the `Command` value are not modelled.
- `check_auth` runs processes and is not modelled.
- Sandbox.GenerateProfileRules: it does not state that the git directory appears only in a read rule, because the git directory may equal the worktree.
- `save_profile` writes a file and is not modelled.
- `clone_repo`, `check_gh_auth`, `create_worktree` and `remove_worktree` are not modelled: each launches git or gh and reports success or the trimmed stderr (`create_worktree` retrying once without `-b`), with nothing but the process run to model. The git and gh runs inside `list_worktrees`, `list_gh_repos` and `list_branches` become a `CommandOutput` value; the "failed to run" errors of a missing binary are not modelled. The file watcher is not modelled.
- Persistence (phantom-db), the analysis runner and scheduler, the Tauri command files other than `commands/terminal.rs`, `main.rs` and the `lib.rs` re-export files are not part of this model.
- Multiplexer.SessionMultiplexer.CreateSession: the `u64` counter is modelled as wrapping at 2^64; a debug build of the source would panic there instead. Distinct ids are proved only while the counter has not wrapped.
- State.AppState.NextSessionId: `fetch_add` on the `AtomicU64` wraps at 2^64, and distinct ids are proved only until it does.
- Multiplexer.SessionMultiplexer.ProcessAll: the sessions are visited in the order `SessionIds` picks, which, like the `HashMap`'s key order, is not stated; the order of the returned ids is therefore not stated either.
