# project-cli list navigator, in Dafny

A model of the terminal list navigator in `src/renderer/mod.rs`. The navigator
shows a list of project names below a fixed cursor anchor. It moves a
highlighted selection with `k`/`j` or the arrow keys. `i` or `s` enters a search
mode, where typed characters go into a buffer. It redraws the whole view after
every key.

The model has five modules, plus `Wrappers` (`wrappers.dfy`), which holds the
`Option` type they share, and `Scenarios` (`scenarios.dfy`), which holds
concrete sessions:

- `Utf8` (`utf8.dfy`) models the byte view of a Rust `String` that the search
  buffer relies on. `ByteLen` is `String::len`, which counts UTF-8 bytes.
  `Truncate` is `String::truncate`: it cuts at a byte offset, and `None` stands
  for the panic raised when the offset falls inside a character.
- `Screen` (`screen.dfy`) holds `ScreenState` and `UIMode`. It also holds the
  actions `move_up_list`, `move_down_list`, `search_for` and `normal_mode`.
  The bounds invariant `Valid` is `selected < max(1, |projects|)`.
- `Dispatch` (`dispatch.dfy`) is the body of the `for c in stdin.keys()` loop,
  written as a pure step. A state and an input event give one of three outcomes:
  - `Continue(next)`;
  - `Quit`;
  - `Panic`: either `unwrap` on a read error, or `truncate` off a char boundary.

  `Run` folds the step over a sequence of events.
- `Render` (`render.dfy`) composes the frame. Termion's escape sequences are
  opaque tokens: `Goto`, `ClearAfterCursor`, `FgYellow`, `FgLightBlack`
  and `FgReset`. Text is `Text(s)`. It models
  `render_state`, `render_header`, `render_search`, `render_list`,
  `render_safe_area` and the components `search_line` and
  `selectable_list_item`. A reference description of the frame as a list of
  lines (`FrameLines`) and a decoder (`DecodeFrame`) are the partners of the
  renderer.
- `Session` (`session.dfy`) is the loop in `start`, seen as the transcript it
  writes. A transcript is a sequence of whole frames and the cursor hide and
  show sequences.

The scenario lemmas in `scenarios.dfy` cover three kinds of input. One uses
the four-entry fixture list. One uses the empty list. Two hold for any list.

Notes on how the source behaves, which the model keeps:

- `ScreenState::new()` in `src/renderer/mod.rs` takes no argument and builds a
  fixed four-entry list, while `src/main.rs:8` calls it with the loaded project
  list. `Screen.New` takes the list as a parameter. The four entries appear as a
  scenario.
- The search buffer is a field next to the mode. It is kept when the mode
  returns to Normal, and `i` or `s` resumes it.
- In search mode every `Key::Char` is appended, whether printable or not. Enter
  arrives as `Char('\n')`, so the buffer can hold a line feed.
- Backspace computes `truncate(len - 1)` on the byte length. This removes the
  last character only when that character is one byte long (ASCII). After a
  wider character such as `é` the cut falls inside it, and the program panics.
  `Dispatch.AppendThenErase` proves both sides: appending a character and then
  pressing Backspace restores the buffer if and only if the character is ASCII,
  and otherwise the outcome is `Panic(NotCharBoundary)`.
- A failed key read (`c.unwrap()`) is a panic, `Panic(InputError)`.

## Model

| member | source | states |
|---|---|---|
| Screen.New | src/renderer/mod.rs:19-31 | the initial state is in Normal mode with an empty search term and index 0, holds the given list, and satisfies the bounds invariant |
| Screen.MoveUp | src/renderer/mod.rs:104-114 | the index becomes `max(index - 1, 0)`, or 0 on an empty list; nothing else changes and the bounds invariant is preserved |
| Screen.MoveDown | src/renderer/mod.rs:116-127 | the index becomes `min(index + 1, len - 1)`, or 0 on an empty list; nothing else changes, and the result satisfies the bounds invariant from any start |
| Screen.SearchFor | src/renderer/mod.rs:129-132 | the mode becomes Insert and the buffer the given term; the index and the list are untouched |
| Screen.NormalMode | src/renderer/mod.rs:134-136 | the mode becomes Normal; the buffer, index and list are untouched |
| Screen.MoveUpFixedPoint | src/renderer/mod.rs:104-114 | on a valid state, moving up changes nothing if and only if the index is 0 |
| Screen.MoveDownFixedPoint | src/renderer/mod.rs:116-127 | on a valid state, moving down changes nothing if and only if the index is the last position (0 for an empty list) |
| Screen.MoveInverse | src/renderer/mod.rs:104-127 | away from the ends, moving up and then down, or down and then up, returns the original state |
| Screen.MoveUpTimesClamps | src/renderer/mod.rs:104-114 | `n` up moves give index `max(index - n, 0)`: saturation, no wrap-around |
| Screen.MoveDownTimesClamps | src/renderer/mod.rs:116-127 | `n` down moves give index `min(index + n, max(len - 1, 0))`: saturation, no wrap-around |
| Utf8.Width | src/renderer/mod.rs:79-80 | a character takes 1 to 4 bytes, and exactly 1 if and only if it is ASCII |
| Utf8.ByteLen | src/renderer/mod.rs:79 | the byte length lies between the character count and four times it, and is 0 exactly for the empty string |
| Utf8.Truncate | src/renderer/mod.rs:80 | a length at or beyond the byte length leaves the string unchanged; a successful truncate keeps a prefix of the string whose byte length is the requested length |
| Utf8.TruncateAtBoundary | src/renderer/mod.rs:80 | truncating at the byte length of any prefix succeeds and keeps exactly that prefix |
| Utf8.TruncateLastByte | src/renderer/mod.rs:79-80 | cutting one byte off a non-empty string removes its last character if that character is ASCII, and panics otherwise |
| Dispatch.Erase | src/renderer/mod.rs:77-84 | Backspace panics exactly when the buffer's last character is not ASCII; otherwise it drops the last character (no-op on an empty buffer) and stays in Insert |
| Dispatch.Step | src/renderer/mod.rs:60-91 | quits exactly on `q` in Normal mode; panics exactly on a read error (with the input fault) or a Backspace over a non-ASCII last character; in Normal mode Up and `k` move up, and Down and `j` move down; never changes the list; keeps the bounds invariant; never moves the index in Insert mode; never edits the buffer in Normal mode |
| Dispatch.ModeRoundTrip | src/renderer/mod.rs:65-76 | in Normal mode, `i` or `s` enters Insert with the buffer kept, and Esc then returns exactly the original state |
| Dispatch.AppendThenErase | src/renderer/mod.rs:77-88 | in Insert mode a character is appended, and a following Backspace restores the original state if and only if that character is ASCII, panicking otherwise |
| Dispatch.EraseEmpty | src/renderer/mod.rs:77-84 | Backspace on an empty buffer leaves the state unchanged |
| Dispatch.IgnoredKeys | src/renderer/mod.rs:60-91 | Up, Down and unlisted keys in Insert mode, and Esc, Backspace, unlisted keys and unbound characters in Normal mode, leave the state unchanged |
| Dispatch.Run | src/renderer/mod.rs:60-91 | after any sequence of key events the state still satisfies the bounds invariant and holds the same list; `RepeatedUp`, `RepeatedDown` and `Session.LoopEndsLikeRun` relate it to the moves and to the loop |
| Dispatch.RepeatedUp | src/renderer/mod.rs:104-114 | in Normal mode, `n` Up presses (dispatched at line 63) are `n` applications of `move_up_list`, and leave index `max(index - n, 0)` |
| Dispatch.RepeatedDown | src/renderer/mod.rs:116-127 | in Normal mode, `n` Down presses (dispatched at line 64) are `n` applications of `move_down_list`, and leave index `min(index + n, max(len - 1, 0))` |
| Dispatch.EmptyListStaysAtZero | src/renderer/mod.rs:104-127 | with an empty list, no sequence of events moves the index off 0 |
| Render.SearchLine | src/renderer/mod.rs:196-222 | the line starts with the mode indicator `[i]` or `[n]`, followed by the buffer verbatim, or by the per-mode dimmed hint when the buffer is empty |
| Render.SearchLineRoundTrip | src/renderer/mod.rs:196-222 | the search line can be decoded back to the mode and the buffer, the empty buffer included |
| Render.ListItem | src/renderer/mod.rs:224-240 | an item carries the arrow marker, and the yellow colour, if and only if it is selected; the name follows and the colour is reset after it |
| Render.ListItemRoundTrip | src/renderer/mod.rs:224-240 | an item can be decoded back to its selection flag and its name |
| Render.Items | src/renderer/mod.rs:169-181 | the list writes five tokens per remaining entry |
| Render.RenderSafeArea | src/renderer/mod.rs:183-187 | exactly `n` tokens, each the line terminator `"\n\r"` |
| Render.ItemsAreLines | src/renderer/mod.rs:169-181 | the recursive list writer emits exactly the rows of the reference description, in list order, each row highlighted exactly when its position is the selected index |
| Render.RenderList | src/renderer/mod.rs:169-181 | the list is the item lines of the reference description joined in list order, five tokens per entry; `DecodeItemsRoundTrip` reads it back |
| Render.RenderState | src/renderer/mod.rs:142-154 | a frame is the jump to the anchor, the clear-after-cursor, and then the header, search and item lines joined in order; `FrameRoundTrip` and `FrameDeterminesState` read it back |
| Render.FrameIsLines | src/renderer/mod.rs:142-181 | the reference lines, joined, are the header, the search line with its terminator, and the list, as `render_state` writes them |
| Render.FrameLinesShape | src/renderer/mod.rs:142-181 | a frame has `2 + len` lines, each ending in a line feed and a carriage return |
| Render.FrameItemLine | src/renderer/mod.rs:169-181 | line `2 + k` of a frame is the item line for project `k`, selected exactly when `k` is the selected index |
| Render.FrameRowsShowProjects | src/renderer/mod.rs:169-181 | line `2 + k` decodes to project `k`, marked exactly when `k` is selected |
| Render.DecodeItemsRoundTrip | src/renderer/mod.rs:169-181 | the list can be decoded back to the project names and the highlighted position |
| Render.BodyRoundTrip | src/renderer/mod.rs:160-181 | the part of a frame after the header can be decoded back to the mode, buffer, list and highlighted position |
| Render.FrameRoundTrip | src/renderer/mod.rs:142-240 | a frame can be decoded back to the anchor, mode, buffer, list and highlighted position |
| Render.FrameDeterminesState | src/renderer/mod.rs:142-240 | two valid states drawn as the same frame are equal |
| Session.Loop | src/renderer/mod.rs:60-95 | the loop writes at most one thing per key read and exactly one frame per key when the input runs out; every write is a frame, except a cursor-show that is the last write and only on quit; `LoopEndsLikeRun` ties its ending to `Dispatch.Run` |
| Session.Start | src/renderer/mod.rs:54-95 | a session first hides the cursor and then draws the frame of the initial state, and everything after is the loop's output; it ends by quit, by panic with the same fault, or by end of input exactly when `Dispatch.Run` from the initial state does, and then it has written `2 + len(events)` items |
| Session.SessionFrameShowsState | src/renderer/mod.rs:54-93 | over a whole session, every frame at position `k` after the cursor hide shows the state after the first `k - 1` keys: the initial state first, then the redraw after each handled key |
| Session.LoopEndsLikeRun | src/renderer/mod.rs:60-95 | the loop ends by quit, by panic (with the same fault) or by end of input exactly when the step sequence does |
| Session.LoopShowsCursorOnQuit | src/renderer/mod.rs:69-72 | the loop shows the cursor once if it ends by quit and never otherwise, and never hides it |
| Session.SessionCursorBalance | src/renderer/mod.rs:54-72 | over a whole session the cursor is hidden exactly once, and shown again exactly once if and only if the session ends by quit |
| Session.QuitStopsLoop | src/renderer/mod.rs:69-72 | events after a quit are never read: appending them changes neither output nor ending |
| Session.LoopFrameShowsState | src/renderer/mod.rs:60-93 | the redraw after every handled key: whenever the `k`-th write is a frame, it is the frame of the state after the first `k + 1` keys, and those keys neither quit nor panic |
| Session.LastFrameShowsState | src/renderer/mod.rs:60-95 | while the loop runs, the last thing written is the frame of the latest state |
| Scenarios.TwoDownsSelectThree | src/renderer/mod.rs:24-29 | on the four-entry list, two down presses select index 2, and the row for "three" is the marked one |
| Scenarios.EmptyListFrame | src/renderer/mod.rs:142-181 | on an empty list navigation keeps index 0, and the frame is the anchor jump, the clear, the header and the search line only |
| Scenarios.TypeThenLeave | src/renderer/mod.rs:65-88 | `i`, `a`, `b` gives Insert mode with buffer "ab", and Esc returns to Normal mode with the index unchanged |
| Scenarios.QuitAtOnce | src/renderer/mod.rs:54-72 | `q` first: hide the cursor, draw once, show the cursor, stop |

## Left out

- Raw-mode acquisition, locking stdin and stdout, `flush`, and the blocking key read (`src/renderer/mod.rs:40-43`, `:60`, `:94`, `:97`) are terminal I/O. The key stream is an input sequence of events instead.
- Cursor-position detection and the anchor offset (`src/renderer/mod.rs:45-53`) depend on a live terminal query. The anchor is an input `(col, row)`. The `u16` subtraction `pos.1 - num_lines` is therefore not modelled. `Session.Start` begins at the cursor hide (`:54`), after the safe area has been written.
- Session.LoopEndsLikeRun: write and flush failures are not modelled. In the source each `write!`/`flush` ends in `.unwrap()` and panics on an I/O error (`src/renderer/mod.rs:54`, `:70`, `:94`, `:97`, `:149`, `:157`, `:166`, `:179`, `:185`). The model treats every write as successful, so its only panics are the read error and the truncate.
- The byte encodings termion produces for its escape sequences are opaque tokens.
- Screen.MoveDown: the `usize` addition `index + 1` is unbounded here. It cannot overflow while the bounds invariant holds, and every step keeps that invariant.
- `src/termion_examples/mod.rs` is demo code that is never called. It is not part of this model.
- `src/storage/mod.rs` reads a hard-coded file line by line. It is not part of this model; the project list is an input.
- `src/main.rs` only wires the two together. It is not part of this model.
