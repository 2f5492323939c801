# MySQL query panel for VS Code — a Dafny model of its statement handling

The extension opens a webview panel with a SQL text area and four buttons:
Execute, Execute All, Clear Output and Save As File (extension.js:263-266).
Two of them send SQL to the extension host, which runs it on one MySQL
connection:

- "execute all" splits the buffer into statements and sends each one to
  the host as its own `executeQuery` message;
- "execute current line" finds the line under the cursor and asks the
  host to confirm it and run it.

The host splits every `executeQuery` text again. It runs the statements one
after another and posts a `queryResult` or a `queryError` message for each.
A failing statement never stops the ones after it.

This project models that core:

- `js_string.dfy` — the two JavaScript string operations everything rests
  on: `String.prototype.trim` (over the ECMAScript WhiteSpace and
  LineTerminator code points) and `split`/`join` with one separator
  character.
- `statements.dfy` — the split-on-`;`, trim, drop-empty chain, which both
  sides of the extension use.
- `host.dfy` — the host side:
  - `executeQuery`, the driver call and its error wrapping;
  - the `onDidReceiveMessage` handler with its batch loop and its
    confirm-then-run branch;
  - the `Connection` and `Panel` classes, whose state is the statements run
    so far and the messages posted so far.
- `webview.dfy` — the webview script: the `executeAllQueries` loop and the
  two index scans that locate the current line.
- `scenarios.dfy` — concrete runs that follow from the general lemmas.

The database is a parameter. A `Server` maps the statements already run on
the connection and a new statement to the driver's answer: a payload, or a
failure with a message. So a later statement may see the effects of an
earlier one.

The user's answer to the confirmation dialog is also a parameter. Handlers
run one at a time, in the order their messages arrive.

Two quirks of the connection handling, outside the modelled core:

- `disconnect` ends the connection but never clears the module-level
  `connection` variable (extension.js:45-54).
- `connect` assigns `connection` before the `try` that reports a failed
  connect (extension.js:25-40).
- There is no separate not-connected state. A panel opens only after a
  connect has assigned `connection` (extension.js:25, 35), and nothing
  resets it. With a panel open, the not-connected case is therefore a
  `query` on an ended connection. The driver rejects it inside
  `executeQuery`'s `try`, so it comes back wrapped like any other driver
  failure. In this model that is a `Server` that always answers `Failure`.

These behaviours are recorded here, not modelled.

## Model

| member | source | states |
|---|---|---|
| `JsString.Trim` | extension.js:74 | `trim()`: the specification function that `TrimSpec`, `TrimPadded` and `TrimIdempotent` pin down |
| `JsString.TrimStartSpec` | extension.js:74 | trimming the front drops only whitespace and keeps a suffix that does not start with whitespace |
| `JsString.TrimEndSpec` | extension.js:74 | trimming the end drops only whitespace and keeps a prefix that does not end with whitespace |
| `JsString.TrimSpec` | extension.js:74 | `trim()` yields a string with no whitespace at either end, made of characters of the input, and empty exactly when the input is all whitespace |
| `JsString.TrimLayout` | extension.js:312 | the input is leading whitespace, then the trimmed string, then trailing whitespace |
| `JsString.TrimIsTrimmed` | extension.js:312 | the result of `trim()` neither starts nor ends with whitespace |
| `JsString.TrimKeepsCharacters` | extension.js:329 | every character of the trimmed string occurs in the input |
| `JsString.TrimEmptyIffBlank` | extension.js:328 | the trimmed string is empty if and only if the input is all whitespace, so the `length > 0` test means "not blank" |
| `JsString.TrimPadded` | extension.js:312 | whitespace margins around a trimmed middle are removed and the middle is given back exactly, an independent characterisation of `trim()` |
| `JsString.TrimIdempotent` | extension.js:74 | trimming twice, as host and webview together do, equals trimming once |
| `JsString.Split` | extension.js:73 | `split` always yields at least one piece |
| `JsString.SplitPiecesAvoid` | extension.js:73 | no piece of `split(';')` contains the separator |
| `JsString.SplitCount` | extension.js:286 | `split('\n')` yields one more piece than there are line feeds |
| `JsString.JoinSplit` | extension.js:73 | joining the pieces with the separator gives back the original text |
| `JsString.SplitJoin` | extension.js:73 | splitting a join of separator-free pieces gives back those pieces |
| `JsString.SplitWithoutSeparator` | extension.js:329 | a text without the separator splits into itself alone |
| `JsString.SplitConcat` | extension.js:329 | a separator between two texts splits them independently, left pieces first |
| `Statements.Statements` | extension.js:74-75 | the `map(trim)` and `filter(length > 0)` stages; `StatementsClean`, `StatementsCount` and `StatementsAppend` state what they keep |
| `Statements.SplitStatements` | extension.js:72-75 | the whole split, trim and filter chain (also at extension.js:329); `SplitStatementsClean`, `SplitStatementsAppend` and `SplitStatementsSingle` determine it on every text |
| `Statements.SplitEach` | extension.js:72-75 | the host's re-split of each message text, concatenated; `ResplitAll` shows it gives back the webview's statement list |
| `Statements.StatementsClean` | extension.js:72-75 | every kept statement is non-empty, equals its own trim and avoids any character no piece holds |
| `Statements.SplitStatementsClean` | extension.js:72-75 | every statement of a buffer is non-empty, has no surrounding whitespace and contains no `;` |
| `Statements.StatementCount` | extension.js:329 | there is one statement per non-blank segment between separators |
| `Statements.StatementsCount` | extension.js:75 | the filter keeps exactly the non-blank pieces |
| `Statements.StatementsAppend` | extension.js:74-75 | the trim-and-filter stage commutes with concatenating piece lists |
| `Statements.SplitStatementsAppend` | extension.js:329 | statements left of a `;` come first, and the two sides are split independently |
| `Statements.SplitStatementsSingle` | extension.js:72-75 | a text without `;` is no statement when blank and otherwise exactly its trim |
| `Statements.BlankTextHasNoStatements` | extension.js:328-329 | a blank buffer has no statements, so the webview's own blank check changes nothing |
| `Statements.ResplitStatement` | extension.js:72-75 | splitting a statement again gives that statement alone |
| `Statements.ResplitAll` | extension.js:329-331 | re-splitting every statement the webview sends, as the host does, gives back the same statement list |
| `Host.FailureText` | extension.js:145 | the message of the thrown error; `FailureTextRoundTrip` and `FailureTextAmbiguous` state what it does and does not preserve |
| `Host.FailureTextRoundTrip` | extension.js:145 | for a one-line statement, the error text yields back both the statement and the driver's message |
| `Host.FailureTextAmbiguous` | extension.js:145 | for a statement that spans lines, the error text cannot tell where the statement ends and the driver's message starts |
| `Host.Outcome` | extension.js:140-146 | `executeQuery` settles with `{query, rows}` exactly when the driver answers, carrying that statement and that payload, and otherwise throws with the failure text |
| `Host.FailureNamesStatement` | extension.js:144-145 | a driver failure becomes a thrown error whose text names the one-line statement and carries the driver's message unchanged |
| `Host.ReplyFor` | extension.js:78-86 | a result becomes `queryResult` with the same query and rows, and a thrown error becomes `queryError` with the same message |
| `Host.BatchReplies` | extension.js:77-87 | what the batch loop posts; `BatchRepliesAt` and `BatchRepliesAppend` state it message by message and for concatenated batches |
| `Host.BatchRepliesCons` | extension.js:77-87 | the first statement is answered first, and the rest run after it |
| `Host.BatchRepliesLength` | extension.js:77-87 | the batch loop posts exactly one message per statement |
| `Host.BatchReplyAt` | extension.js:77-87 | message i answers statement i, run after statements 0..i-1 whatever those answered: `queryResult` with its rows when the driver answers, `queryError` with the failure text naming it when the driver fails |
| `Host.BatchRepliesAt` | extension.js:77-87 | one message per statement, in order, each the reply to its statement run after all earlier ones (`queryResult` with its rows, or `queryError` with the failure text naming it), so a failure never stops the batch |
| `Host.BatchRepliesAppend` | extension.js:77-87 | running a + b posts the replies for a, then those for b run after a |
| `Host.BatchRepliesSnoc` | extension.js:77-87 | one more loop iteration appends exactly the reply to that statement |
| `Host.Connection.constructor` | extension.js:25-29 | a new connection has run no statement |
| `Host.Connection.Query` | extension.js:142 | the driver's answer depends on the statements run before, and the statement is recorded as run |
| `Host.ExecuteStatement` | extension.js:140-146 | runs the statement once and settles with the `Outcome` of the driver's answer |
| `Host.Panel.constructor` | extension.js:57-67 | a new panel has been posted no message |
| `Host.Panel.RunAndPost` | extension.js:78-86 | the try/catch runs one statement and posts exactly one message, result or error |
| `Host.Panel.RunBatch` | extension.js:77-87 | the loop runs every statement once, in order, and posts exactly the batch's replies |
| `Host.Panel.OnExecuteQuery` | extension.js:71-88 | an `executeQuery` message runs exactly the statements of its text and posts one reply for each |
| `Host.Panel.OnShowConfirmationDialog` | extension.js:90-114 | on "Yes", posts the line back as `executeQuery`, then runs it unsplit and posts its reply; on any other answer, changes nothing |
| `Host.Panel.OnDidReceiveMessage` | extension.js:70-119 | dispatches on the command; `saveFile` leaves the connection and the posted messages unchanged |
| `Webview.ExecuteAllQueries` | extension.js:325-334 | posts one `executeQuery` message per statement of the buffer, in buffer order, and nothing for a blank buffer |
| `Webview.SessionReplies` | extension.js:330-332 | the replies to the per-statement messages handled in order; `SessionRepliesFlatten` relates them to one batch |
| `Webview.SessionRepliesFlatten` | extension.js:330-332 | handling the per-statement messages one by one posts what one batch of all their statements posts |
| `Webview.ExecuteAllRunsEachStatementOnce` | extension.js:325-334 | "execute all" runs exactly the buffer's statements, in order, and posts the same replies as sending the whole buffer in one message |
| `Webview.CurrentLine` | extension.js:302-312 | the cursor's line, numbered by the line feeds before the cursor, contains no line feed |
| `Webview.LineIsSplitPiece` | extension.js:302-310 | bounds that bracket the cursor, contain no line feed and stop at a line feed or at an end of the text give exactly the cursor's line |
| `Webview.LocateLine` | extension.js:302-310 | the two scans stop next to the nearest line feeds (or the text's ends) around the cursor, and the slice between them is the cursor's line |
| `Webview.ExecuteCurrentLine` | extension.js:296-320 | a blank current line only warns; otherwise its trim, non-empty and without a line feed, goes to the host for confirmation |
| `Scenarios.BlankSegmentsDropped` | extension.js:329 | a text like `s1; ; s2;` yields exactly `[s1, s2]` |
| `Scenarios.MiddleFailureDoesNotStopTheBatch` | extension.js:77-87 | when the second of three statements fails, the batch still posts three messages: a result, an error naming it, and a result |
| `Scenarios.CursorOnSecondLine` | extension.js:302-312 | with the cursor anywhere on the second line, that line is the current line |
| `Scenarios.CursorOnBlankLine` | extension.js:312-319 | with the cursor on an empty line, the current line is empty, so the button only warns |

## Left out

- Connect, disconnect, activate and deactivate (extension.js:9-54 and
  493-508) are not modelled. They are the credential prompts, opening and
  ending the driver connection, and registering commands. The two
  behaviours of that code noted above are recorded but not modelled.
- The VS Code UI is not modelled: input boxes, information and error
  messages, and the panel's creation options. The confirmation dialog's
  answer is a parameter of `Host.Panel.OnShowConfirmationDialog`.
- `saveFile` (extension.js:122-136) shows a save dialog and writes the
  file. That is file-system I/O, so it is not modelled. The model only
  states that it changes neither the connection nor the posted messages.
- Asynchrony is not modelled. Each handler runs to completion before the
  next message is handled. JavaScript's `await` points would let two
  handlers interleave their statements on the connection.
- The mysql2 driver is not modelled: its connection protocol, type
  conversion of column values, and multi-statement support. The driver is
  the `Server` function. Rows are maps from column names to displayed
  strings, and a statement without rows returns a `Status` with an
  affected-row count.
- The webview's HTML, CSS and DOM rendering are not modelled
  (extension.js:149-490). This covers:
  - result tables;
  - the `Error: ` and `Warning: ` prefixes in the output area;
  - `updateLineNumbers`, beyond the line count `JsString.SplitCount`
    gives;
  - the keyboard shortcuts.
- The webview's reaction to the `executeQuery` message that the
  confirmation branch posts back is not modelled. The script has no
  handler for that command, so it is dropped. It appears as the
  `ConfirmedQuery` reply.
- JavaScript strings are sequences of UTF-16 code units. The model uses
  Dafny characters. The separators `;` and line feed, and every character
  `trim()` removes, are single code units, so this changes no result.
- `Host.Panel` pins each panel to the connection it was created with. The
  code reads the module-level `connection` on every call (extension.js:142),
  so a later connect would redirect an open panel to the new connection.
  Connect is not modelled, so neither is that redirection.
- `Host.Panel.OnShowConfirmationDialog` runs the confirmed line as one
  statement without splitting it on `;`, as the code does. A line holding
  two statements reaches the driver as one text.
