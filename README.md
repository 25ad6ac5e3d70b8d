# Advent task calendar: the submission state machine

This project models the `AdventCalendar` React component of the advent task
calendar (`my-react-app/src/Tasks.jsx`). Players open a numbered tile, type
the task's password and press Send. A correct password credits the task's
points to their team's row in a hosted `scoreboard` table.

The component is modelled as the class `Tasks.AdventCalendar`. It has the
component's fields:

- the team name, the task list and its loading flag;
- the open task, the password field, the submitting flag and the message line;
- a flag for the pending one-second close timer.

Each handler is one method. The hosted database is the class
`Backend.Database`, holding the rows of `task` and the `scoreboard` as a map
from team name to a possibly-null score.

Each awaited query is one round trip. A `Backend.Fault` parameter says how it
ends: a normal answer, an `error` in the reply, or a throw. The function
`Tasks.Decide` is the specification of one press of Send. It gives the
`Feedback.Outcome` the handler reaches, given:

- the open task and the two typed fields;
- the backend's contents;
- the faults of the three round trips.

`SubmitPassword` is proved against it, and its steps `CheckPassword`,
`RecordScore`, `UpdateRow` and `InsertRow` against the parts `CheckTask` and
`WriteScore`.
`Feedback.MessageAfter` gives the message line an outcome leaves, and
`Tasks.BoardAfter` gives the scoreboard.

Modules:

- `Optional`: `Option`, with `GetOr` for the code's `x || default`.
- `JsText`: `String.prototype.trim` over the ECMAScript whitespace set, and
  the decimal text of an integer (as `"+" + points` prints it), with its
  inverse.
- `Backend`: task and scoreboard rows, and the queries as functions of the
  tables and a fault:
  - `.single()`, `.maybeSingle()`;
  - an update that matches no row, an insert on an existing key.

  Also the `Credit` effect of an award and the `Database` class with its two
  writes.
- `Feedback`: the ten outcomes, the exact message texts, and a reader that
  recovers the outcome from the message.
- `Tasks`: `Decide`, the properties of a submission, and the component class.

The component implements no password normalisation, no lists of accepted
answers, no record of solved tasks (`completed_tasks`) and no wrong-answer
penalty, and the model has none of them either:

- the typed password is compared with `String(task.password || "")` exactly
  (line 90);
- the scoreboard read selects only `team, score` (line 102);
- nothing records solved tasks, so a repeated correct submission credits the
  points again;
- nothing is ever deducted.

## Model

| member | source | states |
|---|---|---|
| Tasks.AdventCalendar.constructor | my-react-app/src/Tasks.jsx:17-27 | The initial state: the saved team name or "" (a missing key reads as ""), no tasks, loading, no modal, empty password and message, not submitting. |
| Tasks.AdventCalendar.SaveTeamName | my-react-app/src/Tasks.jsx:33-36 | The team field takes the typed value as it is, untrimmed. |
| Tasks.AdventCalendar.TypePassword | my-react-app/src/Tasks.jsx:206-209 | The password field takes the typed value unless a submission is in progress; the input is disabled then. |
| Tasks.AdventCalendar.LoadTasks | my-react-app/src/Tasks.jsx:38-52 | A normal reply replaces the tile list with the id-ordered rows and ends loading. An error reply keeps the list, ends loading and sets the load-failure message. A thrown query leaves loading on. |
| Tasks.AdventCalendar.OnTileClick | my-react-app/src/Tasks.jsx:54-58 | Opening a tile sets the open task to it and clears the password field and the message. |
| Tasks.AdventCalendar.ClickTile | my-react-app/src/Tasks.jsx:172-176 | A tile whose `active` is exactly `false` ignores the click and nothing changes. Any other tile (active `true` or `null`) opens as `OnTileClick` does. |
| Tasks.AdventCalendar.CloseModal | my-react-app/src/Tasks.jsx:192 | Cancel or backdrop: closes the modal when no submission is in progress, and does nothing while one is. |
| Tasks.AdventCalendar.SubmitPassword | my-react-app/src/Tasks.jsx:61-149 | After Send: the message is the one for the `Decide` outcome (unchanged with no open task). Submitting stays on exactly when points were awarded. The scoreboard changes only by that award's `Credit`. The invariant (the close timer is pending exactly while submitting, and the modal stays open) is kept. |
| Tasks.AdventCalendar.CheckPassword | my-react-app/src/Tasks.jsx:72-95 | Once both fields are filled: each of a thrown re-fetch, a missing task and a wrong password ends with its own message, submission re-enabled and no write. A correct password goes on to record the score. |
| Tasks.AdventCalendar.RecordScore | my-react-app/src/Tasks.jsx:98-137 | Reads the trimmed team's row. A read that throws or fails ends with its own message, submission re-enabled and the board as before. Otherwise the round trip goes on to the update when the team has a row and to the insert when it has none. |
| Tasks.AdventCalendar.UpdateRow | my-react-app/src/Tasks.jsx:113-143 | With a row present: the row's score becomes `(score or 0) + (points or 0)`, the award message is written and the close timer starts. A failed or thrown update leaves the board as it was, with its own message and submission re-enabled. |
| Tasks.AdventCalendar.InsertRow | my-react-app/src/Tasks.jsx:126-143 | With no row: a row with `points or 0` is created, the award message is written and the close timer starts. A failed or thrown insert leaves the board as it was, with its own message and submission re-enabled. |
| Tasks.AdventCalendar.CloseTimerFires | my-react-app/src/Tasks.jsx:140-143 | The timer a success scheduled closes the modal and re-enables submission. |
| Tasks.StoredPassword | my-react-app/src/Tasks.jsx:90 | The string the typed password is compared with: the stored text, or "" for a null password. |
| Tasks.Decide | my-react-app/src/Tasks.jsx:61-149 | The outcome of one press of Send. There is no outcome exactly when no task is open. An award implies that both fields are non-blank, that every round trip answered normally, and that the credited name is the trimmed team name. |
| Tasks.CheckTask | my-react-app/src/Tasks.jsx:77-95 | After the guards: the outcome is never a guard outcome. A wrong password happens exactly when the re-fetched row's stored password differs from the typed one. An award needs the re-fetched row, an exact match, the row's own points and normal read and write round trips. |
| Tasks.WriteScore | my-react-app/src/Tasks.jsx:100-139 | After the password is accepted: an award happens exactly when the read is normal, the write is normal and, for an insert, the team has no row yet. The award carries the task's points and the name. The crash outcome comes exactly from a thrown read or a thrown write. |
| Tasks.BoardAfter | my-react-app/src/Tasks.jsx:106-137 | The scoreboard after an outcome: unchanged unless awarded. An award adds the credited name's key if missing, sets its score to the prior score (0 if none) plus `points or 0`, and leaves every other row as it was. |
| Tasks.GuardOrder | my-react-app/src/Tasks.jsx:62-70 | Guard order: no open task gives no outcome, whatever else holds. Then a blank team name gives NeedTeam, even with a blank password. Then a blank password gives NeedPassword. These three outcomes arise only from those guards. |
| Tasks.OnlyTrimmedTeamMatters | my-react-app/src/Tasks.jsx:63-98 | Typing the team name exactly as it was credited, without surrounding whitespace, gives the same outcome, so it writes to the same scoreboard row. |
| Tasks.AwardIffExactPassword | my-react-app/src/Tasks.jsx:83-95 | Both directions, on any task table. An award implies every round trip answered normally, the task's single row exists, the typed password equals its stored password exactly, and the award carries that row's points and the trimmed team name. Conversely, with both fields non-blank, the row present, an exact match and every round trip answering normally, the result is that award. |
| Tasks.BlankPasswordTaskUnsolvable | my-react-app/src/Tasks.jsx:67-90 | A task whose stored password is null, empty or only whitespace is never awarded. |
| Tasks.OtherPasswordRefused | my-react-app/src/Tasks.jsx:90-95 | On any table holding the task, with both fields non-blank and a normal re-fetch, any typed string other than the stored password is refused as wrong, whatever the scoreboard and the later round trips. |
| Tasks.CaseIsNotFolded | my-react-app/src/Tasks.jsx:90 | With "SnowAngel" stored, "snowangel" is refused as a wrong password. |
| Tasks.PasswordIsNotTrimmed | my-react-app/src/Tasks.jsx:90 | With "SnowAngel" stored, "SnowAngel " (trailing space) is refused as a wrong password. |
| Tasks.FirstAwardCreatesRow | my-react-app/src/Tasks.jsx:98-137 | On any id-ordered table holding the task: a team with no row types the task's stored password, with whitespace padding around its name. It is awarded that task's points under the unpadded name, and the board gains that one row with `points` (0 for null). |
| Tasks.AwardWritesOneRow | my-react-app/src/Tasks.jsx:113-137 | Every non-award outcome leaves the scoreboard as it was. An award touches only the trimmed team's key: an existing row becomes `(score or 0) + (points or 0)`, and a missing row is created with `points or 0`. |
| Tasks.ResubmissionCreditsAgain | my-react-app/src/Tasks.jsx:113-137 | After an award, the same submission against the new board is awarded again, and the team's score has grown by twice the (0-defaulted) points. |
| Backend.RowsWithId | my-react-app/src/Tasks.jsx:80 | `.eq("id", id)`: the selected rows are exactly the table's rows with that id. |
| Backend.SingleById | my-react-app/src/Tasks.jsx:77-81 | `.single()`: a row is found exactly when one row carries the requested id, and that row is in the table with that id. No match and several matches both give nothing. |
| Backend.SingleByIdFinds | my-react-app/src/Tasks.jsx:77-81 | On an id-ordered task table, `.single()` on an id yields a row exactly when that row is in the table with that id. |
| Backend.AllTasks | my-react-app/src/Tasks.jsx:40-43 | The task-list query answers with the rows exactly when its round trip ends normally. |
| Backend.TaskById | my-react-app/src/Tasks.jsx:77-87 | A normal reply came from a normal round trip and is a table row with the requested id. The reply is a throw exactly when the round trip threw. |
| Backend.ScoreRowOf | my-react-app/src/Tasks.jsx:100-104 | A normal reply holds a row exactly when the team is on the board, and then that row carries the team's score. A missing row is not an error. |
| Backend.UpdateAck | my-react-app/src/Tasks.jsx:115-120 | The update succeeds exactly when its round trip is normal, and throws exactly when it threw; a missing row is not an error. |
| Backend.InsertAck | my-react-app/src/Tasks.jsx:127-129 | An insert succeeds exactly when the round trip is normal and the team has no row yet. |
| Backend.PriorScore | my-react-app/src/Tasks.jsx:114 | The `score or 0` of an existing row, read off the board: the team's stored score, or 0 when its score is null or it has no row. |
| Backend.Credit | my-react-app/src/Tasks.jsx:113-137 | An award adds the team's key if missing, sets its score to the prior score (or 0) plus the points, and leaves every other key as it was. |
| Backend.CreditAllAccumulates | my-react-app/src/Tasks.jsx:113-137 | A run of awards to one team leaves that team with its prior score plus the sum of all the points awarded, repeats included. Every other row is unchanged. |
| Backend.Database.UpdateScore | my-react-app/src/Tasks.jsx:115-118 | `update(...).eq("team", ...)` sets the team's score if it has a row and otherwise changes nothing, even when it reports success. A failed or thrown update changes nothing. |
| Backend.Database.InsertScore | my-react-app/src/Tasks.jsx:127-129 | `insert` adds the team's row when the reply is successful, and changes nothing otherwise. |
| JsText.Trim | my-react-app/src/Tasks.jsx:63 | `trim` yields the slice after the leading whitespace, with only whitespace after it. The slice neither starts nor ends with whitespace. |
| JsText.BlankIffAllWhitespace | my-react-app/src/Tasks.jsx:63-67 | `s.trim()` is empty exactly when every character of `s` is whitespace (including the empty string). |
| JsText.IsBlank | my-react-app/src/Tasks.jsx:63-67 | `!s.trim()` holds exactly when every character of `s` is whitespace. |
| JsText.TrimIdempotent | my-react-app/src/Tasks.jsx:63-98 | Trimming the trimmed team name changes nothing, so a name already trimmed passes the blank check and is credited as typed. |
| JsText.TrimStripsPadding | my-react-app/src/Tasks.jsx:98 | Whitespace typed around a name is exactly what `trim` removes. |
| JsText.IntToDecimal | my-react-app/src/Tasks.jsx:139 | The printed text of an integer reads back as that integer. It contains no space and is never "null". |
| Feedback.PointsText | my-react-app/src/Tasks.jsx:139 | `"" + points`: the text of the points, or "null", reads back as those points and holds no space. |
| Feedback.AwardMessage | my-react-app/src/Tasks.jsx:139 | The success message can be parsed back into exactly the points and the team name it reports. |
| Feedback.MessageAfter | my-react-app/src/Tasks.jsx:62-146 | The message line after an outcome: unchanged when no task is open, and non-empty for every other outcome. |
| Feedback.MessageIdentifiesOutcome | my-react-app/src/Tasks.jsx:64-146 | Every message a submission writes identifies its outcome: no two outcomes leave the same text. |

## Left out

- Creating the database client and checking its environment variables (lines 7-13) is configuration; the client is the `Database` object.
- Local storage of the team name (lines 17, 33-36) is browser I/O. The saved value is the constructor's `savedTeam`, and saving is not modelled.
- Asynchronous interleaving is not modelled. A submission runs from Send to its end in one step, with no render or other handler in between. So a Cancel click or a tile click while requests are in flight is not modelled.
- The one-second delay is not modelled: the timer is the separate step `CloseTimerFires`, which may come at any later point.
- Other browser sessions writing the same team's row between the read and the write (lost updates) are not modelled.
- All JSX rendering (lines 151-236) is left out, except the guards it carries: the inactive tile (176), the backdrop and Cancel (192, 225), and the disabled input and button (209, 219).
- SubmitPassword: requires that no submission is in progress, because the Send button is disabled then (line 219).
- ClickTile: requires that loading is over, because the grid is only shown then (line 168). A click on a tile while the modal is open is allowed, since the backdrop's styling is not part of this model.
- The `scoreboard` table is taken to have `team` as its key. A second row for a team is therefore an insert error, and `.maybeSingle()` never sees two rows.
- A stored password that is not text (`String(...)` of a number or an array) is not modelled; the column is an optional string.
- Characters are Unicode scalar values, not UTF-16 code units, so `trim` on lone surrogates is not modelled.
- Credit: adds unbounded integers. The code adds two JavaScript numbers (line 114), which are doubles, and stores the sum in a `score` column of finite width. So neither rounding above 2^53 (a score of 2^53 plus 1 point gives 2^53 in JavaScript, 2^53 + 1 here) nor an update or insert refused because the sum is outside the column's range is modelled. The same holds for `UpdateRow` and `InsertRow`, which write what `Credit` computes.
- IntToDecimal: does not model numbers of 10^21 and more, which JavaScript prints with an exponent, nor points that are not integers.
- A throw after the server has applied a write (the reply lost in transit) is treated as a write that did not happen.
- A normal task-list reply with `null` data (`data || []`, line 49) is not modelled; a normal reply holds the rows.
- Logging to the console (lines 46, 107, 121, 132, 145) is left out.
- `my-react-app/src/Christmas2025.jsx` (the scoreboard page) and `my-react-app/src/main.jsx` (mounting) are not part of this model.
