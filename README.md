# Washing-machine binding state machine

A model of the backend of a shared washing-machine notifier. LINE users send
`使用<id>` to register on a machine and `取衣<id>` to release it after
collecting their laundry; each machine's ESP32 controller posts `started` or
`finished` to `/esp32`. Both endpoints read and write the `machines` table,
one row per `machine_id`, holding a `status` (`idle`, `waiting_start`,
`running`, `finished_wait`) and the `current_user` bound to the machine.
Every reply and push the server sends is returned as a list of notifications.

Modules:

- `Wrappers` — `Option`, standing for JavaScript's `null`.
- `JsString` — `trim`, `startsWith`, and `replace` with a string pattern
  and a replacement without `$` (first occurrence only) on strings.
- `Commands` — reading a text message as one of the two commands.
- `Machines` — the pure state machine: the table as a map, the three events
  (`Register`, `Release`, `Report`), `Step`, the message wording, and the
  lemmas about them.
- `Server` — the two endpoints as specification functions, the webhook's
  batch of events, and the class `MachineTable` whose methods change the
  table step by step as the handlers do. The three table operations state
  the new table directly; the three handlers are each proved equal to their
  specification function.

Behaviour of the code that the model keeps on purpose:

- Release checks only that the row exists and is bound to the sender. There
  is no `finished_wait` gate, so Register then Release by the same user frees
  the machine (`Machines.RegisterThenRelease`).
- Register overwrites any existing binding. It does not check whether another
  user holds the machine (`Machines.RegisterOverwrites`).
- Nothing is broadcast. The only pushes are the ones a hardware report sends
  to the bound user.
- The hardware endpoint is `/esp32` and its fields are `machine_id` and
  `status`. A report whose `status` is some other string is answered with
  200 and changes nothing.
- The push is guarded by JavaScript truthiness (`if (currentUser)`). A row
  whose user is null or the empty string gets no push.
- Invariant: an idle row has no user and a `waiting_start` row has one.
  `running` and `finished_wait` rows may have no user, because a report can
  create a row before anyone registers. A row with a user has a non-empty
  trimmed id, because only a parsed `使用` command binds a user. So every
  finished push that is sent quotes a `取衣<id>` that parses back.

## Model

| member | source | states |
|---|---|---|
| `JsString.IsWhitespace` | index.js:103 | the code points `trim` strips: ECMAScript's WhiteSpace and LineTerminator sets |
| `JsString.SkipForward` | index.js:103 | an index at or after the start, no further than the end, that holds no whitespace unless it is the end (that it is the first such index is `SkipForwardExact`) |
| `JsString.SkipBackward` | index.js:103 | an index no lower than the given bound such that the character before it is not whitespace unless the bound is reached |
| `JsString.Trim` | index.js:103 | `trim` returns a text with no whitespace at either end, no longer than its input |
| `JsString.SkipForwardExact` | index.js:103 | the forward scan stops at an index exactly when everything before it is whitespace and the character there is not |
| `JsString.SkipBackwardExact` | index.js:103 | the backward scan stops at an index exactly when everything after it is whitespace and the character before it is not |
| `JsString.TrimCutsWhitespace` | index.js:103 | the result of `trim` is a substring of the input with only whitespace before and after it |
| `JsString.TrimOfBlank` | index.js:103 | a text of nothing but whitespace trims to the empty text |
| `JsString.TrimOfPadded` | index.js:103 | for any whitespace around any trimmed middle, `trim` returns exactly that middle |
| `JsString.TrimIdempotent` | index.js:103 | a general fact about `trim`: trimming its result again changes nothing |
| `JsString.StartsWith` | index.js:108 | `startsWith`: the text's first characters are the pattern |
| `JsString.IndexOf` | index.js:109 | a reported index is at or after the start and the pattern occurs there |
| `JsString.IndexOfFirst` | index.js:109 | whenever the pattern occurs at some index, the search reports an index no later than it |
| `JsString.ReplaceFirst` | index.js:109 | `replace` with a string pattern removes the pattern from the front of a text that starts with it |
| `JsString.ReplaceAbsent` | index.js:109 | replacing a pattern that occurs nowhere returns the text unchanged |
| `JsString.ReplaceFirstOccurrence` | index.js:109 | only the first occurrence of the pattern is replaced |
| `Commands.Parse` | index.js:103-136 | a recognised command has a non-empty trimmed id; the 使用 branch is taken exactly when the trimmed text starts with 使用; help is the answer exactly when the trimmed text starts with neither prefix |
| `Commands.TrimCommandText` | index.js:103 | trimming `使用 A1` with whitespace around it leaves the prefix, the gap and the id |
| `Commands.StripPrefix` | index.js:109 | removing the prefix and trimming the rest yields the id |
| `Commands.StripBarePrefix` | index.js:109-110 | a prefix followed only by whitespace leaves an empty id |
| `Commands.UseCommandParses` | index.js:103-109 | `使用` followed by a trimmed non-empty id, with any whitespace around it, is a registration for that id |
| `Commands.PickupCommandParses` | index.js:132-133 | `取衣` followed by a trimmed non-empty id, with any whitespace around it, is a release of that id |
| `Commands.MissingIdParses` | index.js:108-136 | a prefix followed only by whitespace is the usage-hint case of that prefix |
| `Commands.SuggestedUseParses` | index.js:143 | the command the no-record reply tells the user to send is read back as a registration for that machine |
| `Commands.SuggestedPickupParses` | index.js:85 | the command the finished push tells the user to send is read back as a release of that machine |
| `Machines.BoundUser` | index.js:57 | the user of the machine's row, or none when there is no row |
| `Machines.PushTo` | index.js:68-73 | at most one push, sent exactly when the bound user is non-null and non-empty, and addressed to that user |
| `Machines.Step` | index.js:56-158 | every event writes only the row of its own id: every other row is present and equal before and after, and no other key appears |
| `Machines.RegisterOverwrites` | index.js:108-128 | Register sets the row to `waiting_start` bound to the sender whatever it held before, adds the key if it was missing, and sends one confirmation reply |
| `Machines.ReleaseAcceptedIff` | index.js:138-158 | Release frees the row (idle, no user) and confirms exactly when the row exists and is bound to the sender, from any status; otherwise the table is unchanged and the reply says no record or not yours |
| `Machines.ReportKeepsBinding` | index.js:56-87 | `started` and `finished` set `running` and `finished_wait`, keep the bound user (none for a new row, which they create), and push at most one message, to the bound user exactly when there is one |
| `Machines.ReportOtherPhaseIgnored` | index.js:60-90 | a report with any other status changes nothing and sends nothing |
| `Machines.FinishedTwiceSameRow` | index.js:74-87 | a second `finished` report leaves the same table and repeats the same push |
| `Machines.RegisterThenRelease` | index.js:114-158 | Register followed by Release from the same user, with no report between, frees the machine |
| `Machines.WashingCycle` | index.js:56-158 | register, started, finished, collect: `waiting_start`, `running` with a push, `finished_wait` with a push, then idle with a confirmation |
| `Machines.StepPreservesWellFormed` | index.js:56-158 | no event produces an idle row with a user, a `waiting_start` row without one, or a row with a user under an id that is empty or untrimmed, when a Register names an id as `Parse` returns it |
| `Machines.IdleMachineNotReleasable` | index.js:147-152 | in a well-formed table an idle machine cannot be released by anyone; the table is unchanged and the reply says not yours |
| `Machines.FinishedPushQuotesPickup` | index.js:82-86 | for a trimmed non-empty id, the finished push quotes `取衣<id>` in corner brackets, and that command releases the same machine |
| `Machines.SentFinishedPushIsCollectable` | index.js:74-86 | every finished push actually sent from a well-formed table quotes a `取衣<id>` that parses back as a release of that machine |
| `Machines.Text` | index.js:71 | the wording of every reply and push, character for character, as sent at index.js:71, 85, 111, 127, 135, 143, 150, 158 and 167-171 |
| `Server.Falsy` | index.js:50 | `!field`: the field is absent or the empty string |
| `Server.CommandOutcome` | index.js:108-172 | whatever the command, including a missing id or unrecognised text, exactly one reply is sent, answering that message, and no push |
| `Server.TextOutcome` | index.js:100-173 | a text message gets exactly one reply, on its own token; a text that starts with neither prefix once trimmed leaves the table unchanged |
| `Server.ReportOutcome` | index.js:46-95 | the report is rejected exactly when `machine_id` or `status` is missing or empty, and a rejected report changes nothing and sends nothing |
| `Server.ReportPreservesWellFormed` | index.js:46-95 | every report, rejected, applied or ignored, keeps the table well formed |
| `Server.IsText` | index.js:32 | the event is a message whose message is text, the one kind the webhook handles |
| `Server.EventOutcome` | index.js:32-38 | a text event gets exactly one reply on its token; any other event changes nothing and sends nothing |
| `Server.Deliver` | index.js:31-39 | a batch of events sends at most one message per event, and only replies, never pushes |
| `Server.EmptyIdOnlyHints` | index.js:108-136 | a prefix followed only by whitespace changes no row and sends only that prefix's usage hint |
| `Server.UnrecognisedTextOnlyHelps` | index.js:166-172 | a text that starts with neither prefix once trimmed changes no row and sends only the help text |
| `Server.UseTextRegisters` | index.js:108-128 | `使用<id>` with any whitespace binds the sender to that machine whatever its row held, and confirms |
| `Server.PickupTextReleases` | index.js:132-158 | `取衣<id>` with any whitespace frees the machine only for its bound user; anyone else is rejected and the table is unchanged |
| `Server.OtherUserCannotCollect` | index.js:147-152 | a user other than the bound one sending `取衣<id>` is told it is not theirs, and the table is unchanged |
| `Server.DeliverLeavesOtherRows` | index.js:31-39 | a row that no command in the webhook batch names is unchanged by the whole batch |
| `Server.DeliverPreservesWellFormed` | index.js:31-39 | every batch of webhook events keeps the table well formed |
| `Server.MachineTable.GetMachine` | index.js:201-216 | returns the row stored under the id, or none when there is no such row |
| `Server.MachineTable.UpsertMachine` | index.js:180-198 | the whole row under the id is replaced or inserted and every other row is kept |
| `Server.MachineTable.UpdateMachineToIdle` | index.js:219-240 | an existing row becomes idle with no user; with no row for the id the table is unchanged |
| `Server.MachineTable.HandleTextMessage` | index.js:100-173 | the new table and the replies sent are those of `TextOutcome`, the parsed command's outcome, on the old table |
| `Server.MachineTable.HandleReport` | index.js:46-95 | the response, the new table and the pushes are those of `ReportOutcome` on the old table |
| `Server.MachineTable.HandleWebhook` | index.js:24-40 | handling the events in order leaves the table and the sent messages of `Deliver` on the old table |

## Left out

- HTTP framing: Express routing, JSON parsing and `app.listen`. The webhook's early 200 acknowledgement is not modelled.
- Calls to the Supabase REST API and to the LINE reply and push APIs. The table is a map and the messages are a returned list. Failures of the LINE calls are swallowed in the source, so every notification counts as sent.
- Store failures: the apology replies of the `try/catch` blocks and the 500 response of `/esp32`.
- `updated_at` timestamps, which come from the clock, and any table columns other than `status` and `current_user`.
- Concurrency: requests interleaving between the read and the write of a row. The model handles one event at a time.
- JSON values that are not strings, in the report body or in webhook events. A `null` or absent `events` array counts as an empty one. Every text event is taken to carry a sender `userId`.
- Strings are sequences of Unicode scalar values, not UTF-16 code units. Both prefixes and every whitespace character are single BMP code points, so trimming, prefix tests and replacement give the same results.
- The environment variables, the access tokens and the port.
- JsString.ReplaceFirst: does not expand JavaScript's `$$`, `$&`, `` $` `` and `$'` replacement patterns. The handler only ever replaces with the empty string, for which the result is the same.
