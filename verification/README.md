# RemindMail reminder core in Dafny

RemindMail is a desktop application that stores reminders and emails them at their
scheduled times. Every few seconds a scheduler runs one reconciliation pass,
`checkAndSendReminders`. Each pass does three things:

- it finds every scheduled time that is due and not yet sent;
- it tries to deliver one email for each such time;
- it writes back a store in which delivered times are recorded, past times are
  pruned, and fully sent reminders enter a 24-hour grace period before they are
  purged.

This project models that pass as a pure function, together with the pure pieces
around it:

- preparing a reminder email: the configuration guard, recipients, body, TLS policy
  and HTML body;
- the test-email handler's guards;
- the store's save and delete list logic;
- the email-history merge with its cap of 50;
- the renderer's helpers: next scheduled time, countdown arithmetic, form slots,
  address suggestions, and the new-reminder form validation with its email regex.

Instants are integer milliseconds. Delivery is an oracle: `transport(k)` says
whether the `k`-th attempt of the pass gets through.

Modules:

- `Wrappers`: `Option` and `Result`.
- `Seqs`: subsequences, filtering, appending without duplicates, taking the first
  or last `n`.
- `Text`: JavaScript `trim` (the `\s` set), ASCII `toLowerCase`, `includes`, and
  the address pattern `^[^\s@]+@[^\s@]+\.[^\s@]+$`.
- `Reminders`: the stored reminder and recipient normalisation.
- `Mail`: sending settings, transport configuration, message preparation and the
  test email.
- `Scheduler`: the three phases of the pass and `Tick` itself.
- `TickProperties`: what a tick guarantees for the whole store.
- `Retry`: a corrected pass that retries failed sends (see Findings).
- `History`, `Store`, `Renderer`, `Form`: the handlers and the renderer logic.

Where the code and its comments disagree, the model follows the code:

- A failed send is not retried. The comment at main.js:185 says it will be.
- The `secure` setting is never read. The comments at main.js:317-319 say it is
  respected on ports other than 465 and 587.

Two identical date/time slots in the form store the same instant twice. The pass
then sends two emails for it in one tick (see Findings). The model keeps that
behaviour in `Form.Validate` and `Tick`; `Form.ValidateDistinct` is the corrected
validation.

## Model

| member | source | states |
|---|---|---|
| Scheduler.Tick | main.js:124-269 | An unreadable store aborts the pass, and only then. Otherwise the written store is no longer than the input, and its ids are an order-preserving subsequence of the input ids. How many attempts each entry gets is stated by TickProperties.AttemptsPerEntry. |
| Scheduler.FutureTimes | main.js:150-153 | The kept times are the scheduled times after `now`, as a subsequence in scheduled order. A time is kept iff it is after `now`. |
| Scheduler.FutureTimesCount | main.js:150-153 | Each time after `now` is kept as often as it is scheduled, and no other time is kept. |
| Scheduler.AllFutureKept | main.js:150-153 | When every scheduled time is in the future, pruning keeps the list unchanged. |
| Scheduler.DueUnsent | main.js:137-148 | The times that get an attempt are the scheduled times at or before `now` that are not in `sentTimes`. They form a subsequence in scheduled order. |
| Scheduler.DueUnsentCount | main.js:137-148 | A due, unsent time is listed as often as it is scheduled, and no other time is listed. |
| Scheduler.Jobs | main.js:132-148 | Phase 1 over the whole store, reminder by reminder. It has no contract of its own. TickProperties.JobsAreDueUnsent states that the jobs are exactly the due-unsent entries, JobsInReminderOrder that they come in store order, and AttemptsPerEntry how often each entry occurs. |
| Scheduler.JobsFor | main.js:137-148 | A reminder contributes one job per due-unsent time, in that order. |
| Scheduler.MakeAttempts | main.js:168-187 | The `k`-th job yields the `k`-th attempt. It succeeds exactly when the message can be prepared and the transport delivers. |
| Mail.SendSucceeds | main.js:168-187 | Whether one `sendReminderEmail` call returns without throwing. It has no contract of its own. Scheduler.MakeAttempts states that an attempt succeeds iff Mail.PrepareSend succeeds and the transport delivers. |
| Scheduler.Delivered | main.js:172-173 | A time is in a reminder's delivered set iff a successful attempt for that id and time was made. |
| Scheduler.MergeSent | main.js:219-228 | The old `sentTimes` is a prefix of the result. The appended part has no repeats and holds exactly the delivered due times not already present. They are in order of first occurrence among the due times, so a repeated due time takes its first place. |
| Scheduler.Reconcile | main.js:190-257 | A kept reminder keeps its identity, and its `sentTimes` is the merge. With future times left it is kept with exactly those times. Without them, a kept reminder's schedule is unchanged and its deletion time is the old one or `now + 24h`. |
| Scheduler.UnsentFutureReminderUnchanged | main.js:150-153 | A reminder with nothing sent and every time in the future comes out of reconciliation unchanged. |
| Scheduler.Fates | main.js:191-192 | Phase 3 treats each reminder on its own, position by position. |
| Scheduler.KeptIdsInOrder | main.js:190-257 | Dropping reminders while keeping their ids leaves the kept ids as a subsequence of the input ids. |
| Scheduler.Survivors | main.js:190-257 | The kept reminders are exactly the reconciled ones, with ids in input order. Nothing is dropped iff every reminder is kept. |
| TickProperties.NoFutureTimesFate | main.js:194-215 | A reminder with no future time is decided by its state. Without pending sends it survives while its grace period lasts, or, if no grace period has started, when something was sent. With pending sends it survives iff all were delivered and its grace period, if any, has not elapsed. |
| TickProperties.FailedSendIsDropped | main.js:141-153 | A due time whose send failed is neither scheduled nor recorded as sent afterwards. A reminder with no future time is dropped outright. |
| TickProperties.ScheduledTimesShrink | main.js:231-233 | A kept reminder's schedule is a subsequence of its old schedule. |
| TickProperties.JobsConcat | main.js:132-148 | Collecting jobs over two stores in sequence is collecting over each in turn. |
| TickProperties.JobsInReminderOrder | main.js:132-148 | Reminder `i`'s jobs form one block. It comes after all jobs of earlier reminders and before all jobs of later ones. |
| TickProperties.JobsAreDueUnsent | main.js:137-148 | Every job is a due-unsent time of some reminder, and every due-unsent time is a job. |
| TickProperties.AttemptsAreDueUnsent | main.js:137-148 | The attempts correspond exactly to the due-unsent entries: each attempt is one, and each entry is attempted. |
| TickProperties.AttemptsPerEntry | main.js:137-148 | With unique ids, the (reminder, time) entry of reminder `i` is attempted as often as the time occurs in its schedule when it is due and unsent, and never otherwise. |
| TickProperties.AtMostOneAttempt | main.js:137-148 | When no schedule repeats a time, no (reminder, time) entry is attempted twice in one tick. |
| TickProperties.SchedulesStayDistinct | main.js:190-257 | A tick keeps ids unique and keeps schedules free of repeats. |
| TickProperties.NoDoubleSend | main.js:142 | No attempt is made for a time already in `sentTimes` or still in the future. |
| TickProperties.KeptAsReconciled | main.js:190-257 | A reminder id appears in the written store iff phase 3 keeps it, and then it appears exactly as reconciled. |
| TickProperties.OutputComesFromInput | main.js:190-257 | No reminder is created. Each written reminder has the id, title, description, recipients and creation time of an input reminder. |
| TickProperties.SurvivorById | main.js:190-257 | With unique ids, an input reminder appears in the rebuilt store iff phase 3 keeps it, and only as phase 3 made it. |
| TickProperties.SentTimesAppendOnly | main.js:219-228 | For every kept reminder, the old `sentTimes` is a prefix of the new one. The appended entries are, without repeats, exactly its due-unsent times with a successful attempt in this pass. |
| TickProperties.SomeAttemptIff | main.js:168 | Some attempt is made iff some reminder has a due-unsent time. |
| TickProperties.SurvivorsShrinkOnlyByDropping | main.js:190-257 | If the store shrinks, some input id is missing from it. |
| TickProperties.SurvivorsKeepEveryId | main.js:190-257 | If the store keeps its length, every input id is still present. |
| TickProperties.SurvivorsShrinkIff | main.js:190-257 | The store shrinks iff some input id is missing from it. |
| TickProperties.SomeDroppedIff | main.js:263 | The written store is shorter than the input iff some reminder was dropped. |
| TickProperties.NotifyIff | main.js:262-265 | "reminders-updated" is sent iff some attempt was made or some reminder was dropped. Entering a grace period alone sends nothing. |
| TickProperties.FutureTimesKeepReminder | main.js:230-233 | A reminder with a future time always survives. Its schedule becomes exactly its future times, and its deletion time is unchanged. |
| TickProperties.DeletionTimeNeverOverwritten | main.js:240-243 | A deletion time, once set, is never changed. |
| TickProperties.GracePeriodPurge | main.js:197-204 | A reminder with a deletion time and no pending work is kept iff the deletion time is after `now`. |
| TickProperties.FullySentEntersGracePeriod | main.js:234-255 | A reminder with no future time and pending sends survives iff every pending send was delivered and its grace period has not elapsed. A first-time survivor gets deletion time `now + 24h`. |
| TickProperties.FailedSendIsForgotten | main.js:141-153 | A due time whose attempt failed ends up neither scheduled nor sent for that reminder, so the obligation is lost. |
| TickProperties.ForgottenStaysForgotten | main.js:137-148 | A forgotten time is never attempted again and stays forgotten, whatever the clock, settings and transport do. |
| TickProperties.LostSendScenario | main.js:137-255 | Concrete case: a reminder due once at 1000, checked at 2000, whose send fails. One failed attempt is made, the reminder is dropped, and the renderer is notified. |
| TickProperties.DuplicateSlotScenario | main.js:137-255 | Concrete case: a reminder scheduled twice at 1000, checked at 2000, with a working transport. Two successful attempts are made for the same time. The time is recorded once and the grace period starts. |
| Retry.Owed | main.js:185 | The corrected pass still owes the scheduled times that are in the future or due but not delivered. |
| Retry.ReconcileRetrying | main.js:185 | While something is owed, the corrected pass keeps the reminder, with the owed times scheduled and the merged `sentTimes`. |
| Retry.AgreesWhenAllDelivered | main.js:219-255 | When every due send succeeds, the corrected pass equals the pass in main.js. |
| Retry.FailedSendStaysOwed | main.js:185 | In the corrected pass, a failed due send stays scheduled and unsent, and is due again at any later tick. |
| Retry.RetriedSendIsRecorded | main.js:185 | In the corrected pass, a send that fails once and succeeds on a later tick ends up in `sentTimes`, and the reminder is kept. |
| Reminders.Recipients | main.js:296-299 | Recipients are exactly `emails` when it is non-empty. Otherwise they are exactly the legacy `email` when it is set and non-empty, and none when it is not. |
| Reminders.Body | main.js:305-306 | The body is the description when it is set and non-empty, otherwise the title. |
| Reminders.Ids | main.js:190-257 | The id list used to state that phase 3 keeps reminders in order: one entry per reminder, position by position. |
| Mail.TransportSecurity | main.js:313-324 | `secure` iff port 465, `requireTLS` iff port 587, never both. |
| Mail.SecureFlagIgnored | main.js:317-324 | The configured `secure` flag changes nothing on any port. On port 25 with the flag set, the connection is not implicit TLS. |
| Mail.IntendedSecurity | main.js:317-319 | The corrected policy. Other ports use the configured flag without `requireTLS`; ports 465 and 587 are as in the code; never both. |
| Mail.ConfigFor | main.js:320-337 | The transport uses the configured host and port and the port policy. User and password are trimmed. The TLS minimum is `TLSv1.2` and certificates are not checked. The connection, greeting and socket timeouts are 15000, 10000 and 20000 ms. |
| Mail.LineBreaksToHtml | main.js:346 | The HTML body has no newline left. Text without a newline is unchanged, and nothing gets shorter. |
| Mail.LineBreaksConcat | main.js:346 | The replacement works piece by piece: converting a concatenation converts each part. |
| Mail.LineBreakPieces | main.js:346 | A newline becomes `<br>` and any other character stays itself. With LineBreaksConcat this fixes the output of every string. |
| Mail.Configured | main.js:290 | The guard of `sendReminderEmail`: email, password, host and port all set and truthy. It has no contract of its own. Mail.PrepareSend and Mail.TestEmail state that failing it fails first, with the not-configured error. |
| Mail.Join | main.js:343 | `recipients.join(', ')` for the `to` header. It has no contract of its own; Mail.JoinHoldsEach states what it keeps. |
| Mail.JoinHoldsEach | main.js:343 | Every recipient occurs in the joined `to` header, and a single recipient is the whole header. |
| Mail.PrepareSend | main.js:286-347 | A missing email, password, host or port fails first, then an empty recipient list. Otherwise the message is from the account to the joined recipients. Its subject is the title, its text is the body and its HTML is the body in a paragraph with `<br>` line breaks. |
| Mail.TestEmail | main.js:524-591 | Checks in order: the configuration guard, then a missing address, then the verification. Success iff all pass and delivery succeeds. The test message has the fixed subject and text. |
| History.Normalize | main.js:493 | `email.trim().toLowerCase()`. It has no contract of its own; History.NormalizeShape and History.NormalizeIdempotent state its properties. |
| History.NormalizeShape | main.js:493-494 | A normalized address is empty exactly when the address is all whitespace, which is when the `if (trimmedEmail …)` test skips it. It has no ASCII capital. |
| History.NormalizeIdempotent | main.js:493 | Trimming and lower-casing an entry twice is the same as once. |
| History.NormalizeAll | main.js:493 | Each added address is normalized on its own, position by position. |
| History.NewEntries | main.js:491-497 | The candidates are exactly the non-blank trimmed, lower-cased added entries. |
| History.MergeUncapped | main.js:490-497 | Earlier history is a prefix. Appended entries are exactly the candidates not already present, without repeats, and duplicates are never introduced. They are in order of first occurrence among the normalized added addresses, so a repeated or case-variant address takes its first place. |
| Seqs.AppendMissing | main.js:492-497 | The `includes`/`push` loop. The old list is a prefix, and the appended part is, without repeats, exactly the new elements not already present. |
| Seqs.AppendMissingOrder | main.js:492-497 | The loop appends in order of first occurrence in the added list. |
| History.AddToHistory | main.js:482-510 | The result has at most 50 entries and is the last (up to) 50 of the uncapped merge. |
| History.NewEntriesAreClean | main.js:493-494 | Every appended entry is trimmed, lower-cased and non-blank. |
| History.MergeKeepsClean | main.js:490-497 | Merging into a clean history keeps it clean. |
| History.AddPreservesWellFormed | main.js:482-510 | A history of clean, distinct entries stays so after an addition. |
| History.NewestAddressKept | main.js:490-502 | A new, non-blank address is always in the capped history, as its last entry. |
| Store.NewReminder | main.js:380-387 | A saved reminder carries the draft's fields, the given id and creation time, and an empty `sentTimes`. |
| Store.SaveReminder | main.js:376-396 | Saving appends the new reminder and leaves the existing ones as they were. |
| Store.DeleteReminder | main.js:399-409 | Deleting keeps exactly the reminders with another id, in order. |
| Store.SaveKeepsIdsUnique | main.js:380-389 | Saving under a fresh id keeps ids unique. |
| Store.DeleteKeepsIdsUnique | main.js:402 | Deleting keeps ids unique. |
| Store.SubseqUnique | main.js:402 | Any subsequence of a store with unique ids has unique ids. |
| Store.SaveThenDelete | main.js:376-409 | Deleting a just-saved reminder restores the store. |
| Text.IsSpace | app.jsx:548-558 | The ECMAScript whitespace and line-terminator set, which `trim()` strips and `\s` matches. It has no contract of its own; Text.Trim and Text.EmailTestMatchesPattern state how it is used. |
| Text.Trim | app.jsx:548 | The trimmed string is a block of the input with only whitespace before and after it. It has no whitespace at either end, and it is empty iff the input is all whitespace. |
| Text.TrimIdempotent | app.jsx:548 | Trimming twice is trimming once. |
| Text.Lower | app.jsx:500 | Lower-casing keeps the length and maps each character. |
| Text.LowerIdempotent | app.jsx:500 | Lower-casing twice is lower-casing once. |
| Text.Contains | app.jsx:500 | `includes` holds iff the needle occurs at some position. |
| Text.IndexOf | app.jsx:558 | The first position of a character, or -1 iff it is absent. |
| Text.IsEmailAddress | app.jsx:558-559 | The address test, computed by splitting at the first `@`. It has no contract of its own; Text.EmailTestMatchesPattern states that it is the regular expression. |
| Text.EmailTestMatchesPattern | app.jsx:558-559 | The computed address test accepts exactly the strings the regular expression matches. |
| Renderer.NextScheduledTime | app.jsx:139-151 | None iff no scheduled time is after `now`. Otherwise it is a scheduled time after `now` and no later than any other. |
| Renderer.CountdownOf | app.jsx:274-277 | For a positive remainder: minutes and seconds are below 60, and the time shown is the remainder rounded down to the second. |
| Renderer.AddSlot | app.jsx:466-468 | One empty slot is appended and the others are kept. |
| Renderer.RemoveSlot | app.jsx:470-490 | The last slot is never removed and an out-of-range index changes nothing. Otherwise exactly slot `i` goes and the rest keep their order. |
| Renderer.SlotsNeverEmpty | app.jsx:466-490 | No sequence of adds and removes empties a slot list that starts non-empty. |
| Renderer.TakeOfSubseq | app.jsx:503 | The first `n` of a subsequence of the history are a subsequence of it. |
| Renderer.Suggestions | app.jsx:497-509 | At most 5 suggestions, forming a subsequence of the history. Each contains the typed text case-insensitively and differs from it. A blank text yields none. They are the first matching entries. |
| Form.CheckAll | app.jsx:546-584 | Slots are checked in order. Success iff every slot passes, giving one result per slot. Otherwise the first failing slot is reported. |
| Form.ContainsChar | app.jsx:553 | `includes` of a one-character string is membership. |
| Form.PrecheckRedundant | app.jsx:553-561 | Any address the regular expression accepts contains '@' and '.'. |
| Form.EmailTestIsPattern | app.jsx:553-561 | The form's two-step address test is exactly the regular expression. |
| Form.CheckEmail | app.jsx:548-563 | An address slot passes iff its trimmed text is non-blank and matches the pattern, and then yields that text. A blank slot is reported as missing. |
| Form.CheckEmails | app.jsx:546-565 | Every address slot is valid iff the check passes, giving one trimmed, valid address per slot. Otherwise the first bad slot is reported. |
| Form.CheckTime | app.jsx:570-583 | A time slot passes iff both fields are filled, they parse, and the instant is after `now`. Each failure is reported as its own kind. |
| Form.CheckTimes | app.jsx:567-585 | Every time slot is valid iff the check passes, giving one future instant per slot. Otherwise the first bad slot is reported. |
| Form.StoredDescription | app.jsx:594 | The stored description is absent iff the trimmed text is blank, and otherwise is the trimmed text. |
| Form.Validate | app.jsx:536-598 | Title first, then address slots in order, then time slots in order; the first failure wins. On success the title is trimmed and non-blank. The description is trimmed, or absent when blank. Addresses are trimmed and valid, one per slot, and times are after `now`, one per slot. |
| Form.Submit | app.jsx:536-598 | A rejected form yields its error. An accepted one yields the validated draft and the history with its addresses merged. |
| Form.SavedReminderWaits | app.jsx:578-581 | A reminder saved from an accepted form comes out of a check at the submission instant unchanged. |
| Form.FittingDraftWaits | app.jsx:570-583 | A reminder saved from any draft whose times are all after the submission instant is left unchanged by a check at or before that instant. |
| Form.DuplicateSlotsKept | app.jsx:567-584 | Two identical slots of an accepted form give the same instant twice, so the stored schedule repeats a time. |
| Form.DistinctTimes | app.jsx:567-584 | The corrected time list has no repeats and holds the same instants. They are in order of first occurrence among the slots. |
| Form.DistinctTimesKeepsFirst | app.jsx:567-584 | Concrete case: instants 1, 2, 1 give 1, 2, so a repeated instant keeps its first place. |
| Form.ValidateDistinct | app.jsx:536-598 | The corrected validation fails exactly when `Validate` fails, with the same error. On success, title, description and addresses are the same, the times are the same instants without repeats, and all are after `now`. |
| Form.DistinctSlotsSendOnce | app.jsx:567-598 | Saving a form accepted by the corrected validation, under a fresh id, keeps ids unique and schedules free of repeats. Then no tick attempts a (reminder, time) entry twice. |
| Form.SubmitKeepsHistoryWellFormed | app.jsx:587-591 | Submitting keeps the address history clean and free of duplicates. |

## Left out

- Electron window and app lifecycle, the IPC bridge in preload.js, and handler registration: framework glue with no logic.
- File reads, file writes and JSON: the store is an in-memory sequence. A file that cannot be read or parsed, or a record whose `scheduledTimes` is not a list, is the `Unreadable` load, which aborts the tick before any attempt.
- A failure writing the store after the attempts: not modelled, because the pass only logs it. The cost is that the delivered times never reach the file, so the next tick sends them again.
- The settings file read inside each send: the settings are a parameter. A failure to read them makes the send fail, which the transport oracle covers.
- nodemailer's `createTransport`, `verify` and `sendMail`: replaced by the oracle, or by the `verified`/`delivered` flags of the test email.
- The interval and timeout triggers and overlapping ticks: the model is one sequential tick.
- Date parsing, time zones, `toISOString` and `toLocaleString`: instants are integers. The form's date and time parse is a parameter. Each instant is assumed to have one string form, so `includes` on time lists is membership.
- The separate `Date.now()` reads in the pass and in the form loop: one `now` stands for all of them.
- Ids from `Date.now()` can collide: `Tick` requires unique ids, because phase 3 looks reminders up by id.
- `Number(smtpPort)` string coercion: the port is an integer, and 0 stands for unset.
- Text.Lower: lower-cases ASCII letters only, because full Unicode case mapping is outside the model.
- The countdown's text formatting and its timed `onDelete`, and the React rendering, hooks, theme handling, `alert` and `confirm`.
- `selectEmailSuggestion`, `updateTimeSlot`, and the get, clear-all, clear-history and save-settings handlers: each is a plain read, write or single assignment with no logic to state.
- The email-error event sent to the window on a failed send: a notification with no effect on the store.

## Findings

| source | as written | input that shows it | evidently intended | confidence | as-written member | corrected member |
|---|---|---|---|---|---|---|
| main.js:141-153, 185, 231-255 | A due time whose send fails is pruned from `scheduledTimes` and never added to `sentTimes`. If no future time is left, the whole reminder is dropped. | A reminder scheduled only at 1000, checked at 2000, with the transport failing: one failed attempt, then the store is empty. | The comment at main.js:185: a failed send is retried on the next scheduler cycle. | not executed | TickProperties.LostSendScenario | Retry.RetriedSendIsRecorded |
| app.jsx:567-584, main.js:137-148 | Identical slots store the same instant twice, and the pass makes one attempt per occurrence. | Two identical slots, giving `scheduledTimes` [1000, 1000], checked at 2000 with a working transport: two emails for one instant. | One email per scheduled instant. | not executed | TickProperties.DuplicateSlotScenario | Form.DistinctSlotsSendOnce |
| main.js:314-324 | `secure` is true only on port 465, whatever the configured `secure` flag says. | Port 25 with `secure: true`: the transport is set up without implicit TLS. | The comment at main.js:319: other ports respect the configured `secure` setting. | not executed | Mail.SecureFlagIgnored | Mail.IntendedSecurity |
