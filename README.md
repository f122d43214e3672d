# WhatsApp auto-reply bot — a Dafny model

`whatsapp_auto_reply.py` drives WhatsApp Web through Selenium. Each cycle it
scans the chat list for unread badges and finds the chat row of each badge.
It derives an id for every such chat. For each chat not yet processed, it
opens the chat and reads the contact name and the last incoming message. It
asks the Gemini CLI for a short reply, with a sanitised prompt, and types the
reply into the compose box. Processed ids are kept in a set that is cleared
every 60 cycles. A WebDriver error whose message mentions a disconnection
ends the loop. Only an error raised while reading a chat row's attributes
reaches that test: the scan and the processing of a chat catch every error
of their own, so a lost browser seen there leaves the loop running.
`Monitor.LostBrowserRunNeverStops` states this.

This project models that core in Dafny:

- `driver.dfy` (module `Driver`) holds the browser as an oracle. A `Page`
  answers `find_element`, `find_elements`, `.text` and `get_attribute`, and
  gives the DOM as a parent map. Python exceptions are values
  (`Outcome = Returned | Raised`).
- `selectors.dfy` (module `Selectors`) holds the `SELECTORS` table, keyed by a
  datatype with one constructor per key, the ranked
  fallback `_try_find_element` / `_try_find_elements`, and the bounded wait
  `_wait_for_any`.
- `scanner.dfy` (module `Scanner`) models `find_new_messages`: the badge scan,
  the relative row selectors and the 10-level JavaScript ancestor walk.
- `extractor.dfy` (module `Extractor`) models `read_last_message` and
  `get_contact_name`.
- `reply.dfy` (module `ReplyGenerator`) models `generate_reply`: sanitising,
  the prompt, the shell command, ANSI stripping and the classification of the
  CLI's result.
- `injector.dfy` (module `Injector`) models `send_reply` as the sequence of key
  events it types.
- `processor.dfy` (module `Processor`) models `process_chat`.
- `monitor.dfy` (module `Monitor`) models `main`:
  - the chat-id chain;
  - the processed set and the cycle counter, as the class `ChatMonitor`
    updated in place;
  - the classification of errors and the exit on disconnection;
  - `wait_for_login`.
- `text.dfy` (module `Text`) holds the Python string operations the core
  uses: `strip`, `split("\n")`, slicing, `lower` and `in`.
- `wrappers.dfy` (module `Wrappers`) holds `Option`.

## Model

| member | source | states |
|---|---|---|
| `Text.Strip` | whatsapp_auto_reply.py:427 | the result is the input with a whitespace prefix and a whitespace suffix cut off (Python's `isspace` set), every character in between kept in order; it has no outer whitespace; it is empty exactly when the input is all whitespace; a string without outer whitespace is unchanged |
| `Text.StripUnique` | whatsapp_auto_reply.py:427 | any slice between a whitespace prefix and a whitespace suffix that has no outer whitespace, and is empty only for an all-whitespace input, is the stripped string: the contract of `Strip` determines `str.strip()` |
| `Text.StripIdempotent` | whatsapp_auto_reply.py:560-562 | stripping twice is stripping once, so the second `strip` of the reply only matters after ANSI removal |
| `Text.Count` | whatsapp_auto_reply.py:623 | the count of a character is at most the length, and zero exactly when the character is absent |
| `Text.CountConcat` | whatsapp_auto_reply.py:623 | counting distributes over concatenation |
| `Text.Split` | whatsapp_auto_reply.py:623 | `split("\n")` gives at least one piece and no piece holds a newline |
| `Text.JoinSplit` | whatsapp_auto_reply.py:623 | joining the pieces with newlines gives back the text |
| `Text.SplitCount` | whatsapp_auto_reply.py:623 | there is one more piece than there are newlines |
| `Text.FirstLine` | whatsapp_auto_reply.py:726 | the first line is a newline-free prefix of the text, ended by the first newline or by the end of the text |
| `Text.FirstLineIsFirstPiece` | whatsapp_auto_reply.py:726 | `split("\n")[0]` is the first line |
| `Text.Take` | whatsapp_auto_reply.py:726 | `s[:n]` is the prefix of `s` of length `min(len(s), n)` |
| `Text.Preview` | whatsapp_auto_reply.py:430 | a log preview is the text itself when short, else its first `n` characters and `...`, never longer than `n + 3` |
| `Text.Lower` | whatsapp_auto_reply.py:755 | lowering keeps the length and maps each character on its own |
| `Text.LowerIdempotent` | whatsapp_auto_reply.py:755 | lowering twice is lowering once |
| `Text.Contains` | whatsapp_auto_reply.py:755 | `w in s` holds exactly when `w` occurs at some position of `s` |
| `Selectors.Selector` | whatsapp_auto_reply.py:77-183 | one locator per key of the `SELECTORS` table, so every key the code passes has an entry; the key lists give the rank order of each call |
| `Selectors.Resolve` | whatsapp_auto_reply.py:208-216 | the ranked fallback as a value: the first strategy that does not skip (one that finds nothing or raises a swallowed error skips) decides; its meaning is stated by the `Resolve*` lemmas below |
| `Selectors.FirstElement` | whatsapp_auto_reply.py:203-216 | `_try_find_element` as a value, the fallback over the key list; stated by `FirstElementEscapes` and implemented by `TryFindElement` |
| `Selectors.FirstElements` | whatsapp_auto_reply.py:219-232 | `_try_find_elements` as a value; stated by `FirstElementsFromFirstHit` and implemented by `TryFindElements` |
| `Selectors.Await` | whatsapp_auto_reply.py:235-246 | `_wait_for_any` as a value, the fallback over the polls; stated by `AwaitTimesOut` and `AwaitEscapes` and implemented by `WaitForAny` |
| `Selectors.ResolveFirstDecides` | whatsapp_auto_reply.py:208-216 | the first strategy that does not skip decides the search |
| `Selectors.ResolveNothing` | whatsapp_auto_reply.py:208-216 | the search gives `None` exactly when every strategy skips |
| `Selectors.ResolveHit` | whatsapp_auto_reply.py:208-216 | the search finds `v` exactly when some strategy finds `v` and every earlier one skips |
| `Selectors.ResolveRaised` | whatsapp_auto_reply.py:208-216 | the search raises `e` exactly when some strategy raises `e` and every earlier one skips |
| `Selectors.FirstNonSkip` | whatsapp_auto_reply.py:208-216 | a search that does not give `None` has a first deciding strategy |
| `Selectors.FirstElementEscapes` | whatsapp_auto_reply.py:214 | an error that escapes the fallback is never a missing element or a stale element |
| `Selectors.FirstElementsFromFirstHit` | whatsapp_auto_reply.py:219-232 | the list search gives `[]` exactly when no strategy gives a non-empty list; a non-empty result is the first non-empty list |
| `Selectors.TryFindElement` | whatsapp_auto_reply.py:203-216 | the loop returns what the ranked fallback over the keys decides |
| `Selectors.TryFindElements` | whatsapp_auto_reply.py:219-232 | the loop returns the first non-empty list, `[]` when there is none, or the escaping error |
| `Selectors.AwaitTimesOut` | whatsapp_auto_reply.py:235-246 | the wait gives `None` exactly when every poll found nothing |
| `Selectors.AwaitEscapes` | whatsapp_auto_reply.py:235-246 | an error that ends the wait is never one the fallback swallows |
| `Selectors.WaitForAny` | whatsapp_auto_reply.py:235-246 | the polling loop returns the first poll's element, the first escaping error, or `None` after the last poll |
| `Scanner.AncestorWalk` | whatsapp_auto_reply.py:349-360 | the JavaScript walk up at most 10 parents to the first chat row; stated by `WalkNothing` and `WalkNearest` |
| `Scanner.RowOf` | whatsapp_auto_reply.py:336-376 | the row of one badge: a relative row selector, else the ancestor walk, else none; an error drops the badge |
| `Scanner.Rows` | whatsapp_auto_reply.py:336-376 | the rows of the badges in badge order; stated by `RowsConcat`, `RowsSnoc`, `RowsMembers` |
| `Scanner.Ancestor` | whatsapp_auto_reply.py:349-360 | the `k`-th ancestor, when there is one, is a node of the page |
| `Scanner.WalkNothing` | whatsapp_auto_reply.py:349-360 | the script returns `null` exactly when none of the first 10 ancestors is a chat row |
| `Scanner.WalkNearest` | whatsapp_auto_reply.py:349-360 | the script returns `r` exactly when `r` is the nearest chat-row ancestor within 10 levels |
| `Scanner.RowsConcat` | whatsapp_auto_reply.py:336-376 | the rows of a concatenation of badges are the rows of each part in order |
| `Scanner.RowsSnoc` | whatsapp_auto_reply.py:336-376 | one more badge adds its row, if it has one, at the end |
| `Scanner.RowsMembers` | whatsapp_auto_reply.py:336-376 | a row is in the result exactly when some badge resolves to it; there are never more rows than badges |
| `Scanner.RowsFrom` | whatsapp_auto_reply.py:336-376 | every reported row is the row of some badge |
| `Scanner.RowsHas` | whatsapp_auto_reply.py:336-376 | the row of every badge that has one is reported |
| `Scanner.NewMessages` | whatsapp_auto_reply.py:321-389 | `find_new_messages` as a value: the rows of the badges found, `[]` when the badge search raises; implemented by `FindNewMessages` |
| `Scanner.ScanSwallowsErrors` | whatsapp_auto_reply.py:385-389 | an error in the badge query that the fallback lets through, a lost connection included, escapes the fallback but the scan drops it and finds no chat |
| `Scanner.FindNewMessages` | whatsapp_auto_reply.py:321-389 | the scan returns the rows of the badges found, in badge order, and `[]` when no badge is found or the badge search raises |
| `Extractor.LastMessage` | whatsapp_auto_reply.py:392-443 | a message is returned exactly when the panel wait found the panel, the bubble query gave a non-empty list, and the text of the last bubble was read and is not blank; the message is that text stripped, non-empty and without outer whitespace |
| `Extractor.BlankMessageIsNoMessage` | whatsapp_auto_reply.py:429-436 | a last bubble holding only whitespace gives no message |
| `Extractor.ContactName` | whatsapp_auto_reply.py:446-463 | an error escaping the header search escapes, never a stale one; without a header the name is `Contacto`; a header whose stripped text is non-empty gives that text; with a blank text a non-empty `title` gives the title and a missing or empty one `Contacto`; a stale element while reading text or title gives `Contacto` and any other error escapes; a returned name is never empty |
| `ReplyGenerator.SafeConcat` | whatsapp_auto_reply.py:505-511 | joining two safe strings gives a safe string |
| `ReplyGenerator.Blank` | whatsapp_auto_reply.py:502-503 | each double quote, single quote, newline, carriage return, backslash, backtick, `$` and `!` becomes a space, and every other character is kept |
| `ReplyGenerator.Sanitize` | whatsapp_auto_reply.py:502-503 | the result is the blanked input with whitespace cut from its two ends only, every inner character kept in order; it holds no character of the set, has no outer whitespace, is empty exactly when the blanked input is all whitespace, and is no longer than the input |
| `ReplyGenerator.SanitizeFixedPoint` | whatsapp_auto_reply.py:502-503 | a safe, stripped string is left unchanged |
| `ReplyGenerator.SanitizeIdempotent` | whatsapp_auto_reply.py:502-503 | sanitising twice is sanitising once |
| `ReplyGenerator.SanitizeKeepsPercent` | whatsapp_auto_reply.py:502-503 | `%` is not among the characters the sanitiser blanks, so `%PATH%` passes unchanged |
| `ReplyGenerator.SafeConcatAll` | whatsapp_auto_reply.py:506-511 | concatenating safe pieces gives a safe string |
| `ReplyGenerator.PromptTailSafe` | whatsapp_auto_reply.py:507-511 | the fixed Spanish instructions hold no character of the set |
| `ReplyGenerator.Prompt` | whatsapp_auto_reply.py:505-511 | the whole prompt holds no character of the set, whatever the name and message |
| `ReplyGenerator.Command` | whatsapp_auto_reply.py:523 | the shell command `gemini -p "<prompt>"`; stated by `CommandQuoting` and `QuotedOnce` |
| `ReplyGenerator.CommandQuoting` | whatsapp_auto_reply.py:523 | the shell command holds exactly two double quotes: the opening one after `gemini -p ` and the last character, so the prompt is a single argument |
| `ReplyGenerator.QuotedOnce` | whatsapp_auto_reply.py:523 | quoting a safe prompt adds exactly two double quotes |
| `ReplyGenerator.ParamRun` | whatsapp_auto_reply.py:562 | the run of `[0-9;]` characters is maximal |
| `ReplyGenerator.SequenceAt` | whatsapp_auto_reply.py:562 | a match is ESC, `[`, a run of `[0-9;]` and a letter, inside the text; when there is none, no letter follows `ESC [` and any run of parameter characters at the start |
| `ReplyGenerator.StripAnsi` | whatsapp_auto_reply.py:562 | removing escape sequences never lengthens the text |
| `ReplyGenerator.StripAnsiKeepsUnmatched` | whatsapp_auto_reply.py:562 | a character that does not start a match is kept, and the scan goes on after it |
| `ReplyGenerator.StripAnsiKeepsCursorCommand` | whatsapp_auto_reply.py:562 | the private-mode sequence `ESC [ ? 2 5 l` does not fit the pattern and is kept whole |
| `ReplyGenerator.StripAnsiPlainPrefix` | whatsapp_auto_reply.py:562 | text without ESC passes through unchanged in front of the rest |
| `ReplyGenerator.StripAnsiNoEscape` | whatsapp_auto_reply.py:562 | text without ESC is unchanged |
| `ReplyGenerator.ParamRunStops` | whatsapp_auto_reply.py:562 | the parameter run stops at the final letter |
| `ReplyGenerator.StripAnsiSequencePrefix` | whatsapp_auto_reply.py:562 | a leading well-formed sequence is removed whole |
| `ReplyGenerator.StripAnsiRender` | whatsapp_auto_reply.py:562 | text rendered from plain runs and well-formed sequences, with ESC only in the sequences, strips back to its plain runs |
| `ReplyGenerator.StripAnsiNotIdempotent` | whatsapp_auto_reply.py:562 | one pass of the substitution can leave a new sequence behind (`ESC ESC [ m [ m`) |
| `ReplyGenerator.CleanReply` | whatsapp_auto_reply.py:560-562 | the cleaned reply has no outer whitespace |
| `ReplyGenerator.GenerateReply` | whatsapp_auto_reply.py:466-588 | a reply is given exactly when the quoted command completes with return code 0 and its cleaned output is non-empty, and it is that cleaned output, without outer whitespace; a non-zero code, a timeout, a missing command or any other failure gives `None` |
| `Injector.ReplyKeys` | whatsapp_auto_reply.py:623-634 | the keys `send_reply` types for a reply; stated by `ReplyKeysSpec` and `LinesKeysShape` |
| `Injector.TypedConcat` | whatsapp_auto_reply.py:623-631 | the typed texts of a concatenation are those of each part |
| `Injector.OccurrencesConcat` | whatsapp_auto_reply.py:623-631 | key counts add over concatenation |
| `Injector.LinesKeysCounts` | whatsapp_auto_reply.py:623-631 | typing `n` lines types exactly those lines, with a Shift+Enter between consecutive lines and no Enter |
| `Injector.ReplyKeysSpec` | whatsapp_auto_reply.py:623-634 | the typed lines are the reply's lines and join back to the reply; there is one Shift+Enter per newline and exactly one Enter, the last key |
| `Injector.LinesKeysShape` | whatsapp_auto_reply.py:624-628 | line `k` is typed at position `2k` and followed by Shift+Enter unless it is the last |
| `Injector.SendReply` | whatsapp_auto_reply.py:591-641 | the reply is sent exactly when the wait finds the compose box, and then the keys typed are the reply's key sequence; otherwise nothing is typed |
| `Processor.Processed` | whatsapp_auto_reply.py:657-681 | what `process_chat` does with an opened chat, as a value; stated by the `Processed*` lemmas and implemented by `ProcessChat` |
| `Processor.ProcessChat` | whatsapp_auto_reply.py:657-681 | the method's steps end in the outcome `Processed` gives for what the chat shows; it never raises |
| `Processor.ProcessedAborts` | whatsapp_auto_reply.py:660-681 | processing aborts exactly when reading the contact name raises |
| `Processor.ProcessedFindsNoMessage` | whatsapp_auto_reply.py:663-667 | processing stops with no message exactly when the name is read and no message is |
| `Processor.ProcessedNoReply` | whatsapp_auto_reply.py:669-672 | processing ends without a reply exactly when the name and a message are read and the generator gives nothing for them |
| `Processor.ProcessedReplies` | whatsapp_auto_reply.py:669-676 | a reply comes from the name and a non-empty last message and is non-empty; it is typed as its key sequence exactly when the compose box appears, and nothing is typed otherwise |
| `Monitor.ChatId` | whatsapp_auto_reply.py:718-728 | the chat-id chain of one row as a value; stated by `ChatIdPriority` |
| `Monitor.ChatIdPriority` | whatsapp_auto_reply.py:718-728 | an error reading `aria-label` is the outcome, and a non-empty `aria-label` wins; else the same for `data-testid`; else the id is the first line of the text cut to 40 characters, a newline-free prefix of that line; when reading the text raises, the object identity |
| `Monitor.ChatIds` | whatsapp_auto_reply.py:713-728 | one id per chat row, in row order |
| `Monitor.IsDisconnection` | whatsapp_auto_reply.py:754-757 | the test `"disconnected"` or `"not reachable"` in the lowered message; stated by `DisconnectionIgnoresCase` |
| `Monitor.Classify` | whatsapp_auto_reply.py:754-763 | a WebDriver error that passes the test is a disconnection, any other error is logged and the loop goes on; used by `Cycle` and `CycleSpec` |
| `Monitor.ChatLoop` | whatsapp_auto_reply.py:713-742 | the `for` loop over the chat rows as a value; stated by the `ChatLoop*` lemmas and implemented by `HandleChats` |
| `Monitor.DisconnectionIgnoresCase` | whatsapp_auto_reply.py:755 | `disconnected` in any letter case marks a disconnection |
| `Monitor.ChatLoopStep` | whatsapp_auto_reply.py:730-734 | after a row's id is read, an id already processed is skipped and a new one is handed over and recorded |
| `Monitor.ChatLoopStop` | whatsapp_auto_reply.py:739-742 | an error ends the chat loop: quietly for a stale row, handing the error on otherwise |
| `Monitor.ChatLoopNeverRepeats` | whatsapp_auto_reply.py:713-742 | the chat loop hands no id already processed to `process_chat`, none twice, and records every id it hands over |
| `Monitor.ChatLoopCovers` | whatsapp_auto_reply.py:713-742 | every id read before the first error is either already processed or handed over |
| `Monitor.ChatLoopStopsAtError` | whatsapp_auto_reply.py:739-742 | the first error decides how the loop ends: a stale row ends it quietly and any other error escapes; nothing after it is handed over |
| `Monitor.Cycle` | whatsapp_auto_reply.py:708-763 | one iteration of the `while True` loop as a value; stated by `CycleSpec` and implemented by `RunCycle` |
| `Monitor.CycleSpec` | whatsapp_auto_reply.py:708-763 | the counter stays below 60; a completed cycle advances it by one modulo 60 and clears the set exactly when it wraps; a cycle that raised keeps the counter; otherwise the handed-over ids, never already processed and never repeated, join the set |
| `Monitor.StaleRowStillCounts` | whatsapp_auto_reply.py:739-748 | a stale row stops the chat loop but the cycle completes and the counter advances |
| `Monitor.IdleCyclesClear` | whatsapp_auto_reply.py:745-748 | the set is cleared by the counter alone: the cycles left until it wraps empty the set even when no chat is seen |
| `Monitor.Run` | whatsapp_auto_reply.py:708-763 | the `while True` loop over a sequence of cycles, left at a disconnection; stated by `RunStep`, `RunNeverRepeatsInWindow` and `LostBrowserRunNeverStops`, implemented by `Watch` |
| `Monitor.RunNeverRepeatsInWindow` | whatsapp_auto_reply.py:703-763 | between two clears no chat id is processed twice, nor one processed before |
| `Monitor.IdleRunNeverStops` | whatsapp_auto_reply.py:708-763 | cycles that see no unread chat hand nothing over and never leave the loop |
| `Monitor.LostBrowserRunNeverStops` | whatsapp_auto_reply.py:708-763 | when the badge query of every cycle raises, as once the browser is gone, every cycle sees no chat and the loop never stops |
| `Monitor.RunStep` | whatsapp_auto_reply.py:708-763 | one cycle of the monitoring loop either leaves it at a disconnection or passes its state to the rest of the run |
| `Monitor.CycleIds` | whatsapp_auto_reply.py:711-728 | the ids each cycle reads come from that cycle's scan, in order |
| `Monitor.ChatMonitor.constructor` | whatsapp_auto_reply.py:703-705 | the monitor starts with an empty set and a zero counter |
| `Monitor.ChatMonitor.ProcessAndRecord` | whatsapp_auto_reply.py:733-734 | a new chat is processed, then its id is added to the set whatever processing did |
| `Monitor.ChatMonitor.HandleChats` | whatsapp_auto_reply.py:713-742 | the loop over the unread rows hands over the ids `ChatLoop` gives, updates the set in place as it says, and ends with the error it says escapes |
| `Monitor.ChatMonitor.RunCycle` | whatsapp_auto_reply.py:708-763 | one cycle updates the set and counter in place exactly as `Cycle` says |
| `Monitor.ChatMonitor.Watch` | whatsapp_auto_reply.py:708-763 | the monitoring loop runs one cycle per page and leaves at a disconnection, ending in the state `Run` gives |
| `Monitor.WaitForLogin` | whatsapp_auto_reply.py:295-318 | the session is ready exactly when the wait finds the side panel; startup exits with status 1 exactly when no poll found it; startup crashes exactly when the wait raises, with that error, never one the fallback swallows |

## Left out

- Browser setup (`setup_driver`), the Chrome profile, navigation to the web
  app and `driver.quit()` are I/O with no logic to state.
- Sleeps and wall-clock time are left out. Each bounded wait is a sequence of
  page snapshots, one per poll, so the number of polls that fit the timeout is
  a parameter.
- Logging and the log previews are left out. Only the preview arithmetic is
  stated (`Text.Preview`).
- `Processor.ProcessChat` and `Processor.Processed` start after the click
  that opens the chat. When that click raises (lines 651-655), `process_chat`'s
  own handlers catch it (lines 678-681): nothing more happens to that chat and
  `main` still records its id. The model processes every chat as if the click
  succeeded. The `ActionChains` retry and the pauses are left out too.
- `Injector.SendReply`: a click on the compose box that raises (lines 613-617)
  is caught by `send_reply`'s handler (lines 639-641), which returns `False`
  with nothing typed; the model reports every reply whose compose box was
  found as sent and typed. Failures of `send_keys` part-way through typing are
  not modelled either.
- `KeyboardInterrupt` and the `finally` clause of `main` are not modelled:
  there is no user and no signal in the model.
- `Monitor.WaitForLogin` models the result of the wait. The process exit and
  the logging of a fatal error are given as the `Startup` value.
- The Gemini CLI and `subprocess.run` are a function parameter from command
  to result (completed with return code and output, timed out, command not
  found, other failure). The shell's interpretation of the command is not
  modelled; `ReplyGenerator.CommandQuoting` states the quoting it relies on.
- `ReplyGenerator.CommandQuoting` covers a POSIX shell only. With
  `shell=True` on Windows (lines 489-490, 539-540) the command runs under
  `cmd.exe`, which expands `%NAME%` even inside double quotes, and the
  sanitiser keeps `%` (`ReplyGenerator.SanitizeKeepsPercent`). So a message
  holding `%PATH%` can reach the CLI with the variable expanded; the model
  does not exclude that.
- `Text.Lower` lowers ASCII letters only, where Python lowers all of Unicode.
  The two keywords looked for are ASCII without `k` or a final `i`. The only
  non-ASCII characters that lower to ASCII letters are the Kelvin sign (to
  `k`) and the dotted capital I (to `i` followed by a combining dot). So the
  disconnection test gives the same verdict either way.
- The JavaScript ancestor walk raises when the badge is not a node of the page
  snapshot. That stands for a badge detached from the DOM, and the scan skips
  it.
- The `KeyError` that `_try_find_element` and `_try_find_elements` swallow
  cannot arise here: every key is a constructor of `Selectors.Key` and
  `Selectors.Selector` maps each one, so a missing key does not type-check.
- What `process_chat` ended in is not used by `main` (the function returns
  `None` and only logs). `Monitor.ChatMonitor.ProcessAndRecord` calls
  `Processor.ProcessChat` and drops its outcome in the same way.
- XPath and CSS matching are the page oracle's answers. Selector semantics
  are not modelled.
- Each cycle reads its chat ids from the page snapshot of its scan. The DOM
  changes made by opening chats during the cycle are not modelled.
- The error classification uses `str(e)` of a WebDriver exception as its
  message. The `Message: ` prefix Selenium adds cannot complete either
  keyword, so the test is unaffected.
