# copperclaw: verified models

Dafny 4.11 models of the stateful and printing cores of copperclaw, with their properties proved
for all inputs, all interleavings and all runs. `dafny verify dfyconfig.toml` checks everything.

## What is modelled

**The CDP transport** (`CdpEvents`, `CdpShared`, `CdpProtocol`, `CdpGuarantees`, `LoadWait`). Any number of
`send` calls, the reader task, per-call timers and the disconnect drain are a state machine whose
steps are the points where the program can be suspended or takes the mutex: take an id, register,
write (well or badly), be handed a reply, expire, withdraw, receive a message, stop, drain, let
time pass. The shared state itself is a class; each of its methods is proved equal to the state
function the machine uses. What a message carries is defined on its members, apart from the code that
looks it up: reply, redirect hop, status, load event and console entry. Ids come from a 64-bit counter that wraps, so results about ids are
stated for runs of at most 2^64 calls, and two lemmas say exactly what happens beyond:
ids are distinct if and only if at most 2^64 were taken, and the "response channel dropped" error is
reachable only past that. A failed write leaves its entry in `pending`; `LeakExactly` says that this
is the one way an entry survives all callers. `LoadWait` takes `wait_for_load` apart in the same way:
look at the flag, ask to be notified, be notified, give up, against a reader that sets the flag and
then notifies.

**The chat client** (`Palette`, `ChatFrames`, `ChatRail`, `ChatHistory`, `ChatMessages`, `ChatBatch`, `Terminal`,
`Rendition`, `ChatShown`, `ChatChips`, `Printing`, `ChatSession`, `ChatSafety`, `ChatBottom`, `ChatPiped`).
Frames of every kind are rendered to styled lines;
`ChatRenderState` keeps the dedupe state of the breadcrumb rail; `ChatPrinter` writes transcript lines above a
repainted bottom line. The terminal interprets the bytes (line feed, carriage return, erase in line
of ECMA-48 section 8.3.41, SGR of section 8.3.117) on finished rows plus one current row, and tags
every cell with who wrote it: transcript, bottom line or the user's typing; `Rendition` reads the colours
as well, and from what it shows every frame can be read back. Over a run of frames
the rail is compared with the history of HUD frames; over a session the screen is compared with the
lines emitted. Four facts of the code show up as exact conditions. The rail tells a new HUD message
from an edit of the last one only by its steps, so it starts over with each message if and only if no
message begins with steps that extend those of the one before. The transcript of a
HUD message is a permutation of a batch rendering of its last frame if and only if that frame shows
every step with the status it was first shown with and every result as it was first shown; a step that
was printed running and is done by now keeps its first marker. A status that contains a line break leaves part of itself behind, since the repaint
clears one row. And handled input draws the bottom line without clearing the row, so a log line that
comes between Enter and the handling makes status and prompt appear twice.

**Argument printers** (`AppleArgs`, `RunArgs`, `TomlInline`, `TomlQuote`, `Decimal`, `Strings`). `--mount`
values, the whole `container run` argv and inline TOML, each with a reader that gives back what was
printed; for the argv also with the order and number of its flags, for TOML also with nulls, which
print as empty strings, and for any quoter that gives each text one of TOML's string styles it fits.

**Orchestrations** (`Browsing`, `Interact`, `Live`, `Outcomes`, `Chromium`). Guard, driver, runtime and
connector are arbitrary functions of everything that has happened so far; a run yields a trace of
events and a result, and the result is explained by the last event. The read-only render re-checks every redirect hop and the interactive session
re-checks the settled URL as well, as in the code. The chromium singleton is a state machine of
uses, deaths, failed starts, reaper turns and a clock; a liveness probe may also fail to tell.

**Config edit, tables, sizes** (`ConfigEdit`, `ConfigConverge`, `ConfigFields`, `Table`, `Disk`, `Cost`). The diff and the
calls it sends, against a host that does what its handlers do to a stored row, values of the wrong
type included, and a transport that may refuse any call; the padded text table; the integer arithmetic of the disk report and of
dollar amounts.

Where the code and its own comments differ the model follows the code:

- The commit loop of the config edit is said to stop on the first failure "so we don't half-update"
  (`crates/copperclaw-cclaw/src/lib.rs:3648`). It does stop, and the calls made before stay applied:
  `ConfigEdit.PerformExactly`, `ConfigConverge.HalfUpdated`.
- `add-mcp-server` receives the server only; the host stores it under the server's own `name`, not
  under the key it has in the edited table. The edit therefore ends with the edited servers exactly
  when the two agree: `ConfigConverge.ServersConverge`.
- The update handler stores null for a value it cannot use in a text column or a count, and reports no
  error: after `model = 5` the commit says "updated" and the model is gone. The fields end as edited
  exactly when every changed one was given a value its column holds: `ConfigConverge.ScalarsConverge`,
  `ConfigFields.Converges`, `ConfigConverge.NumberForModel`.
- The load flag is never cleared, so `wait_for_load` after a second navigation does not wait; and a
  load event that comes between the look at the flag and the request for a notification is missed:
  `LoadWait.LaterCallsReturnAtOnce`, `LoadWait.MissedExactly`.
- A message whose first frame extends the last frame of the message before is taken for an edit of it,
  and none of the steps they share is printed again: `ChatMessages.MessagesToldApart`.
- `free_pct` is said to lie in 0..=100 (`crates/copperclaw-cclaw/src/disk.rs:90`). That holds as long
  as no more is free than there is; `Disk.PctRange` gives the exact condition.
- The singleton is said to own one process. A probe that fails on a live process makes
  `ensure_running` start a second one beside it until the new one answers: `Chromium.OneChromium`.
- A reordered package list is reported as updated, but no call is sent: `ConfigFields.AptAlone`,
  `ConfigConverge.ReorderSendsNothing`.
- Enter is said to have moved the cursor past the old bottom line when the input is handled
  (`crates/copperclaw-cclaw/src/lib.rs:937`). A log line handled in between has drawn a new one:
  `ChatBottom.TidyExactly`.

## Model

| member | source | states |
|---|---|---|
| CdpEvents.PushCapped | crates/copperclaw-browser/src/cdp.rs:162-170 | a push onto a buffer within its cap leaves the last `cap` items of the buffer and the new one; an overfull buffer loses its oldest item to the new one; with a zero cap the buffer stays as it is |
| CdpEvents.HopsOfStream | crates/copperclaw-browser/src/cdp.rs:522-535 | the hops computed from the recorded request events are a projection of the raw message stream: main-document requests with a redirect response, in order |
| CdpEvents.StatusOfStream | crates/copperclaw-browser/src/cdp.rs:539-549 | the main status is the first main-document response of the stream whose status fits a u16 |
| CdpEvents.HopExactly | crates/copperclaw-browser/src/cdp.rs:522-535 | a message is a hop to a URL if and only if it is an event `Network.requestWillBeSent` whose params have type `Document`, a `redirectResponse` and that URL in their request |
| CdpEvents.StatusExactly | crates/copperclaw-browser/src/cdp.rs:539-549 | a message has a status if and only if it is an event `Network.responseReceived` of a `Document` whose response has that number, below 65536 |
| CdpEvents.LoadExactly | crates/copperclaw-browser/src/cdp.rs:917-920 | the load event is an event named `Page.loadEventFired` without an id |
| CdpEvents.ConsoleExactly | crates/copperclaw-browser/src/cdp.rs:96-157 | a message yields a console entry if and only if it is one of the three console events and level and text are those of its members: values before descriptions, the exception's description before its text, and the defaults where there is none |
| CdpShared.Shared.Insert | crates/copperclaw-browser/src/cdp.rs:945-957 | registering a caller changes only its id's entry and reports the sender it displaces, if any |
| CdpShared.Shared.Withdraw | crates/copperclaw-browser/src/cdp.rs:958-970 | a timed-out caller removes its own id and nothing else |
| CdpShared.Shared.Dispatch | crates/copperclaw-browser/src/cdp.rs:889-940 | a message with a pending id takes that caller out of `pending` and sends it what the message carries: its result, an empty object without one, or an error with its text or the default, which wins over a result; any other message sends nothing, and one without an id leaves `pending` alone |
| CdpShared.ReplyExactly | crates/copperclaw-browser/src/cdp.rs:893-901 | the reply computed is the one the message's members carry, and no other |
| CdpShared.Shared.RecordEvent | crates/copperclaw-browser/src/cdp.rs:906-940 | an event goes to the record of its kind, the console record stays capped, the load flag is never cleared |
| CdpShared.Shared.Drain | crates/copperclaw-browser/src/cdp.rs:867-873 | the drain empties `pending` and visits every registered id exactly once, in whatever order |
| CdpShared.DispatchObserves | crates/copperclaw-browser/src/cdp.rs:906-940 | if the records are projections of the messages so far, they are projections of the messages after one more |
| CdpProtocol.StepInv | crates/copperclaw-browser/src/cdp.rs:853-971 | every atomic step keeps the invariant: pending entries are exactly the in-flight calls, every channel value is justified by a message or the drain, logged ids are distinct |
| CdpProtocol.Reachable | crates/copperclaw-browser/src/cdp.rs:853-971 | the invariant holds in every state of every interleaving of at most 2^64 calls |
| CdpProtocol.Correlation | crates/copperclaw-browser/src/cdp.rs:887-904 | a call that ended with a response was told what the first message after its registration with its own id carries; it was told that the socket closed only if there was no such message |
| CdpProtocol.ExpiresUnanswered | crates/copperclaw-browser/src/cdp.rs:958-970 | a call gives up no earlier than its timeout after its write, and only while no message with its id has come since it registered |
| CdpProtocol.ResolvedOnce | crates/copperclaw-browser/src/cdp.rs:887-904 | no id is resolved twice and no caller receives two values |
| CdpProtocol.PendingExactly | crates/copperclaw-browser/src/cdp.rs:945-971 | an id maps to a caller in `pending` if and only if that caller holds the id and is in flight: registered, waiting, timed out but not cleaned up, or write-failed and unanswered |
| CdpProtocol.LeakExactly | crates/copperclaw-browser/src/cdp.rs:945-957 | once every caller has returned, `pending` is empty if and only if no failed write is still unanswered |
| CdpProtocol.DrainStrandsNobody | crates/copperclaw-browser/src/cdp.rs:867-873 | the drain hands the disconnect error to every registered unanswered caller, touches no other, and empties `pending` |
| CdpProtocol.DrainResolves | crates/copperclaw-browser/src/cdp.rs:867-873 | the calls the drain changes are exactly the in-flight ones |
| CdpGuarantees.Projections | crates/copperclaw-browser/src/cdp.rs:982-994 | at any point of any interleaving hops, main status, console entries and the load flag are projections of the whole inbound stream |
| CdpGuarantees.EndsInTime | crates/copperclaw-browser/src/cdp.rs:958-970 | on an executor at most `lag` late in firing timers and running the tasks they wake, every call that returned did so within `call_timeout` + `lag` of its completed write, and no call still waiting or cleaning up is later than that |
| CdpGuarantees.FinishAlone | crates/copperclaw-browser/src/cdp.rs:958-970 | from any reachable state, also after the drain, a waiting call can end by its own steps alone, no later than its deadline, no other call touched; the run stays timely unless its wait would make another call late |
| CdpGuarantees.WaitersEnd | crates/copperclaw-browser/src/cdp.rs:958-970 | no timely run is ever stuck: for every lag it goes on, timely, without the reader and without a new call, past any later moment, and by then every call that was waiting has ended within `call_timeout` + `lag` of its write |
| CdpGuarantees.FailedWriteLeaks | crates/copperclaw-browser/src/cdp.rs:945-957 | one failed write is a run after which every caller has returned and `pending` is not empty |
| CdpGuarantees.IdsDistinctIff | crates/copperclaw-browser/src/cdp.rs:945-950 | ids are pairwise distinct if and only if at most 2^64 calls were made |
| CdpGuarantees.NeverDropped | crates/copperclaw-browser/src/cdp.rs:958-970 | within the id space no call ends with the "response channel dropped" error |
| CdpGuarantees.DroppedBeyondIdSpace | crates/copperclaw-browser/src/cdp.rs:945-970 | beyond it one does: a run is given in which a wrapped id displaces a waiting sender |
| LoadWait.EarlyExactly | crates/copperclaw-browser/src/cdp.rs:973-980 | a call that has returned did so at once if and only if the flag was set before it looked, because it was told if and only if a notification came between its asking for one and its giving up, and by its timeout otherwise |
| LoadWait.MissedExactly | crates/copperclaw-browser/src/cdp.rs:917-920 | a call gives up on a page that has loaded if and only if a load event was dispatched between its look at the flag and its asking, or the reader is just about to notify |
| LoadWait.LoadMissed | crates/copperclaw-browser/src/cdp.rs:973-980 | such a run for every timeout: the call waits all of it out on a loaded page |
| LoadWait.LaterCallsReturnAtOnce | crates/copperclaw-browser/src/cdp.rs:974-976 | once a load event has been dispatched every later call returns at once, also after another navigation |
| LoadWait.ReturnsInTime | crates/copperclaw-browser/src/cdp.rs:973-980 | on an executor at most `lag` late, a call that gives up does so after its whole timeout and at most two lags later; a call that is told returns no later than three lags after its timeout, and one that sees the flag at once |
| LoadWait.GivesUpAfterTimeout | crates/copperclaw-browser/src/cdp.rs:977-979 | a call gives up only once its whole timeout has passed since it asked to be told |
| LoadWait.CallsReturn | crates/copperclaw-browser/src/cdp.rs:973-980 | every timely run goes on, timely, without the reader, past any moment, and by then every call has returned in time |
| Palette.StripLine | crates/copperclaw-cclaw/src/style.rs:77-83 | erasing the SGR codes of any coloured line of ESC-free text gives the plain line |
| Rendition.LineSeen | crates/copperclaw-cclaw/src/style.rs:77-83 | a terminal shows every character of a coloured ESC-free line in the style of its own span: no style is lost, swapped or left on |
| ChatShown.StepReadsBack | crates/copperclaw-cclaw/src/lib.rs:1207-1222 | from what a terminal shows of a step line its status, tool and detail can be read back, whatever they are |
| ChatShown.ResultReadsBack | crates/copperclaw-cclaw/src/lib.rs:1226-1234 | a result line shows the leader and the whole summary, red if the step failed and dimmed if not |
| ChatShown.FrameShown | crates/copperclaw-cclaw/src/lib.rs:1172-1205 | every frame of another kind shows all it holds: text line by line, card fields, hunks with their numbers and signed, coloured lines, checkboxes with their blocking reasons, error kinds, placeholders and notes |
| ChatFrames.PlainFrameClean | crates/copperclaw-cclaw/src/lib.rs:1327-1424 | card, todo, diff, error and thinking lines add no ESC and no CR of their own |
| ChatRail.ChatRenderState.RenderChip | crates/copperclaw-cclaw/src/lib.rs:1247-1273 | a single chip prints the pieces its state calls for and remembers its key and status |
| ChatChips.ChipsOnce | crates/copperclaw-cclaw/src/lib.rs:1247-1273 | over any run of frames: a chip prints nothing if and only if the chip before it was the same use in the same state; if that one was running it prints exactly one result line with the summary or how it ended; otherwise one step line, with a result line if and only if it has ended and has a summary |
| ChatChips.EventShown | crates/copperclaw-cclaw/src/lib.rs:1285-1310 | every line of the rail shows the step it stands for or the result under it |
| ChatChips.FrameRendered | crates/copperclaw-cclaw/src/lib.rs:1172-1205 | rendering any other frame in any state shows what the frame holds |
| ChatChips.LogLineKinds | crates/copperclaw-cclaw/src/lib.rs:1157-1169 | a log line without its line end prints nothing if empty, its frame if it starts with a brace and parses, and itself otherwise |
| ChatRail.ChatRenderState.PrintLate | crates/copperclaw-cclaw/src/lib.rs:1282-1294 | a kept step whose summary has appeared since gets its result line once; keys stay |
| ChatRail.ChatRenderState.PrintNew | crates/copperclaw-cclaw/src/lib.rs:1295-1313 | each step not yet shown is printed in order, its result right after it if there is one |
| ChatRail.ChatRenderState.RenderBreadcrumb | crates/copperclaw-cclaw/src/lib.rs:1243-1324 | lines, next state and status-changed flag of a breadcrumb frame in any state, reset included |
| ChatRail.ChatRenderState.Render | crates/copperclaw-cclaw/src/lib.rs:1172-1203 | lines and next state for every kind of frame |
| ChatRail.ChatRenderState.RenderLine | crates/copperclaw-cclaw/src/lib.rs:1157-1169 | a log line is rendered as its frame, or verbatim when it does not parse |
| ChatRail.ColouredEqualsPlain | crates/copperclaw-cclaw/src/lib.rs:1157-1424 | for every log line and state the coloured lines with SGR erased are the plain lines; the next state does not depend on the palette |
| ChatHistory.RailExactlyOnce | crates/copperclaw-cclaw/src/lib.rs:1243-1324 | over any run of frames: since the last reset exactly one step line for each step of the HUD message, as first seen, and exactly one result for each step that ever had a summary, bearing the first one |
| ChatMessages.ResetsExactly | crates/copperclaw-cclaw/src/lib.rs:1243-1324 | the rail starts over exactly when a HUD frame does not extend the HUD frame before it |
| ChatMessages.MessagesToldApart | crates/copperclaw-cclaw/src/lib.rs:1243-1324 | for any frames of any messages: the rail starts over with exactly the frames that start a message, if and only if every edit extends what it edits and no new message extends the last frame of another |
| ChatMessages.MessageExactlyOnce | crates/copperclaw-cclaw/src/lib.rs:1243-1324 | then every step of the last message was printed exactly once since it began, as first seen, and every result exactly once |
| ChatMessages.MergedIsSilent | crates/copperclaw-cclaw/src/lib.rs:1243-1324 | a message whose first frame extends the last one of another prints none of those steps again |
| ChatMessages.TwoMessagesAlike | crates/copperclaw-cclaw/src/lib.rs:1243-1324 | two messages that each run one tool the same way: the second prints nothing |
| ChatHistory.StepsInOrder | crates/copperclaw-cclaw/src/lib.rs:1274-1313 | the step lines since the last reset are numbered 0, 1, 2, … in print order, as many as the rail is long |
| ChatBatch.IncrementalEqualsBatch | crates/copperclaw-cclaw/src/lib.rs:1274-1324 | for one HUD message and either palette, the step and result lines printed are a permutation of a batch rendering of the last frame if and only if that frame shows every step with the status it was first shown with and every result as first shown |
| ChatBatch.SamePositions | crates/copperclaw-cclaw/src/lib.rs:1274-1324 | they are about the same steps and results, whatever their text, if and only if the last frame withdraws no summary |
| ChatBatch.RunningThenDone | crates/copperclaw-cclaw/src/lib.rs:1274-1324 | a step first shown running and then done is such a message whose lines differ |
| ChatBatch.SummaryWithdrawn | crates/copperclaw-cclaw/src/lib.rs:1274-1324 | a summary taken back is such a message whose results differ |
| ChatHistory.RepeatIsSilent | crates/copperclaw-cclaw/src/lib.rs:1243-1324 | rendering a breadcrumb frame again prints nothing and changes nothing |
| ChatHistory.OtherFrame | crates/copperclaw-cclaw/src/lib.rs:1172-1203 | a frame that is no HUD aggregate prints no rail line and leaves the rail and the status alone |
| ChatHistory.StatusTracksHud | crates/copperclaw-cclaw/src/lib.rs:1314-1324 | the status changes reported over a run are the HUD status texts without immediate repetitions |
| Terminal.WriteRepaint | crates/copperclaw-cclaw/src/style.rs:156-158 | CR plus erase-in-line empties the current row and touches no finished row |
| Terminal.WriteStyled | crates/copperclaw-cclaw/src/style.rs:77-83 | a coloured line leaves the same cells as the plain one |
| Terminal.RowsGrow | crates/copperclaw-cclaw/src/lib.rs:1083-1151 | no sequence of writes changes a finished row |
| Printing.ChatPrinter.ClearBottom | crates/copperclaw-cclaw/src/lib.rs:1094-1099 | erases the bottom line once if it is up, on a live terminal only |
| Printing.ChatPrinter.DrawBottom | crates/copperclaw-cclaw/src/lib.rs:1104-1115 | writes status and prompt to their own sinks, on a live terminal only |
| Printing.ChatPrinter.Emit | crates/copperclaw-cclaw/src/lib.rs:1126-1141 | writes clear, lines, off-terminal status and bottom line in this order, or nothing when there is nothing to say |
| Printing.PromptOnStderr | crates/copperclaw-cclaw/src/lib.rs:1104-1115 | on a terminal an emit ends with the prompt on stderr, and everything before it goes to stdout |
| Printing.ChatPrinter.InputConsumed | crates/copperclaw-cclaw/src/lib.rs:1119-1121 | forgets the bottom line that the user's Enter scrolled away |
| Printing.ChatPrinter.Finish | crates/copperclaw-cclaw/src/lib.rs:1144-1151 | leaves no bottom line behind |
| Printing.DisplayGrows | crates/copperclaw-cclaw/src/lib.rs:1083-1151 | whatever the printer writes, finished rows stay as they are |
| ChatSafety.SessionSafe | crates/copperclaw-cclaw/src/lib.rs:929-957 | over every interleaving of log lines, keystrokes, Enter and input handling: no row mixes transcript and bottom line, the transcript rows are exactly the rows of the lines emitted, the last painted status is the current one, and a bottom row is left behind if and only if some painted status has a line break |
| ChatSafety.NothingErased | crates/copperclaw-cclaw/src/lib.rs:929-957 | the finished rows at any point are a prefix of the finished rows at any later point |
| ChatBottom.BottomShown | crates/copperclaw-cclaw/src/lib.rs:1083-1151 | right after an emit the current row is the status and the prompt and nothing else |
| ChatBottom.StatusLeftBehind | crates/copperclaw-cclaw/src/lib.rs:1083-1151 | a session whose one status has two lines leaves a row of the bottom line behind |
| ChatBottom.RowShown | crates/copperclaw-cclaw/src/lib.rs:929-957 | over every interleaving, as long as statuses have no control characters, the current row holds exactly what repaints, keys, Enter and redraws put on it since it was last cleared |
| ChatBottom.TidyExactly | crates/copperclaw-cclaw/src/lib.rs:929-957 | the row is the current status and the prompt once, followed by what was typed since, if and only if a log line repainted it or a redraw found it empty, and no Enter has come since |
| ChatBottom.PromptTwice | crates/copperclaw-cclaw/src/lib.rs:929-957 | a log line between Enter and the handling of the input is a session at whose end the screen's row shows two prompts |
| ChatSafety.PrintableRow | crates/copperclaw-cclaw/src/lib.rs:1126-1141 | a printable line becomes one row holding exactly its text |
| ChatPiped.ReplayLine | crates/copperclaw-cclaw/src/lib.rs:985-988 | one turn of the loop renders one log line and writes exactly what it calls for, on either palette |
| ChatPiped.Replay | crates/copperclaw-cclaw/src/lib.rs:966-1000 | on either palette the writes of the replay loop are those of the log line by line and the final clearing of the bottom line; with styling off there is nothing but transcript lines and changed statuses |
| ChatPiped.LogState | crates/copperclaw-cclaw/src/lib.rs:1157-1169 | the state after a log is the state after the frames it holds |
| ChatPiped.StatusPrintedOnce | crates/copperclaw-cclaw/src/lib.rs:1123-1141 | with styling off each status change is printed exactly once |
| ChatPiped.TranscriptIsPlainLines | crates/copperclaw-cclaw/src/lib.rs:1123-1141 | with styling off the transcript writes are exactly the plain lines of the log, each followed by a line feed |
| ChatPiped.PipedIsPlain | crates/copperclaw-cclaw/src/lib.rs:1070-1141 | with styling off everything goes to stdout, and for each of ESC and CR: if the frames' text has none, none is written |
| AppleArgs.ValidateMountPath | crates/copperclaw-container-rt/src/apple.rs:309-318 | succeeds if and only if the path has no comma, equals sign or newline; otherwise names one it has, in that order of preference |
| AppleArgs.MountArg | crates/copperclaw-container-rt/src/apple.rs:325-364 | succeeds if and only if every path and name of the mount is clean; a failure names the first that is not, by its role, and a forbidden character in it |
| AppleArgs.MountRoundTrip | crates/copperclaw-container-rt/src/apple.rs:325-364 | a reader that splits at commas and equals signs recovers kind, paths, read-only flag and tmpfs size |
| RunArgs.CollectLabels | crates/copperclaw-container-rt/src/apple.rs:266-273 | collecting the labels into an ordered map yields their sorted keys |
| RunArgs.OrderIrrelevant | crates/copperclaw-container-rt/src/apple.rs:266-273 | two iteration orders of the same label map give the same key order, hence the same argv |
| RunArgs.RunArgs | crates/copperclaw-container-rt/src/apple.rs:253-300 | succeeds if and only if every mount is clean, and then builds the argv group by group |
| RunArgs.RunInOrder | crates/copperclaw-container-rt/src/apple.rs:248-300 | every argv is `run`, the flags in their fixed order, each with exactly the values the spec has for it, `--detach` exactly once, labels in key order, then image and entrypoint |
| RunArgs.RunRoundTrip | crates/copperclaw-container-rt/src/apple.rs:253-300 | a left-to-right flag reader recovers the whole spec if and only if label and env keys have no equals sign, host names no colon, and the image is not itself one of the flags |
| RunArgs.LabelKeyCut | crates/copperclaw-container-rt/src/apple.rs:271-273 | a label key with an equals sign is a spec that is not read back |
| RunArgs.ReaderReadable | crates/copperclaw-container-rt/src/apple.rs:253-300 | whatever the reader recovers from any argv is such a spec |
| TomlInline.TomlStringArray | crates/copperclaw-cclaw/src/lib.rs:3892-3901 | a list of strings prints as the inline array of its strings |
| TomlInline.ReadsBack | crates/copperclaw-cclaw/src/lib.rs:3916-3935 | every plain value is read back from its text by a reader of inline TOML, in any context a value can be followed by, given a reader for the quoted strings |
| TomlInline.NullsReadBack | crates/copperclaw-cclaw/src/lib.rs:3916-3935 | with nulls, the value read back is the one printed with an empty string for every null |
| TomlInline.Unambiguous | crates/copperclaw-cclaw/src/lib.rs:3916-3935 | with a quoter whose texts end recognisably before anything that can follow a value, equal texts in any such context come from equal values, at any nesting |
| TomlInline.InlineInjective | crates/copperclaw-cclaw/src/lib.rs:3916-3935 | values without nulls and with bare keys print alike if and only if they are equal |
| TomlQuote.StyledUnquotes | crates/copperclaw-cclaw/src/lib.rs:3887-3890 | a reader of TOML strings gives back every text quoted in any TOML string style it fits, one-line or multi-line, basic or literal, escapes undone |
| TomlQuote.StyledDelimits | crates/copperclaw-cclaw/src/lib.rs:3887-3890 | so every such quoter is one the results on values ask for |
| TomlQuote.MixedDelimits | crates/copperclaw-cclaw/src/lib.rs:3887-3890 | one that mixes all five styles and writes the empty string as two quotes, as the results on nulls ask |
| TomlQuote.BasicQuoteDelimits | crates/copperclaw-cclaw/src/lib.rs:3887-3890 | always quoting as a basic string is such a quoter |
| TomlInline.BareKeysNeeded | crates/copperclaw-cclaw/src/lib.rs:3926-3934 | without bare keys it is false: one object imitates another |
| TomlInline.InlineWithNulls | crates/copperclaw-cclaw/src/lib.rs:3916-3935 | with nulls, two values print alike if and only if they are equal once every null is the empty string |
| TomlInline.NullsCollide | crates/copperclaw-cclaw/src/lib.rs:3916-3920 | so a null and an empty string are different values with one text |
| Browsing.CheckHopsTrace | crates/copperclaw-browser/src/driver.rs:98-105 | the hops are checked in order up to and including the first rejected one, which becomes the error |
| Browsing.GuardHops | crates/copperclaw-browser/src/interactive.rs:305-312 | the loop over the hops does exactly that |
| Interact.Validate | crates/copperclaw-browser/src/interactive.rs:184-203 | accepts exactly the well-formed requests |
| Interact.RequestLimits | crates/copperclaw-browser/src/interactive.rs:184-203 | well-formed means a URL that is not blank, 1 to 32 actions, no blank selector, at most 8192 bytes typed and finite scroll deltas |
| Interact.ReguardNavigation | crates/copperclaw-browser/src/interactive.rs:295-314 | checks the settled URL, then every hop, and stops at the first rejection |
| Interact.InteractOnce | crates/copperclaw-browser/src/interactive.rs:235-290 | an invalid request touches nothing; a valid one runs the session, whatever guard and driver do |
| Interact.DriverOnlyOnClear | crates/copperclaw-browser/src/interactive.rs:235-314 | for every guard and driver: whenever the driver moves or the artifact is read, the request's URL and, for every navigation reported so far, its settled URL and every hop have been checked since and accepted, and nothing was rejected |
| Interact.SessionCounts | crates/copperclaw-browser/src/interactive.rs:235-290 | the actions performed are a prefix of the script; a session succeeds if and only if it ends in a read, and then ran the whole script, made 2 + n target checks and reports the last navigation |
| Live.Render | crates/copperclaw-browser/src/driver.rs:74-119 | an empty URL touches nothing; otherwise check, render, re-check the hops |
| Live.RenderOkExactly | crates/copperclaw-browser/src/driver.rs:74-119 | a read-only render succeeds if and only if its trace is an accepted target check, the render and an accepted check of every hop it reported; it reports that navigation |
| Live.RenderLive | crates/copperclaw-browser/src/live.rs:68-114 | the live render is check, spawn, inner run, teardown, with every early return |
| Live.RenderAfterSpawn | crates/copperclaw-browser/src/live.rs:118-154 | what runs inside the container, with every early return |
| Live.InteractLive | crates/copperclaw-browser/src/live.rs:166-206 | the same lifecycle around an interactive session |
| Live.InteractAfterSpawn | crates/copperclaw-browser/src/live.rs:210-240 | what runs inside the container, with every early return |
| Live.RenderLiveBalanced | crates/copperclaw-browser/src/live.rs:68-114 | no spawn before an accepted check of the URL; the spawned container, and only a spawned one, is removed exactly once, last; all address, connect and driver events lie strictly between |
| Live.InteractLiveBalanced | crates/copperclaw-browser/src/live.rs:166-206 | the same for the interactive path |
| Live.TeardownCannotFail | crates/copperclaw-browser/src/live.rs:104-114 | the caller's result and everything before the teardown do not depend on what the teardown returns |
| Live.InteractLiveSafe | crates/copperclaw-browser/src/live.rs:166-240 | also inside the container the driver moves only on accepted navigations |
| Outcomes.SessionResult | crates/copperclaw-browser/src/interactive.rs:235-290 | a session returns the artifact of its read under the last navigation reported, or the very error the guard or the driver gave for the event its trace ends with |
| Outcomes.RenderResult | crates/copperclaw-browser/src/driver.rs:74-119 | the read-only render returns the artifact the driver rendered, or the error of the event its trace ends with |
| Outcomes.LiveResult | crates/copperclaw-browser/src/live.rs:80-240 | a container run returns the guard's refusal, the spawn's, address's or connection's failure, or what was made of the connected driver |
| Outcomes.RenderConnects | crates/copperclaw-browser/src/live.rs:118-154 | a read-only container run only ever connects to its own child's port at the address just resolved for it |
| Outcomes.InteractConnects | crates/copperclaw-browser/src/live.rs:205-240 | so does an interactive one |
| Chromium.ChromiumSingleton.EnsureRunning | crates/copperclaw-browser/src/incontainer.rs:485-503 | a live process is reused and its last use refreshed; otherwise a child is started under the mutex, or the state stays as it was |
| Chromium.ChromiumSingleton.FinishStart | crates/copperclaw-browser/src/incontainer.rs:504-515 | a ready child replaces and drops the old one; a child that does not answer is dropped |
| Chromium.ChromiumSingleton.StartReaperOnce | crates/copperclaw-browser/src/incontainer.rs:519-522 | the first caller starts the reaper, later ones do not |
| Chromium.ChromiumSingleton.ReaperTurn | crates/copperclaw-browser/src/incontainer.rs:523-543 | an idle process is killed and forgotten, any other is left alone |
| Chromium.OneChromium | crates/copperclaw-browser/src/incontainer.rs:485-515 | over all runs at most one browser is ever alive if and only if no probe failed on a live process just before a successful spawn |
| Chromium.TwoAlive | crates/copperclaw-browser/src/incontainer.rs:485-515 | a first use and a probe that cannot tell about the live process is a run that ends with two |
| Chromium.Ownership | crates/copperclaw-browser/src/incontainer.rs:454-544 | whatever the probes say: never more than two, at most one while the mutex is free and it is the one on record, at most one reaper, and one is running whenever a browser is on record and its callers have gone on |
| Chromium.NeverReapedEarly | crates/copperclaw-browser/src/incontainer.rs:434-436 | a process killed by the reaper was last handed out at least IDLE_TIMEOUT ago |
| Chromium.GoneInTime | crates/copperclaw-browser/src/incontainer.rs:519-544 | if the reaper is never kept from its turn for more than `gap`, a process is dead within IDLE_TIMEOUT + `gap` of its last use; `gap` = REAP_INTERVAL is the promised bound |
| Chromium.ReapTimes | crates/copperclaw-browser/src/incontainer.rs:434-436 | with a reaper that is never late a process is reaped no earlier than five minutes after its last use and is dead five and a half minutes after it |
| Chromium.NobodyLeft | crates/copperclaw-browser/src/incontainer.rs:519-544 | however a prompt run goes on without another use, once IDLE_TIMEOUT + `gap` have gone by and no start-up is under way, no browser is alive |
| Chromium.EndsQuietly | crates/copperclaw-browser/src/incontainer.rs:519-544 | for every `gap` of at least REAP_INTERVAL every prompt run goes on promptly past any such moment, with no browser alive at its end |
| Chromium.TooShortAGap | crates/copperclaw-browser/src/incontainer.rs:519-544 | for a smaller `gap` no prompt run can: once the reaper runs, its clock stops within `gap` |
| ConfigEdit.DiffScalars | crates/copperclaw-cclaw/src/lib.rs:3577-3589 | the loop yields the updates of the changed fields |
| ConfigEdit.UpdatePackages | crates/copperclaw-cclaw/src/lib.rs:3764-3808 | removes, then adds, stopping at the first refused call |
| ConfigEdit.UpdateServers | crates/copperclaw-cclaw/src/lib.rs:3714-3762 | the same for servers, in whatever order the objects hold their keys; a non-object counts as empty |
| ConfigEdit.CommitEdit | crates/copperclaw-cclaw/src/lib.rs:3572-3704 | no change and dry run send nothing; otherwise the plan of the diff is sent and the outcome is success if and only if every call was accepted |
| ConfigEdit.PerformExactly | crates/copperclaw-cclaw/src/lib.rs:3648-3692 | either the whole plan is applied, or exactly the calls before the failing one are, and nothing after it is sent |
| ConfigConverge.HalfUpdated | crates/copperclaw-cclaw/src/lib.rs:3648-3664 | a refused second update leaves the first one on the host |
| ConfigConverge.ScalarsInOrder | crates/copperclaw-cclaw/src/lib.rs:3577-3589 | one update for each field whose value changed, in field order |
| ConfigConverge.NoPackageCalls | crates/copperclaw-cclaw/src/lib.rs:3764-3808 | no package call is sent if and only if both lists hold the same set |
| ConfigConverge.ReorderSendsNothing | crates/copperclaw-cclaw/src/lib.rs:3764-3808 | a list that was only reordered or repeated sends no call, whether or not it counts as edited |
| ConfigConverge.PackagesMerge | crates/copperclaw-cclaw/src/lib.rs:3764-3808 | against any host list: what the edit dropped goes, what it brought comes, the rest stays; duplicates included |
| ConfigConverge.ServersConverge | crates/copperclaw-host/src/handlers/groups.rs:348-401 | a host that held the old servers ends with the new ones if and only if each new or changed server is listed under its own name |
| ConfigConverge.MisnamedServer | crates/copperclaw-host/src/handlers/groups.rs:348-386 | a server listed under another key than its name is an accepted plan that ends with other servers |
| ConfigConverge.ScalarsConverge | crates/copperclaw-host/src/handlers/groups.rs:138-237 | after accepted updates each changed field holds what the handler stores for it and every other field what it held; the fields are as edited if and only if each changed one was given a value its column holds: text or null, a u32 or null, a profile or null, a boolean |
| ConfigConverge.NumberForModel | crates/copperclaw-host/src/handlers/groups.rs:154-157 | `model = 5` is an edit whose commit succeeds and leaves the model null |
| ConfigFields.AcceptedExactly | crates/copperclaw-host/src/handlers/groups.rs:138-386 | the handlers accept a whole plan if and only if they take the value of each changed field and each new or changed server has a name that is not reserved |
| ConfigFields.Converges | crates/copperclaw-cclaw/src/lib.rs:3572-3692 | with every call accepted by a host that mirrored the old table: `apt` holds the list at `packages_apt` and `npm` that at `packages_npm`, each of the eight editable fields is as edited if and only if each changed one was given a value it can hold, the servers are those at `mcp_servers` if and only if each sent one is listed under its own name; parts absent from the edit and all other fields stay |
| ConfigFields.CommitConverges | crates/copperclaw-cclaw/src/lib.rs:3648-3692 | the same for any transport whenever the commit reports no failure |
| ConfigFields.FieldAlone | crates/copperclaw-cclaw/src/lib.rs:3577-3589 | an edit of one editable field sends that field with its new value, and reports it |
| ConfigFields.AptAlone | crates/copperclaw-cclaw/src/lib.rs:3599-3607 | an edit of `packages_apt` sends exactly the apt packages it adds and drops, and reports that field if and only if the list reads differently |
| ConfigFields.NpmAlone | crates/copperclaw-cclaw/src/lib.rs:3608-3616 | an edit of `packages_npm` sends exactly the npm packages it adds and drops, and reports that field if and only if the list reads differently |
| ConfigFields.ServersAlone | crates/copperclaw-cclaw/src/lib.rs:3590-3598 | an edit of `mcp_servers` sends exactly the new and changed servers and the names of the vanished ones, and reports that field |
| Table.WriteRow | crates/copperclaw-cclaw/src/output.rs:120-135 | the nested loops append the padded row and a line end |
| Table.WriteSeparator | crates/copperclaw-cclaw/src/output.rs:137-147 | the separator is the row whose every cell fills its column with dashes |
| Table.Measure | crates/copperclaw-cclaw/src/output.rs:97-104 | the widths are the least that hold every header in bytes and every cell in characters |
| Table.FormatTable | crates/copperclaw-cclaw/src/output.rs:92-118 | styled header, separator and rows under least widths; nothing without columns |
| Table.TableAligned | crates/copperclaw-cclaw/src/output.rs:92-147 | in header, separator and every row cell i stands at the sum over j < i of (width j + 2) with blanks around it, nothing follows the last cell, and the separator spans exactly all columns |
| Table.TableLines | crates/copperclaw-cclaw/src/output.rs:92-147 | for headers and cells without a line break, the lines of the printed table are the styled header, the separator and the rows in order, each ended by a line feed |
| Table.WithinSeparator | crates/copperclaw-cclaw/src/output.rs:120-147 | no row is longer than the separator |
| Table.HeaderShown | crates/copperclaw-cclaw/src/output.rs:107-113 | trimming leaves the header row intact if and only if the last header does not end in a line break |
| Table.Columns | crates/copperclaw-cclaw/src/output.rs:46-56 | the columns are the keys of all objects, each once, in the order of first appearance in the objects |
| Table.ColumnsExactly | crates/copperclaw-cclaw/src/output.rs:46-56 | a key is a column if and only if some object has it, once, and of two columns the one that appears in an earlier object, or earlier in it, comes first |
| Table.CellExactly | crates/copperclaw-cclaw/src/output.rs:57-66 | a cell says the value under its key: text as it is, numbers and truth values readable as such, nothing for a null or a missing key |
| Table.FirstAtFirst | crates/copperclaw-cclaw/src/output.rs:46-56 | the place of a key is where it is first met, and exists if and only if it is met at all |
| Table.RenderTable | crates/copperclaw-cclaw/src/output.rs:42-69 | no objects print `(empty)`; otherwise the table has a column for each key of any object, one met earlier standing further left, a header for each, and a row for each object whose cells say what the object has under the key, or nothing |
| Disk.LevelMonotone | crates/copperclaw-cclaw/src/disk.rs:56-67 | more free space never makes the level worse |
| Disk.PctAgrees | crates/copperclaw-cclaw/src/disk.rs:59-60 | for a non-empty disk the percent test below n agrees with the floored percentage shown |
| Disk.LevelExactly | crates/copperclaw-cclaw/src/disk.rs:56-67 | the alarm is raised if and only if less than 5 GiB or less than 3 percent as shown are free, and all is well if and only if at least 20 GiB and 10 percent are |
| Disk.PctRange | crates/copperclaw-cclaw/src/disk.rs:93-99 | the exact condition under which the percentage is at most 100 |
| Disk.PctAbove | crates/copperclaw-cclaw/src/disk.rs:93-99 | 200 bytes free of 100 show 200 percent |
| Disk.HumanBytes | crates/copperclaw-cclaw/src/disk.rs:73-87 | picks the largest unit not above the size, without overflowing a u64 |
| Disk.SizeReadsBack | crates/copperclaw-cclaw/src/disk.rs:73-87 | a printed size reads back to its tenths of the unit it names, or to its exact bytes |
| Disk.TenthsNear | crates/copperclaw-cclaw/src/disk.rs:84-86 | the tenths shown are within half a tenth of the size and between 1.0 and 1024.0 below TiB |
| Disk.SizesOrdered | crates/copperclaw-cclaw/src/disk.rs:73-87 | a larger size never shows a smaller unit, nor fewer tenths of the same one |
| Disk.AlikeNear | crates/copperclaw-cclaw/src/disk.rs:73-87 | two sizes printed alike are equal below a KiB, and otherwise within a tenth of their common unit |
| Cost.RoundsHalfUp | crates/copperclaw-cclaw/src/lib.rs:302-305 | cents are rounded half up for every u64, the saturating end included |
| Cost.CostReadsBack | crates/copperclaw-cclaw/src/lib.rs:302-305 | the dollar text reads back to exactly those cents |
| Cost.PrintedAlike | crates/copperclaw-cclaw/src/lib.rs:302-305 | two amounts printed alike are less than a cent apart |

## Left out

- WebSocket, HTTP, Docker, process and file I/O, base64, metrics and tracing: nondeterministic outcomes or dropped.
- Cancelling a `send` from outside, and a `send` that waits for the sink lock before its write: the model's write step is the completed write.
- serde_json, whole TOML documents and the `toml` crate's choice of a string style: frames and values are datatypes, parsers and quoters are parameters.
- Printing of floating-point numbers: a float is the text it prints as.
- Upper-casing of table headers: any function of the key.
- Line wrapping on narrow terminals, double-width characters and the typed input that a repaint erases: the code clears one row and promises nothing about them.
- Tab, backspace and other line-editing keys: a keystroke that is not Enter is echoed as one cell.
- Echo of a keystroke in the middle of one `emit`: an emit is one event.
- Frame text that itself contains ESC: the palette and terminal results ask for ESC-free text.
- The file tailing, FIFO and start-up messages of `cclaw chat`, and card buttons, which the renderer ignores.
- The second, two-column table (`render_kv`): the same `format_table` with fixed headers.
- A call that fails after the host applied it: a refused call changes nothing on the host.
- The syntax of an IP address: a `preview_bind` that is not one is a refusal of the transport.
- The editor session, its retry loop and the TOML buffer of the config edit.
- Killing a process takes no time: dropping a child removes it at once.
- Command tree, egress presets, capture parameters, container spec builder and socket framing: flat mappings.
- Doctor, status, health and dashboard composites: one-branch classifiers.
- JavaScript built for click, type and scroll: page behaviour is not visible.
- ConfigEdit.UpdateServers: the order of its calls is some order of the keys, since object equality ignores order.
- Chromium.GoneInTime: asks that a served caller starts the reaper before time passes, as nothing is awaited in between.
- Table.TableAligned: offsets count characters from the start of the row's text; a cell with a line break goes on in the next screen row.
