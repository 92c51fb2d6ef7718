# Verified model of the tmux-remote prompt pipeline and its protocols

tmux-remote lets a phone attach to tmux sessions. Its agent reads the PTY of a
session, recognises prompts on the emulated screen and tells the client about
them; the client shows them in an overlay. This project models that path and the
concurrent and storage protocols around it in Dafny, and proves what they promise.

* **Terminal** (`Bytes`, `Display`, `Vt`, `Tokens`, `ControlLaws`, `Teletype`, `FlatGrid`,
  `TerminalState`): the byte-at-a-time parser on a flat cell buffer equals a batch
  interpreter of whole control sequences on a two-dimensional screen, every control
  function moves, erases and switches what ECMA-48 and xterm say, and plain
  text equals a teletype on an unbounded tape.
* **Prompts** (`Prompt`, `Identity`, `Collision`, `Rules`, `RuleEvaluator`, `Lifecycle`, `Sampling`,
  `PromptLifecycle`, `Detection`, `DetectorLaws`, `PromptDetector`): rule matching, instance ids,
  the present/update/gone machine with its resolve latch, and the detector that
  composes them.
* **Client** (`Framing`, `Overlay`, `PatternEngine`): the framed control stream and
  the timed overlay engine, fed by the very traces the lifecycle emits.
* **JSON** (`Json`, `JsonRoundTrip`, `JsonEscapes`, `JsonNumbers`, `JsonTexts`, `JsonLayout`,
  `JsonPrinter`, `JsonStrings`, `CellList`, `JsonArrays`): the vendored parser and printer with their buffers,
  what they make of RFC 8259 texts, and the intrusive child list.
* **Threads and storage** (`Coap`, `RequestQueue`, `DataStream`, `StreamList`,
  `ActiveStreams`, `KeyMove`): every interleaving of the CoAP handler and of the
  data streams, and the private key move under failures and stops.

State that the source updates in place is a class whose methods are proved against
functions on values; the guarantees over whole runs are lemmas about those functions.

## Where code and design differ

The model follows the code.

* `DESIGN.md:437` gives the absence threshold as 8; the code uses 2.
* `DESIGN.md:550` asks that events do not depend on how the PTY stream is chunked.
  One lifecycle step runs per feed call, so this is false
  (`Detection.ChunkingCanShow`). `Detection.ChunkingIsInvisibleIff` gives the exact
  condition on the stream, from every state of terminal and lifecycle. The terminal state itself never depends on chunking
  (`Tokens.ChunkingIsIrrelevant`).
* `DESIGN.md:415` asks for different ids for semantically different prompts. Ids are
  hashed over fields without separators, so this is false: two menus that the rule
  evaluator finds on two screens share an id, the second is reported as an update of the
  first, and resolving the first withholds the second, against `DESIGN.md:552`
  (`Collision.EvaluatorCollides`). Between prompts whose fields have the same lengths
  and differ only inside four neighbouring bytes, ids are equal if and only if the
  prompts are (`Identity.NearPromptsDecide`); beyond that some collide whatever the hash
  (`Identity.SomePromptsCollide`). `Lifecycle.WithheldIffSharedId` says exactly which
  prompts a resolve withholds.
* Resolving an id while another prompt is active does not keep that id from being
  presented again (`Lifecycle.ResolveSuppressesIff` is an equivalence).
* The overlay can disagree with the agent, and then also ignores the updates of the prompt
  it has refused. It refuses one that returns under its own id within the suppression time
  (`Overlay.HurriedReturnIsLost`), and a different one with the type and text of a prompt
  the user has just answered, such as the same question one row lower
  (`Overlay.RepeatedQuestionIsLost`). `Overlay.FollowsIffUnblocked` says exactly when,
  whatever agent, user and timers do.
* Deinit of the CoAP handler waits for the callbacks past `callback_enter` only. One whose
  delivery is armed or has just begun when deinit finds none can lock the mutex after it is
  destroyed, and no other can (`Coap.OutlivesDeinitIff`).
* RFC 8259 wants four hexadecimal digits behind `\u`. Any other byte among the four is not
  refused: the escape reads as U+0000, and so ends the string (`JsonEscapes.LiteralMeans`,
  whose pieces include such escapes).
* The key move takes its source as a parameter, and a configuration that cannot be
  read counts as "key file". `KeyMove.SafeExactlyWhen` gives the exact condition
  under which no failure can lose the key, and
  `KeyMove.MisreadConfigurationLosesTheKey` a run outside it.
* A one-row terminal does not scroll, so the teletype law needs two rows;
  `Teletype.TapeLawIffTwoRows` is the exact condition.

## Model

| member | source | states |
|---|---|---|
| `Tokens.FeedIsBatch` | agent/src/tmuxremote_terminal_state.c:398-476 | from every parser state, feeding bytes equals tokenising the pending prefix plus the bytes into text, ESC pairs, charset triples and CSI sequences and executing the tokens |
| `Tokens.ChunkingIsIrrelevant` | agent/src/tmuxremote_terminal_state.c:398-476 | any split of a stream into feed calls, mid-escape ones included, ends in the state of one feed of the whole and of the batch interpreter |
| `ControlLaws.ControlFunctions` | agent/src/tmuxremote_terminal_state.c:280-396 | for every final byte, private marker and list of decimal parameters, said of the bytes fed: A to D move up, down, right and left, G, d, H and f go to columns and rows counted from 1 and pulled onto the screen, s saves and u goes back, J, K and X blank exactly their cells, h and l with ?1049, ?1047 or ?47 switch to a blank screen; nothing else changes, and every other final byte changes nothing |
| `ControlLaws.EveryByteTypes` | agent/src/tmuxremote_terminal_state.c:445-473 | what each of the 256 bytes does outside escape sequences, by cell and cursor: carriage return, line feed with its scroll, backspace, tabs at multiples of 8, bytes that are shown with the eager wrap, ESC, and nothing |
| `ControlLaws.CursorPosition` | agent/src/tmuxremote_terminal_state.c:315-322 | ESC [ r ; c H or f leaves the cursor on row r-1 and column c-1, clamped, and everything else alone |
| `ControlLaws.RestoreReturns` | agent/src/tmuxremote_terminal_state.c:360-369 | whatever text without ESC comes between save and restore, the cursor is back, and the cells are those the text alone leaves |
| `ControlLaws.OtherSequencesIgnored` | agent/src/tmuxremote_terminal_state.c:392-394 | every final byte without a meaning is skipped with its parameters, whatever they are |
| `ControlLaws.LongParametersCut` | agent/src/tmuxremote_terminal_state.c:423-427 | parameter bytes past the 127th are dropped |
| `ControlLaws.EscapePairsIgnored` | agent/src/tmuxremote_terminal_state.c:429-443 | ESC with another byte is skipped, a character set designation with the byte behind it |
| `ControlLaws.NumberReads` | agent/src/tmuxremote_terminal_state.c:190-211 | a decimal parameter reads as itself up to 100000, as 100000 above, and as the default when negative, although only 31 bytes of it are looked at |
| `ControlLaws.ResizedByCell` | agent/src/tmuxremote_terminal_state.c:77-118 | a cell of the resized screen is the old one where both screens have it and blank elsewhere; both cursors stay where they fit and are pulled to the edge where not |
| `ControlLaws.InitialIsBlank` | agent/src/tmuxremote_terminal_state.c:35-50 | the requested size, 48 by 160 in its place when none is given, only blanks, both cursors in the first cell |
| `Vt.FeedConcat` | agent/src/tmuxremote_terminal_state.c:398-476 | feeding a then b equals feeding their concatenation |
| `Teletype.ScreenIsTapeWindow` | agent/src/tmuxremote_terminal_state.c:148-188 | for every text without ESC, every start cursor and at least two rows, the screen is exactly a window of the tape of an unbounded teletype, and the number of scrolls is fixed by the teletype's row |
| `Teletype.TapeLawIffTwoRows` | agent/src/tmuxremote_terminal_state.c:148-188 | the screen is a window of the tape after every text without ESC if and only if the terminal has at least two rows |
| `Display.SnapshotRecoversGrid` | agent/src/tmuxremote_terminal_state.c:478-532 | padding the snapshot lines with blanks gives back every row of the grid, and no line holds a NUL |
| `Display.SnapshotLosesNothing` | agent/src/tmuxremote_terminal_state.c:502-532 | with the saved cursor beside it a snapshot gives back the whole screen: size, cursor row and column, screen flag and every cell |
| `FlatGrid.GridScroll` | agent/src/tmuxremote_terminal_state.c:148-161 | moving the cells up by one row's width and blanking the last is dropping the first row and adding a blank one |
| `FlatGrid.GridErase` | agent/src/tmuxremote_terminal_state.c:128-146 | a flat blank range inside one row erases exactly those columns of that row and nothing else |
| `FlatGrid.GridSet` | agent/src/tmuxremote_terminal_state.c:173-181 | writing cell row*cols+col changes exactly that grid position |
| `TerminalState.GetParam` | agent/src/tmuxremote_terminal_state.c:213-248 | the walk over separators finds the value of the requested token of the split parameter text, or the default |
| `TerminalState.HasPrivateMode` | agent/src/tmuxremote_terminal_state.c:250-278 | true exactly when the text starts with a question mark and one of its tokens reads as the mode |
| `TerminalState.TerminalState.constructor` | agent/src/tmuxremote_terminal_state.c:35-50 | a fresh blank screen with default sizes for non-positive ones, no escape pending |
| `TerminalState.TerminalState.ScrollUp` | agent/src/tmuxremote_terminal_state.c:148-161 | the two-dimensional meaning of the memmove and memset, nothing on one row |
| `TerminalState.TerminalState.ClearLineRange` | agent/src/tmuxremote_terminal_state.c:128-146 | erases the clamped columns of one row and leaves every other cell |
| `TerminalState.TerminalState.PutChar` | agent/src/tmuxremote_terminal_state.c:173-188 | writes at the cursor and wraps eagerly |
| `TerminalState.TerminalState.EraseBelow` | agent/src/tmuxremote_terminal_state.c:326-338 | ED 0: from the cursor to the end of the row and all rows below, nothing above |
| `TerminalState.TerminalState.ProcessCsi` | agent/src/tmuxremote_terminal_state.c:280-396 | every final byte has its two-dimensional meaning on the screen |
| `TerminalState.TerminalState.Feed` | agent/src/tmuxremote_terminal_state.c:398-476 | refines the value machine, keeps cursors on the grid, at most one parser flag, at most 127 parameter bytes and no control byte in a cell; the counter moves once per non-empty call |
| `TerminalState.TerminalState.Resize` | agent/src/tmuxremote_terminal_state.c:77-118 | keeps the overlapping cells, blanks the rest, clamps both cursors, keeps the invariant and the pending escape |
| `TerminalState.TerminalState.TakeSnapshot` | agent/src/tmuxremote_terminal_state.c:502-532 | the right-trimmed rows, the cursor, the size, the screen flag and the sequence number |
| `Prompt.SameSemantics` | agent/src/tmuxremote_prompt.c:107-146 | holds exactly when the two contents are equal, whatever id and revision |
| `Prompt.Fnv1a64` | agent/src/tmuxremote_prompt_lifecycle.c:10-19 | the loop is the 64-bit xor-and-multiply fold of the bytes |
| `Prompt.BuildInstanceId` | agent/src/tmuxremote_prompt_lifecycle.c:21-52 | hashing field by field is one fold over the concatenated fields, printed in 16 hex digits |
| `Prompt.AnchorRowSeparates` | agent/src/tmuxremote_prompt_lifecycle.c:10-52 | candidates equal in everything but the anchor row have different ids, for all 32-bit rows |
| `Prompt.NoCancellation` | agent/src/tmuxremote_prompt_lifecycle.c:10-19 | byte differences spread by powers of the prime cannot sum to zero modulo 2^64 |
| `Identity.FoldInjective` | agent/src/tmuxremote_prompt_lifecycle.c:10-19 | whatever bytes follow, different running hashes stay different |
| `Identity.WindowDecides` | agent/src/tmuxremote_prompt_lifecycle.c:10-19 | byte strings that differ only inside four neighbouring bytes hash alike if and only if those bytes agree |
| `Identity.FieldsDecide` | agent/src/tmuxremote_prompt_lifecycle.c:21-52 | between candidates with texts of the same lengths the hashed bytes are equal if and only if the candidates are |
| `Identity.NearPromptsDecide` | agent/src/tmuxremote_prompt_lifecycle.c:21-52 | prompts of one shape whose fields differ only inside four neighbouring bytes have the same id if and only if they are equal |
| `Identity.FieldBoundaryIsInvisible` | agent/src/tmuxremote_prompt_lifecycle.c:21-52 | moving a byte across a field boundary of any action changes the prompt and not its id |
| `Identity.SomePromptsCollide` | agent/src/tmuxremote_prompt_lifecycle.c:21-52 | by pigeonhole two different prompts of ten visible characters share their id, so equal shape alone is not enough |
| `Collision.EvaluatorCollides` | agent/src/tmuxremote_prompt_rules.c:354-483 | two screens on which one rule finds different menus with the same id; the second is an update of the first and is withheld once the first is resolved |
| `Rules.FindNumberedOptionStart` | agent/src/tmuxremote_prompt_rules.c:330-352 | the leftmost maximal digit run followed by a dot and white space, none exactly when there is none |
| `Rules.TrimDup` | agent/src/tmuxremote_prompt_rules.c:224-249 | the text without white space at both ends |
| `Rules.TrimMeans` | agent/src/tmuxremote_prompt_rules.c:224-249 | what trimming takes off is white space, and none is left at the ends |
| `Rules.TemplateFilled` | agent/src/tmuxremote_prompt_rules.c:251-281 | the first {number} of the key template gives way to the number and all around it stays; without one the template stays |
| `Rules.OptionMeans` | agent/src/tmuxremote_prompt_rules.c:387-460 | an option line gives its number, when 1 to 16, the trimmed caption and the filled key template, read from the whole line or, where that fails, from the leftmost numbered start |
| `Rules.MenuIsFirstOccurrences` | agent/src/tmuxremote_prompt_rules.c:354-460 | the options found are exactly the first scanned row of every number shown |
| `Rules.CapIsNeverHit` | agent/src/tmuxremote_prompt_rules.c:283-306 | by pigeonhole the 16-action cap never stops a menu: a full list already holds every number |
| `Rules.CoversIsPermutation` | agent/src/tmuxremote_prompt_rules.c:461-483 | N distinct numbers covering 1..N are a permutation of 1..N, so the check of seen numbers suffices |
| `Rules.MenuFoundIff` | agent/src/tmuxremote_prompt_rules.c:354-483 | a menu is found if and only if the numbers shown on the scanned rows, in any order and with repetitions, are exactly 1..N with N from 2 to 16 |
| `Rules.AcceptableMeans` | agent/src/tmuxremote_prompt_rules.c:527-583 | a rule may match at a row if and only if the line is not empty, its expression matches, the cursor is between one row above and two rows below the scanned ones, and there is a menu or 1 to 16 static actions |
| `Rules.MatchIsLexicographicallyFirst` | agent/src/tmuxremote_prompt_rules.c:545-583 | the match is the acceptable pair with the lowest rule, then the bottom-most row, on a line that the rule's expression matches and with the cursor in its window; it fails only if no pair is acceptable |
| `RuleEvaluator.AppendAction` | agent/src/tmuxremote_prompt_rules.c:283-306 | appends the trimmed action below the cap, refuses at it |
| `RuleEvaluator.ExtractNumberedMenu` | agent/src/tmuxremote_prompt_rules.c:354-483 | succeeds exactly on menus of 2 to 16 options numbered by a permutation of 1..N, and returns their actions |
| `RuleEvaluator.FillCandidate` | agent/src/tmuxremote_prompt_rules.c:485-525 | the candidate of a rule at a row, or none |
| `RuleEvaluator.RulesetMatch` | agent/src/tmuxremote_prompt_rules.c:545-583 | the two loops compute the lexicographically first match |
| `Lifecycle.RunIsLegal` | agent/src/tmuxremote_prompt_lifecycle.c:119-258 | every run of process and resolve emits a prefix of (PRESENT(id,1) UPDATE(id,rev+1)* GONE(id))*, and replaying it gives the agent's active instance |
| `Lifecycle.LateJoinerAgrees` | agent/src/tmuxremote_prompt_lifecycle.c:249-258 | a client that joins with a copy of the active instance and one that saw everything hold the same prompt from then on |
| `Lifecycle.NormalFormDecides` | agent/src/tmuxremote_prompt_lifecycle.c:119-223 | without resolve, events and final state depend only on the normal form of the candidates: repeats collapse, one missing snapshot disappears, longer gaps count as two |
| `Lifecycle.NormalIsNormal` | agent/src/tmuxremote_prompt_lifecycle.c:119-223 | normalisation yields a normal form and leaves normal forms alone |
| `Lifecycle.RedrawsAreSilent` | agent/src/tmuxremote_prompt_lifecycle.c:119-223 | redraws of the active prompt with one-snapshot flickers emit nothing |
| `Lifecycle.DistinctPromptIsNotWithheld` | agent/src/tmuxremote_prompt_lifecycle.c:110-164 | in every run a candidate other than the one resolved last ends up active |
| `Lifecycle.LatchHolds` | agent/src/tmuxremote_prompt_lifecycle.c:119-164 | while every snapshot shows the resolved id nothing is emitted |
| `Lifecycle.LatchOpens` | agent/src/tmuxremote_prompt_lifecycle.c:119-164 | silence up to the first snapshot without a candidate or with another id; that one opens the latch and its candidate is presented |
| `Lifecycle.WithheldIffSharedId` | agent/src/tmuxremote_prompt_lifecycle.c:110-164 | in every run, a prompt seen right after the active one was resolved becomes active if and only if its id differs |
| `Lifecycle.SharedIdUpdates` | agent/src/tmuxremote_prompt_lifecycle.c:165-223 | a different prompt under the active id is emitted as an update of it |
| `Lifecycle.ResolveSuppressesIff` | agent/src/tmuxremote_prompt_lifecycle.c:225-247 | resolving an id keeps it from being presented while it stays on screen if and only if it was active or nothing was |
| `PromptLifecycle.PromptLifecycle.Process` | agent/src/tmuxremote_prompt_lifecycle.c:119-223 | one step of the value machine, its events appended to those emitted |
| `PromptLifecycle.PromptLifecycle.Resolve` | agent/src/tmuxremote_prompt_lifecycle.c:225-247 | the resolve step, an empty id ignored |
| `Sampling.SamplingIsInvisibleIffSteady` | agent/src/tmuxremote_prompt_detector.c:133-171 | starting with an idle lifecycle, the events are the same for every choice of sampling points if and only if the observations are steady |
| `Sampling.SamplingIsInvisibleIff` | agent/src/tmuxremote_prompt_detector.c:133-171 | from every state of the lifecycle, active prompts, missed snapshots and latches included, the events are the same for every choice of sampling points if and only if each screen, taken or skipped, is harmless in every state the samples before it can lead to |
| `Sampling.ActiveUnnoticedIff` | agent/src/tmuxremote_prompt_lifecycle.c:119-223 | while a prompt is active and shown at the end, that means: no other prompt, and no more than one screen without it, an earlier miss counted |
| `Sampling.ResolvedUnnoticedIff` | agent/src/tmuxremote_prompt_lifecycle.c:110-164 | while a resolved prompt is still shown at the end, it means: every screen shows its id |
| `Detection.RunIsLegal` | agent/src/tmuxremote_prompt_detector.c:133-226 | every run of feed, resize, resolve and rule changes emits a grammatical trace whose replay is the active prompt |
| `Detection.RunIsSound` | agent/src/tmuxremote_prompt_detector.c:133-171 | over every run, the feed that emits a present or update has on its own screen a row that one of the rules then in force matches with the cursor in its window, and the prompt is that line with the rule's trimmed static actions, or a menu of 2 to 16 options within the scan limit below it, numbered by a permutation of 1..N, each from the first row with its number |
| `Detection.ChunksAreSamples` | agent/src/tmuxremote_prompt_detector.c:133-171 | from every state of the terminal and the lifecycle, feeding in chunks gives the events of observing the per-byte screens at the chunk ends |
| `Detection.ChunkingIsInvisibleIff` | agent/src/tmuxremote_prompt_detector.c:141-166 | from every state of terminal and lifecycle, the events of a stream are the same for every chunking if and only if its per-byte screens go unnoticed; from an idle lifecycle, if and only if they show no prompt, or one prompt missing from at most one of them after it appeared and shown at the end |
| `Detection.ChunkingCanShow` | agent/src/tmuxremote_prompt_detector.c:141-166 | a three-byte stream whose events depend on the chunking |
| `DetectorLaws.ResolveEnds` | agent/src/tmuxremote_prompt_detector.c:186-201 | after any run, resolving the active id emits exactly its gone event and leaves nothing active; any other id emits nothing and leaves the active prompt |
| `DetectorLaws.ResolvedStaysAway` | agent/src/tmuxremote_prompt_detector.c:133-201 | after any run, once the active prompt is resolved nothing more is emitted for as long as the screens keep showing its id |
| `DetectorLaws.OtherPromptFollows` | agent/src/tmuxremote_prompt_detector.c:133-201 | the first feed after that which shows another prompt presents it as new |
| `DetectorLaws.FeedsObserve` | agent/src/tmuxremote_prompt_detector.c:133-171 | after any run, further feeds emit what the lifecycle emits on the candidates that the rules in force find on the screens they lead to |
| `DetectorLaws.RulesTakeEffect` | agent/src/tmuxremote_prompt_detector.c:40-131 | new rules emit nothing, keep terminal and lifecycle, and judge every later feed |
| `DetectorLaws.ResizeTakesEffect` | agent/src/tmuxremote_prompt_detector.c:173-184 | a resize emits nothing, keeps rules, lifecycle and a pending escape, and every later feed starts from the resized screen |
| `DetectorLaws.CursorDecides` | agent/src/tmuxremote_prompt_detector.c:141-166 | after any run, bytes that put the cursor on row r let the detector find, present or update only prompts whose cursor window holds r |
| `PromptDetector.PromptDetector.Feed` | agent/src/tmuxremote_prompt_detector.c:133-171 | terminal, snapshot, match and lifecycle compose to one step of the detector |
| `PromptDetector.PromptDetector.Resize` | agent/src/tmuxremote_prompt_detector.c:173-184 | resizes the screen and emits nothing |
| `PromptDetector.PromptDetector.Resolve` | agent/src/tmuxremote_prompt_detector.c:186-201 | the lifecycle's resolve step |
| `PromptDetector.PromptDetector.CopyActive` | agent/src/tmuxremote_prompt_detector.c:203-226 | the active instance, contents included |
| `Framing.WrapFramedPayload` | agent/src/tmuxremote_prompt_protocol.c:24-40 | the buffer is the 32-bit length in network order, then the payload |
| `Framing.WrappedBytes` | agent/src/tmuxremote_prompt_protocol.c:24-40 | the length stands in the first four bytes, most significant first, and the payload behind them |
| `Framing.LengthRoundTrip` | clients/ios/TmuxRemote/Services/ConnectionManager.swift:359-366 | the client reads the length the agent wrote, modulo 2^32 |
| `Framing.WireSplits` | clients/ios/TmuxRemote/Services/ConnectionManager.swift:354-372 | every byte string is frames followed by a tail with no complete acceptable frame in front |
| `Framing.SplitIsUnique` | agent/src/tmuxremote_prompt_protocol.c:24-40 | no other payloads of 1 to 65535 bytes and stuck tail give the same bytes |
| `Framing.DeliveryGrows` | clients/ios/TmuxRemote/Services/ConnectionManager.swift:354-372 | later bytes never take back or alter a delivered payload |
| `Framing.ControlReader.ReadExactly` | clients/ios/TmuxRemote/Services/ConnectionManager.swift:402-412 | gives exactly the next count bytes, or fails with every byte still in the buffer |
| `Framing.ControlReader.ReadFrame` | clients/ios/TmuxRemote/Services/ConnectionManager.swift:357-370 | one turn takes exactly the first frame, or stops at a cut-off or refused one |
| `Framing.ControlReader.ReadLoop` | clients/ios/TmuxRemote/Services/ConnectionManager.swift:354-399 | for every chunking delivers exactly the payloads of the wire in order, stops at a refused length, and buffer plus unread chunks are the unread suffix; cancelled at any check, it has delivered a prefix |
| `Framing.Transfer` | clients/ios/TmuxRemote/Services/ConnectionManager.swift:354-412 | what the agent framed arrives unchanged, however it was cut |
| `Overlay.RunKeeps` | clients/ios/TmuxRemote/Patterns/PatternEngine.swift:39-171 | over every timed run a pending clear names the active match with deadline activeSince plus the minimum, and only a match is hidden |
| `Overlay.GoneIsFinal` | clients/ios/TmuxRemote/Patterns/PatternEngine.swift:64-78 | after gone(id) with no later accepted present or update, id is not shown once the deadline has passed, and at once if it already had |
| `Overlay.MinimumShowing` | clients/ios/TmuxRemote/Patterns/PatternEngine.swift:64-78 | until the minimum time is over no gone event and no timer takes a match down |
| `Overlay.SuppressionHolds` | clients/ios/TmuxRemote/Patterns/PatternEngine.swift:143-152 | within the suppression time of its going no present of an id is accepted, unless a reset or another instance's going intervenes |
| `Overlay.FollowsIffUnblocked` | clients/ios/TmuxRemote/Patterns/PatternEngine.swift:39-171 | fed an agent trace, with any user operations and timers in between, the overlay shows after every step exactly the agent's prompt, nothing once the user has taken it off, or what lingers of the last one, if and only if no prompt arrives within the suppression time of its own leaving the screen or of a local answer to one of the same signature |
| `Overlay.OverlayShowsTheLifecycle` | clients/ios/TmuxRemote/Patterns/PatternEngine.swift:39-171 | for every lifecycle run, every timing of its events and everything the user does meanwhile, an unblocked overlay ends up showing exactly the agent's active instance unless the user has taken it off |
| `Overlay.HurriedReturnIsLost` | clients/ios/TmuxRemote/Patterns/PatternEngine.swift:143-152 | the agent misses a prompt for two snapshots and finds it again; if its events arrive without the suppression time between them, the overlay ends up empty although the agent has the prompt active |
| `Overlay.RepeatedQuestionIsLost` | clients/ios/TmuxRemote/Patterns/PatternEngine.swift:132-141 | the user answers a prompt and the agent asks the same one row lower; within the suppression time the overlay stays empty although the agent has the second prompt active |
| `PatternEngine.PatternEngine.Present` | clients/ios/TmuxRemote/Patterns/PatternEngine.swift:39-51 | one present step: both suppressions, then the new showing |
| `PatternEngine.PatternEngine.Update` | clients/ios/TmuxRemote/Patterns/PatternEngine.swift:53-62 | replaces the match of the same id and cancels a pending clear |
| `PatternEngine.PatternEngine.Gone` | clients/ios/TmuxRemote/Patterns/PatternEngine.swift:64-78 | clears, or schedules the clear for the rest of the minimum time |
| `PatternEngine.PatternEngine.ResolveLocally` | clients/ios/TmuxRemote/Patterns/PatternEngine.swift:94-102 | remembers signature and id, and clears |
| `PatternEngine.PatternEngine.Fire` | clients/ios/TmuxRemote/Patterns/PatternEngine.swift:154-166 | the delayed work item always leaves nothing active |
| `JsonRoundTrip.RoundTrip` | clients/cli/src/3rdparty/cjson/cJSON.c:1363-1881 | printing a tree and parsing it back returns the tree, formatted or not, if and only if it nests at most 1000 deep; a deeper one is rejected |
| `JsonTexts.EveryTextParses` | clients/cli/src/3rdparty/cjson/cJSON.c:1142-1768 | every JSON text of RFC 8259, with any white space between its tokens, any escapes in its strings and any numbers, parses to what it stands for if and only if it nests at most 1000 deep; a number that is not written as an int is an opaque value with exactly its text; text behind the value is ignored |
| `JsonLayout.PrintIsText` | clients/cli/src/3rdparty/cjson/cJSON.c:1418-1881 | what is printed for a tree is a JSON text that stands for it, without any white space outside the strings when it is not formatted |
| `JsonNumbers.RealReads` | clients/cli/src/3rdparty/cjson/cJSON.c:307-380 | a number with a fraction, an exponent or too many digits for an int is read whole, wherever it stands |
| `JsonEscapes.LiteralMeans` | clients/cli/src/3rdparty/cjson/cJSON.c:660-946 | a string of plain bytes, the eight short escapes and \u escapes, single or in surrogate pairs and in either case, parses to the bytes these stand for, each code point in shortest UTF-8, up to the first NUL |
| `JsonEscapes.LoneLowRefused` | clients/cli/src/3rdparty/cjson/cJSON.c:715-722 | a low surrogate without a high one before it refuses the string, whatever follows |
| `JsonEscapes.LoneHighRefused` | clients/cli/src/3rdparty/cjson/cJSON.c:724-750 | a high surrogate that no low one follows refuses the string |
| `JsonEscapes.UnknownEscapeRefused` | clients/cli/src/3rdparty/cjson/cJSON.c:915-916 | a backslash before any letter but the nine of RFC 8259 refuses the string |
| `JsonPrinter.EscapeLength` | clients/cli/src/3rdparty/cjson/cJSON.c:949-1068 | the escape count of the first pass is the number of bytes the second pass adds |
| `JsonPrinter.PrintBuffer.PrintString` | clients/cli/src/3rdparty/cjson/cJSON.c:949-1068 | every write stays in the reserved space and the quoted, escaped text lies behind the offset |
| `JsonPrinter.PrintBuffer.Ensure` | clients/cli/src/3rdparty/cjson/cJSON.c:485-568 | the buffer grows to hold what is needed, keeps its contents, and fails exactly past INT_MAX |
| `JsonPrinter.PrintBuffer.UpdateOffset` | clients/cli/src/3rdparty/cjson/cJSON.c:571-580 | the offset moves over exactly the text behind it |
| `JsonPrinter.PrintJson` | clients/cli/src/3rdparty/cjson/cJSON.c:1234-1299 | the printed text of the tree, or nothing exactly when it does not fit an int-sized buffer |
| `JsonStrings.FindEnd` | clients/cli/src/3rdparty/cjson/cJSON.c:819-861 | the first pass finds the closing quote and the number of escapes before it |
| `JsonStrings.ParseStringLiteral` | clients/cli/src/3rdparty/cjson/cJSON.c:819-946 | the two passes compute the unescaped string, every write inside the buffer sized by the first pass |
| `JsonStrings.Utf8Decodes` | clients/cli/src/3rdparty/cjson/cJSON.c:698-816 | the bytes written for a code point are well-formed UTF-8 of the shortest length and decode to it |
| `CellList.Parent.Get` | clients/cli/src/3rdparty/cjson/cJSON.c:1907-1924 | the item at the index, null past the end |
| `CellList.Parent.Add` | clients/cli/src/3rdparty/cjson/cJSON.c:2012-2043 | appends, keeping next and prev inverse and the head's prev the last item |
| `CellList.Parent.Insert` | clients/cli/src/3rdparty/cjson/cJSON.c:2319-2351 | inserts before the index, appends past the end, refuses a negative one |
| `CellList.Parent.DetachAt` | clients/cli/src/3rdparty/cjson/cJSON.c:2279-2287 | removes and unlinks the item at the index, null and no change outside |
| `CellList.Parent.Detach` | clients/cli/src/3rdparty/cjson/cJSON.c:2243-2277 | removes exactly that item from the sequence, and refuses one that is not linked |
| `CellList.Parent.Replace` | clients/cli/src/3rdparty/cjson/cJSON.c:2353-2400 | substitutes the item in place and leaves the old one without links |
| `CellList.RemovedIsLinked` | clients/cli/src/3rdparty/cjson/cJSON.c:2243-2277 | the links left by a removal are those of the sequence without the item |
| `JsonArrays.ParseArrayList` | clients/cli/src/3rdparty/cjson/cJSON.c:1492-1587 | linking each element behind the last while parsing, and the head's prev at the end, leaves a well-linked child list of exactly the elements parsed |
| `Coap.RunKeeps` | agent/src/tmuxremote_coap_handler.c:70-249 | over every interleaving each delivered request is in exactly one place, the queue holds what was enqueued and not yet handled, a thread sleeps only while its condition is false, and an exited worker means stopping and an empty queue |
| `Coap.FreedAtMostOnce` | agent/src/tmuxremote_coap_handler.c:136-170 | no request is freed twice or without having arrived |
| `Coap.HandledInOrder` | agent/src/tmuxremote_coap_handler.c:224-249 | requests are handled in order of arrival, a prefix of those enqueued |
| `Coap.NothingAfterStop` | agent/src/tmuxremote_coap_handler.c:196-222 | once stopping is set nothing more is enqueued |
| `Coap.EnqueuedAsOffered` | agent/src/tmuxremote_coap_handler.c:196-222 | in every run exactly the requests that found room before anyone asked to stop are enqueued, in that order |
| `Coap.KeepsListening` | agent/src/tmuxremote_coap_handler.c:136-170 | until a stop or an SDK error a listen is armed between any two callbacks, and every request delivered was enqueued unless there was no room |
| `Coap.DrainFindsNothing` | agent/src/tmuxremote_coap_handler.c:82-112 | when deinit has joined the worker the queue is empty and all was handled |
| `Coap.ShutdownEnds` | agent/src/tmuxremote_coap_handler.c:82-127 | every schedule of a shutdown is finite, spurious wakeups aside |
| `Coap.ShutdownNeverStalls` | agent/src/tmuxremote_coap_handler.c:82-127 | no wakeup is lost: until all is settled a thread that is awake can move, without a new request |
| `Coap.ShutdownIsClean` | agent/src/tmuxremote_coap_handler.c:82-127 | at the end every delivered request was freed exactly once and every enqueued one handled |
| `Coap.OutlivesDeinitIff` | agent/src/tmuxremote_coap_handler.c:82-127 | when deinit finds no callback counted, one can still enter after the mutex is destroyed if and only if at that moment a request is armed or its delivery has begun |
| `RequestQueue.Queue.Enqueue` | agent/src/tmuxremote_coap_handler.c:196-222 | appends to the sequence head and tail stand for, or refuses while stopping |
| `RequestQueue.Queue.Pop` | agent/src/tmuxremote_coap_handler.c:237-241 | takes the first request, and the tail is cleared with the last |
| `RequestQueue.Queue.Drain` | agent/src/tmuxremote_coap_handler.c:98-110 | empties the queue and visits what was in it, in order |
| `DataStream.NextKeeps` | agent/src/tmuxremote_stream.c:50-56 | every step of every thread keeps: one winner issues the close, one cleanup, running threads recorded before they are joined |
| `DataStream.NothingAfterFree` | agent/src/tmuxremote_stream.c:604-657 | once the record is freed no step of any thread or callback on it is possible |
| `DataStream.EndedKeeps` | agent/src/tmuxremote_stream.c:369-602 | every step keeps: no reader ends, and no accept or setup fails, without the close having been won or the stream marked as closing |
| `DataStream.EndedStreamIsClosed` | agent/src/tmuxremote_stream.c:450-602 | once a reader has ended and no thread is about to issue the close, it is registered, or has resolved and begun the one cleanup |
| `DataStream.HarmlessKeepsOpen` | agent/src/tmuxremote_stream.c:369-582 | without a failure or a mark a stream stays open and linked, and both readers run once it is set up |
| `DataStream.CleanupComesCloser` | agent/src/tmuxremote_stream.c:604-657 | once the cleanup thread runs, every step of any thread brings the free closer |
| `DataStream.CleanupNeverStalls` | agent/src/tmuxremote_stream.c:604-657 | no join waits for threads that cannot move |
| `StreamList.NoUseAfterFree` | agent/src/tmuxremote_stream.c:156-240 | over every interleaving of all streams no callback, thread, lookup or unlinking touches a freed record |
| `StreamList.FreedOnceAndLast` | agent/src/tmuxremote_stream.c:604-691 | each stream is cleaned up at most once, and freed only off the list and after its setup, PTY and stream threads have ended |
| `StreamList.FreedForGood` | agent/src/tmuxremote_stream.c:604-691 | a freed record is never written again |
| `StreamList.FreeingEnds` | agent/src/tmuxremote_stream.c:604-657 | over every interleaving of all streams, a stream being freed takes at most so many steps of its own |
| `StreamList.FreeingNeverStalls` | agent/src/tmuxremote_stream.c:604-657 | and until it is freed one of its own steps can be taken, whatever the others and the lookups do |
| `StreamList.RemoveMeans` | agent/src/tmuxremote_stream.c:670-681 | the unlinking walk removes that stream and no other |
| `ActiveStreams.List.Link` | agent/src/tmuxremote_stream.c:275-278 | a new record becomes the head of the chain |
| `ActiveStreams.List.Unlink` | agent/src/tmuxremote_stream.c:670-681 | the walk over the links takes out exactly the record, nothing when it is not there |
| `ActiveStreams.List.Find` | agent/src/tmuxremote_stream.c:156-175 | the first record that is open, has a detector and belongs to the connection; null exactly when none does |
| `KeyMove.KeyStorage.Move` | agent/src/tmuxremote_keychain.c:641-756 | the straight sequence of effects has the outcome and the storages the value model gives |
| `KeyMove.TrueMeansMoved` | agent/src/tmuxremote_keychain.c:641-756 | from any source, true means the configuration names the target and it holds a key with the source's fingerprint; a move from a storage to itself must be from the one in use |
| `KeyMove.FalseMeansUntouched` | agent/src/tmuxremote_keychain.c:641-756 | false leaves configuration and source as they were |
| `KeyMove.SourceGoesOnlyInTheEnd` | agent/src/tmuxremote_keychain.c:641-756 | a move between two storages succeeds if and only if every step does and the saved key prints as the source; the source holds what the delete left exactly then, and its key in every other case, and the target is overwritten once the source has been read |
| `KeyMove.SuccessLeavesOneCopy` | agent/src/tmuxremote_keychain.c:737-740 | when the delete works, a successful move leaves the key in the target alone, named by the configuration |
| `KeyMove.StopBeforeDeleteKeepsBoth` | agent/src/tmuxremote_keychain.c:692-740 | a stop before the delete keeps the source; after the key was verified the target holds it as well |
| `KeyMove.IdentitySurvives` | agent/src/tmuxremote_init.c:634-668 | over every sequence of moves that are safe where they run, as all from the configured storage are, failures and stops at any step included, the storage the configuration names holds a key with the original fingerprint |
| `KeyMove.RetrySucceeds` | agent/src/tmuxremote_keychain.c:641-756 | after any failed or stopped move a retry in a working world succeeds |
| `KeyMove.SafeExactlyWhen` | agent/src/tmuxremote_keychain.c:758-776 | no world loses the key if and only if the source is the storage in use, or source and target agree, or the source holds no usable key |
| `KeyMove.MisreadConfigurationLosesTheKey` | agent/src/tmuxremote_keychain.c:758-776 | with the configuration misread, a move that reports success replaces the key in use by a stale one |

## Assumptions

* Allocation succeeds, except in the CoAP queue, where its failure is a choice of
  every step. SDK callbacks run one at a time and each future resolves once. Memory
  is sequentially consistent.
* The C locale; `row + max_scan_lines` fits an int; a regular expression is a function
  from a line to optional captures.
* The condition variables wake what waits on them when signalled, and may wake it spuriously.
* The overlay reads one instant per call. Its signature of a prompt (trimmed, lower-cased
  text and type) is a function of the instance. `Overlay.GoneIsFinal` takes timers to be
  punctual: at the instant observed, no pending clear is past its deadline.
* Writing the configuration file is atomic. Saving and deleting a key may leave anything.

## Left out

- NULL strings in candidates and instances: they arise only from failed allocation.
- Regular expressions, CBOR bodies and the file formats behind the rule configuration.
- Numbers that are not 32-bit integers: an opaque value with its text in the JSON tree, read but outside the round trip; no floating-point value is modelled.
- cJSON references, raw values, `cJSON_PrintPreallocated`, custom allocators and error positions.
- The child list of a parsed object: it is linked as that of an array, with a name per item.
- JsonArrays.ParseArrayList: the values of nested elements come from the parser on values.
- The wall clock stepping backwards and the spread of several clock reads inside one overlay call.
- Listener teardown of the data streams, and a file descriptor reused while a reader still holds its number.
- Failed allocation of the accept and close futures, which calls the cleanup directly.
- DataStream.CleanupComesCloser: with StreamList.FreeingEnds it counts one read and one write as one finite step, so it does not cover a PTY read or an SDK wait that never returns.
- Control-stream reference counting and the order of prompt sync and events on that stream.
- Connection caching, session map, bookmarks, pairing, IAM state and reconnect backoff: plain look-ups and updates without an invariant across calls.
- Command line, SwiftUI views, tmux subprocesses and build files.
