# Punk Records: a verified model of its hard parts

Punk Records is a memory and task server for coding agents, with a command line tool (`punk connect`)
that edits the configuration files of agent hosts. This project models five parts of it in Dafny and proves
what their code, documentation and tests promise. Running `dafny verify dfyconfig.toml` checks everything.

## The five parts

**The Codex configuration engine** (`internal/hookcli/connect_codex.go`). `TomlString` is the string codec: what
`tomlString` prints, `parseTOMLString` reads back, and `TomlEscapes` says what the text of any string means. `TomlLexer` is a one-character automaton for TOML strings and
comments, and the line scanner with its lookahead and quote counting, proved to be that automaton. `TomlParse` holds
keys, table headers, inline tables and arrays. `TomlCut` says where a bracketed value ends, `TomlPairs` which inline
tables are read, `TomlHeaders` which lines open which tables, `TomlKeys` which dotted keys are read and which keys an
inline table has, and `TomlLists` and `TomlStringLists` which lists are split as TOML splits them, each without the scan
that computes it. `CodexInspect` is the line-by-line inspector of one file. `CodexLines`, `CodexReading`, `CodexFields` and
`CodexLaw` say its answer of the file alone, as a sequence of statements with literal keys: which files it accepts, and
that every field it reports is what a line says. `CodexHeaders` is the
overlay of static and environment headers; `CodexMerge` the field-wise merge of layered files. `CodexBlock` prints the
fenced block, and `CodexPrintParse` proves that the inspector reads a printed block back as what was asked for, for
every option set. `CodexFeatures` and `CodexEdit` are the in-place editor with its three multi-line regular expressions
written out as scans, with the proofs that an edit keeps the user's text and of exactly when a second run changes
nothing; `CodexKept` says which lines survive, `CodexStrip` what taking punk's blocks out means, and `CodexFlags` what a
file says about hooks, when a run is refused for it, and when the file says so afterwards.

**Concurrent server state.** Each protocol is a state machine whose steps interleave in any order; theorems are about
every run. `DeliveryMutex` is the refcounted keyed mutex, `DeliveryProtocol` the session-start delivery protocol over it
with failing stores and expiring markers, `SessionRecord` the bookkeeping facts of a session. `TtlCache` is the
stale-while-revalidate cache with one load in flight. `Bus`, `A2AMap`, `A2AStream`, `A2AProtocol` and `A2AFrames` are the
lossy event bus, the artifact ids, one stream's own moves, the stream interleaved with the ledger and the bus, and what a
stream's frames tell its client. `StreamLimits` is
the two-level admission of streams. Where the source has an object that changes in place, there is a class whose methods
are proved to take exactly the state machine's steps.

**The investigation loop** (`internal/agent`). `Task` and `Ledger` are the ledger as the loop uses it: append-only logs,
fresh sequence numbers, budgets that park a task. `Findings` and `Toolset` are the result parser and the allowlist.
`Investigation` defines what a run may and must leave behind; `Runtime` is `RunTask` with its subagents, against an
arbitrary model, arbitrary tools and arbitrary store failures, each an oracle asked at a fresh tick. Payments, executions
and proposals are traced, and the proposals in the logs are the ones in the trace. A run ends without
an error exactly for the tasks that can be worked on, when no store operation fails, and it parks such a task only for one
of the reasons the code has.

**Text algorithms.** `WordPiece` is the tokenizer with its round trip, `BaseURL` and `Credentials` the URL canonicaliser
and the choice of the key that goes with it, `IPv6` the reading and printing of bracketed addresses. `BasePaths` and
`BaseGrammar` say which texts are accepted as URLs as a grammar, `Loopbacks` which hosts are the local machine.
`ClineReply` is the clipping of a reply at a UTF-8 boundary, `Decimals` the numerals the others share.

**List merges.** `HookMerge` merges punk's groups into an event's list and settles how many runs that takes;
`HookCommands` builds and recognises the commands in those groups; `HermesAllowlist` merges approvals.

`Text` holds the string operations all of this is written in. Texts are sequences of Unicode scalar values, except in
`ClineReply`, which works on bytes.

## What turned out not to hold

- **`CopyIsFaithful`, `SplitsExactly`, `StringListSplits`**: `splitTOMLElems` looks at the character after a backslash
  twice, so it rewrites every escape. A list that TOML can split is split as TOML splits it exactly when no basic string
  in it holds a backslash. Any other list is refused (`EscapedQuoteRefused`: the one string `"\""`) or accepted with
  another element: in `EscapeCanAlterSilently` an escaped quote ends the copy early, and the rest of the string is
  dropped as a comment.
- **`SecondRunChangesNothing`, `UserTextSurvives`, `BareReturnNeedsAnotherRun`** (CodexEdit): one run settles the file, and
  gives back every character the user had, exactly when the file already uses CRLF or no line that is kept ends in a
  carriage return. Otherwise such a return becomes part of a CRLF, which the second run spreads over the file; the
  smallest such file is a single `\r`.
- **`HooksAreOn`, `FlagCanBeHidden`**: after a run that asks for hooks the file says `hooks = true`, except in one case. The
  expression for a table header, `\[[^\]]+\]`, crosses line breaks. If the file has its flag already, and a line before it
  in the `[features]` table begins with a bracket that nothing later in the file closes, the brackets of punk's own block
  close it, and the `[features]` table ends above the flag for every later run. `FlagCanBeHidden` has such a file, valid
  TOML with a bracket in a multi-line string.
- **`OneRunExactly`, `TwoRunsExactly`, `ConnectSettles`, `ThreeRunsNeeded`**: one run of capture and inbox settles a hook list
  only under an exact condition on the list. A connect run adds the wake bridge when it is asked for or was installed before;
  without it two runs always settle a list, with it three do, and two exactly under a condition on the list.
- **`RecordKeeps`, `SurvivorsExactly`**: a full record keeps the newly added IDs, but an ID that was recorded before and is
  shown again can fall off: it stays exactly when enough of the earlier set sorts before it.
- **`GrantIsACap`**: a child task is granted half of the tokens and of the tool calls its parent had left, and a grant of zero
  is no cap at all, so a child spawned with at most one token left has no token cap, and likewise for tool calls.
- **`OnlyEmptyAddressLeaks`**: a handler whose client address is the empty string takes a slot that is never given back.
- **`Runtime.Runtime.RunTask`**: a task without a usable agent is parked exactly when its status allows the move and neither
  store call fails. A submitted one never is, because the ledger has no move from submitted to input_required; its run
  ends in an error.
- **`DecimalReadsBack`**: `itoa` prints the least 64-bit integer as a lone minus sign; it is still injective.

## Model

| member | source | states |
|---|---|---|
| TomlString.QuotedRoundTrip | internal/hookcli/connect_codex.go:647-677 | Reading a printed string followed by any text gives the value and that text back, exactly unless the value is empty and the text starts with a quote. |
| TomlString.ScanString | internal/hookcli/connect_codex.go:647-677 | The index scan over escapes finds the same value and rest as the specification of a single-line string. |
| TomlString.EscapedMarker | internal/hookcli/connect_codex.go:125-128 | Printing cannot bring a comment marker into existence: one inside a printed string is in the value. |
| TomlEscapes.UnescapeExactly | internal/hookcli/connect_codex.go:647-677 | The text between the quotes is read exactly when it is plain characters, the eight one-letter escapes and units of four hex digits, and then as what they mean, two units of a pair as one character and a lone one as U+FFFD. |
| TomlLexer.CodeLineStarts | internal/hookcli/connect_codex.go:1154-1233 | The line scanner accepts a document exactly when the automaton ends in code, and marks exactly the lines at which it is in code. |
| TomlLexer.LineStateReadsText | internal/hookcli/connect_codex.go:1154-1233 | The automaton's state at a line is its state after reading all text before it, line breaks included, one character at a time. |
| TomlCut.ScanCut | internal/hookcli/connect_codex.go:714-826 | The scan cuts at the first bracket that brings the depth outside strings and comments back to zero, or reports that there is none. |
| TomlCut.CutExactly | internal/hookcli/connect_codex.go:714-826 | The recursion over whole strings and comments finds the bracket that a one-character automaton with a depth at every position defines. |
| TomlCut.CutIsUnique | internal/hookcli/connect_codex.go:714-826 | That definition leaves one answer for every text. |
| TomlPairs.ScanInlinePairs | internal/hookcli/connect_codex.go:751-782 | The pair loop accepts exactly the texts written as keys and strings with equals signs, commas and white space, no key twice, and returns the map of these pairs. |
| TomlPairs.PairsExactly | internal/hookcli/connect_codex.go:751-782 | The same of the recursion: acceptance is the existence of such a decomposition, and every decomposition gives the one map. |
| TomlHeaders.HeaderExactly | internal/hookcli/connect_codex.go:1056-1139 | A line is a table header exactly when it is one bracket or two around names of bare characters and strings with dots between, followed by nothing or a comment; the path is the trimmed names, none empty. |
| TomlKeys.PathRead | internal/hookcli/connect_codex.go:1037-1051 | Every dotted key, in any quoting and with any white space around its dots, is read as its keys. |
| TomlKeys.PathFound | internal/hookcli/connect_codex.go:1037-1051 | Whatever is read as a dotted key is written so. |
| TomlKeys.AbsentExactly | internal/hookcli/connect_codex.go:968-1031 | A key is found absent from an inline table exactly when its body is a list of entries, each a key with a string, a bracketed value or a scalar, and none has that key. |
| TomlParse.CopyIsFaithful | internal/hookcli/connect_codex.go:854-891 | A string in a list is copied as written exactly when it has no backslash before its closing quote. |
| TomlParse.EscapedQuoteRefused | internal/hookcli/connect_codex.go:854-891 | The list whose one element is the string of an escaped quote is refused. |
| TomlLists.SplitsExactly | internal/hookcli/connect_codex.go:854-931 | A list that TOML can split is split as TOML splits it exactly when no basic string in it holds a backslash. |
| TomlStringLists.StringListSplits | internal/hookcli/connect_codex.go:854-931 | Strings with commas, white space and comments between them are TOML's list of these strings, and come out as such exactly when no basic string among them holds a backslash. |
| TomlStringLists.EscapeCanAlterSilently | internal/hookcli/connect_codex.go:862-890 | A list with an escaped quote that is accepted with a shortened element. |
| CodexHeaders.EffectiveHeaders | internal/hookcli/connect_codex.go:1940-1971 | In any key order: fails exactly when two spellings of one name disagree, else every name has its live environment value, or its static one, or none. |
| CodexInspect.InspectScope | internal/hookcli/connect_codex.go:1477-1894 | The line loop computes the meaning of the file as defined line by line, including where it stops with which problem. |
| CodexLines.FoldExactly | internal/hookcli/connect_codex.go:834-848 | A bracketed value is folded to the first line on which its bracket closes, and to no other. |
| CodexFields.FieldEffect | internal/hookcli/connect_codex.go:1675-1830 | A recognised field is accepted exactly when its value is of the kind its key takes, and leaves in the state what the value says, the flag `enabled` the word that stands there. |
| CodexLaw.InspectedExactly | internal/hookcli/connect_codex.go:1477-1894 | A file is inspected exactly when its strings end, every statement is fine after those before it, no header, env or oauth table is given both inline and as a table, and no two spellings of a header disagree, statically or in the environment. |
| CodexLaw.ReportedExactly | internal/hookcli/connect_codex.go:1477-1894 | What is reported of an inspected file is what its statements say: the table, the fragment, the flag, the URL, the token variable, each transport field, and the header tables' namespace and authorization entries. |
| CodexLaw.FieldsAreWritten | internal/hookcli/connect_codex.go:1668-1700 | `enabled` is true, or false, exactly when a code line under [mcp_servers.punk] gives that word; the URL and the token variable are exactly the strings that lines give; a recognised key counts for the transport exactly when a line sets it or its own table is opened. |
| CodexLaw.PinnedExactly | internal/hookcli/connect_codex.go:1887-1894 | The pin is the namespace header that is sent, from the environment if a variable that is set is named, else the static one; the entry authorizes by header exactly when such a header is sent. |
| CodexLaw.HeadIsWritten | internal/hookcli/connect_codex.go:1542-1583 | A statement opens a table exactly when its line is written as a header of that table. |
| CodexLaw.SetIsWritten | internal/hookcli/connect_codex.go:1590-1675 | A statement sets a key of the punk table exactly when its line is that key, an equals sign and the value. |
| CodexPrintParse.PrintedBlockReadsBack | internal/hookcli/connect_codex.go:131-166 | For every option set, line ending and environment, inspecting the printed block gives no error, Installed, the written URL, pin and token variable, and an Authorization header exactly when a literal key was embedded. |
| CodexPrintParse.PairsRoundTrip | internal/hookcli/connect_codex.go:751-782 | Reading printed header pairs gives back exactly those pairs. |
| CodexMerge.MergeScopes | internal/hookcli/connect_codex.go:2052-2174 | The pass from the lowest layer up, the transport check and the header resolution give the entry defined by "the highest layer that has it". |
| CodexMerge.TopIsHighest | internal/hookcli/connect_codex.go:2067-2118 | A merged field is there exactly when some layer defines it, and then comes with its file from the highest that does. |
| CodexMerge.OverlayIsHighest | internal/hookcli/connect_codex.go:2094-2109 | Header and transport tables are merged entry by entry by the same rule. |
| CodexMerge.TopFolds | internal/hookcli/connect_codex.go:2073-2110 | Merging a stack of layers in two parts gives what merging it at once gives. |
| CodexMerge.OverlayFolds | internal/hookcli/connect_codex.go:2094-2109 | The same for the header and transport tables. |
| CodexMerge.KnownExactly | internal/hookcli/connect_codex.go:2052-2146 | The result is known exactly when every layer is readable, one defines the table, no transports mix and no spellings disagree. |
| CodexMerge.KnownNeverMixes | internal/hookcli/connect_codex.go:2130-2145 | A known entry has no HTTP field beside a command and no stdio field beside a url, whatever layers they come from. |
| CodexMerge.SingleScopeAgrees | internal/hookcli/connect_codex.go:2052-2174 | Merging one installed scope agrees with that scope's own pin, endpoint, token variable, enabled flag and Authorization. |
| CodexMerge.HeaderAuthExactly | internal/hookcli/connect_codex.go:2156-2172 | The merged entry sends an Authorization header exactly when some layer has a static one or a spelling in the merged table names a variable that is set and not blank. |
| CodexFeatures.InsertedOnce | internal/hookcli/connect_codex.go:267-290 | After the hooks flag is inserted, the body needs no further edit. |
| CodexFeatures.FeatureStateAppended | internal/hookcli/connect_codex.go:265-296 | A line break appended to the body does not change a verdict that needs no edit. |
| CodexFlags.FeatureStateExactly | internal/hookcli/connect_codex.go:119-121 | Hooks are read as on, or off, exactly when the first match of the flag's expression in the first [features] table, up to the next header's match, says so. |
| CodexFlags.HooksAreOn | internal/hookcli/connect_codex.go:263-297 | After a run that asks for hooks the whole text, block included, says they are on, exactly unless the kept text said so already and a line before that flag opens a bracket that nothing later closes. |
| CodexFlags.FlagCanBeHidden | internal/hookcli/connect_codex.go:263-297 | A valid file for which it does not. |
| CodexFlags.RefusedExactly | internal/hookcli/connect_codex.go:256-284 | A run is refused for an unmatched marker, for a foreign punk table without force, and for hooks exactly when they are asked for and the kept text says they are off. |
| CodexBlock.BlockEnds | internal/hookcli/connect_codex.go:131-166 | The block's table header, feature lines, settings and end marker stand where they must. |
| CodexEdit.StripManagedBlocks | internal/hookcli/connect_codex.go:177-193 | The loop takes out every fenced block, or reports a start marker without an end. |
| CodexStrip.StripsExactly | internal/hookcli/connect_codex.go:177-193 | Stripping takes out one fenced block after the other, each from its start marker to the first end marker behind it with that line's break, and fails exactly when a start marker is left that no end marker follows. |
| CodexKept.RemovalIsExact | internal/hookcli/connect_codex.go:223-242 | A forced run keeps, in order, exactly the lines that lie under no punk header still open. |
| CodexEdit.ConnectCodexConfig | internal/hookcli/connect_codex.go:247-308 | What is written or refused, and that a change is reported exactly when the text differs. |
| CodexEdit.StripsTheBlock | internal/hookcli/connect_codex.go:131-193 | Stripping the written file takes out exactly the block that was written. |
| CodexEdit.UserTextSurvives | internal/hookcli/connect_codex.go:247-308 | Whatever the file, stripping the block from the result gives back the edited body padded with line breaks, up to carriage returns before line breaks; nothing at all is lost exactly when the file uses CRLF or no kept line ends in a carriage return. |
| CodexKept.EditKeepsLines | internal/hookcli/connect_codex.go:255-290 | The edited body has every line outside punk's tables, in order, and at most one line more, the flag that enables hooks. |
| CodexEdit.SecondRunChangesNothing | internal/hookcli/connect_codex.go:247-308 | The same run again changes nothing exactly when the file uses CRLF already or no line that is kept ends in a carriage return. |
| CodexEdit.PlainFileSettles | internal/hookcli/connect_codex.go:247-308 | A file without a bare carriage return settles after one run, with the user's text intact. |
| CodexEdit.BareReturnNeedsAnotherRun | internal/hookcli/connect_codex.go:291-296 | A file that is one bare carriage return is changed by the second run too. |
| DeliveryMutex.EveryRunIsSafe | internal/api/agent_handlers.go:538-578 | In every interleaving: one holder per key, one lock object per key, counts equal the calls registered, and a key is in the map exactly while a call is. |
| DeliveryMutex.EmptyWhenAllReleased | internal/api/agent_handlers.go:566-577 | The map is empty once every call has released. |
| DeliveryMutex.FreeKeyIsTaken | internal/api/agent_handlers.go:555-566 | A waiting call can take its lock unless another call holds that very lock. |
| DeliveryMutex.KeyedMutex.Enter | internal/api/agent_handlers.go:555-563 | The section under the map's mutex takes exactly the registration step and keeps the invariant. |
| DeliveryMutex.KeyedMutex.Exit | internal/api/agent_handlers.go:569-576 | The second half of the release takes exactly the leaving step and keeps the invariant. |
| DeliveryMutex.KeyedMutex.Drop | internal/api/agent_handlers.go:569 | The first half of the release takes exactly the unlocking step and keeps the invariant. |
| DeliveryMutex.Release.Run | internal/api/agent_handlers.go:566-577 | The first call of a release function takes both halves of the release; any later call changes nothing. |
| DeliveryProtocol.SuppressedWasAnswered | internal/api/agent_handlers.go:882-889 | In every interleaving, whatever fails: a suppressed answer follows a non-empty answer to the same session, event and revision. |
| DeliveryProtocol.SameAnswersAreSeparated | internal/api/agent_handlers.go:882-901 | Without failures, two non-empty answers with the same session, event and revision have a different issued pair between them. |
| SessionRecord.Record.Merge | internal/api/agent_handlers.go:371-396 | The rewritten record is the prior set in some order, then the new IDs, cut to the last entries of the cap. |
| SessionRecord.RecordKeeps | internal/api/agent_handlers.go:371-396 | The record holds everything while it fits, exactly the cap after that, and the newly added IDs of a block no larger than the cap. |
| SessionRecord.SurvivorsExactly | internal/api/agent_handlers.go:371-396 | After a rewrite an ID is in the record exactly when it is new, or enough of the earlier set sorts before it. |
| SessionRecord.NoTurnRepeats | internal/api/agent_handlers.go:942-1005 | In a sequential session that shows at most 500 IDs, no turn repeats an ID shown before. |
| SessionRecord.FullRecordStaysFull | internal/api/agent_handlers.go:371-396 | A full record stays full and holds every newly added ID. |
| SessionRecord.PickEligible | internal/api/agent_handlers.go:969-990 | The candidate loop takes the first hits that are neither excluded nor seen, up to the pool cap. |
| SessionRecord.PromptStaysAnswered | internal/api/agent_handlers.go:501-527 | A prompt recorded for the first time is found again, and every earlier one while the record has room. |
| SessionRecord.MarkerReadsBack | internal/api/agent_handlers.go:443-479 | A written delivery marker reads back as its event and revision. |
| SessionRecord.SanitizedIsSafe | internal/api/agent_handlers.go:87-93 | A sanitized ID holds no key separator and no white space, and sanitizing is idempotent. |
| SessionRecord.LockKeysDiffer | internal/api/agent_handlers.go:654-656 | Lock keys of different namespace, session or event differ. |
| TtlCache.EveryRunIsSafe | internal/api/overview.go:41-132 | In every interleaving: one load at a time, every value cached or answered came from a successful load or a put, and a caller that waited has the result of the flight it joined, closed after it was set. |
| TtlCache.NeverEmptyAgain | internal/api/overview.go:65-74 | A cache that has a value keeps one for ever, and from then on a get answers at once. |
| TtlCache.FailureChangesNothing | internal/api/overview.go:119-130 | After a failed load the cache holds what it held before, through any run without a put or a successful load; a get is answered with that value, or with none waits for another flight. |
| TtlCache.RefreshedExactly | internal/api/overview.go:65-74 | In every run: a get that finds no value, or one put or published at least the TTL ago, leaves a flight under way, a new one if there was none; a get of a younger value starts nothing. |
| TtlCache.ValueIsSet | internal/api/overview.go:86-128 | The value and its time are those of the last put, or publication of a load that succeeded. |
| TtlCache.ClosedOnce | internal/api/overview.go:119-130 | A flight's channel is closed at most once in any run. |
| TtlCache.Cache.Signal | internal/api/overview.go:129 | The close of `done` takes exactly the closing step. |
| TtlCache.Cache.Lookup | internal/api/overview.go:65-77 | The locked section of get takes exactly the get step: a value at once, or a flight to wait for; a flight is started exactly when none is under way and there is no value or one at least the TTL old. |
| TtlCache.Cache.Land | internal/api/overview.go:120-121 | The load's end takes exactly the load step: the result is set before the flight can be published or closed. |
| TtlCache.Cache.Finish | internal/api/overview.go:122-128 | The goroutine's locked section takes exactly the publish step. |
| Bus.EventBus.Publish | internal/bus/bus.go:41-50 | Every subscriber's buffer gets the event, or stays as it was when full. |
| Bus.EventBus.Cancel | internal/bus/bus.go:30-37 | The channel is taken out and closed once; a second call does nothing. |
| Bus.NeverSendsOnClosed | internal/bus/bus.go:25-50 | With publishes and cancels interleaved under the read-write lock, no event is sent on a closed channel. |
| Bus.ClosedOnce | internal/bus/bus.go:30-37 | In any run a channel is closed at most once, however often it is cancelled. |
| A2AMap.Itoa | internal/a2a/map.go:116-136 | The digits written from the end of the 20-byte buffer are the decimal numeral, and never leave the buffer. |
| A2AMap.DecimalReadsBack | internal/a2a/map.go:116-136 | The numeral has at most 20 characters and reads back as the number, exactly unless that is the least 64-bit integer. |
| A2AMap.ArtifactsDistinct | internal/a2a/map.go:38-114 | With increasing sequence numbers no artifact id occurs twice in a task view. |
| A2AMap.ArtifactsGrow | internal/a2a/map.go:38-75 | Later events leave the artifacts of earlier ones as they were, in front. |
| A2AMap.TaskFromLedger | internal/a2a/map.go:38-75 | The artifacts of all findings with a body, and the last messages up to the limit. |
| A2AStream.RunStream | internal/api/a2a_rpc.go:242-321 | The snapshot and the select loop write exactly the frames that folding one turn at a time gives, up to the first failed write. |
| A2AFrames.FramesTellAll | internal/api/a2a_rpc.go:242-321 | The snapshot comes first; then the client is told exactly the statuses of the task's notices up to the first terminal one and sent exactly the artifacts the logs read show, or a first part if a write failed; a status frame is final exactly for completed, failed and canceled, and the stream ends exactly then. |
| A2AProtocol.EveryStreamIsSound | internal/api/a2a_rpc.go:242-321 | In every interleaving with the ledger: no artifact goes out twice; a final frame is the last and reports the ledger's own status. |
| A2AProtocol.TerminalIsNotMissed | internal/api/a2a_rpc.go:199-237 | Because subscribing precedes the snapshot, a stream with nothing left to read has missed no terminal status unless its channel overflowed. |
| A2AProtocol.FinalLeavesNothing | internal/api/a2a_rpc.go:289-318 | A final update whose ledger read succeeded leaves no finding unsent. |
| StreamLimits.CountsAreSlots | internal/api/limits.go:156-248 | In every interleaving each count is the number of slots held or in transit and within its limit, and a refused handler holds none. |
| StreamLimits.OnlyEmptyAddressLeaks | internal/api/limits.go:241-248 | When all handlers have left, a count remains exactly for the empty address, if it was ever admitted. |
| StreamLimits.Allocator.AcquireStream | internal/api/limits.go:224-237 | Both slots are taken exactly when both limits allow it; otherwise both counts are as before. |
| StreamLimits.Allocator.ReleaseStream | internal/api/limits.go:241-248 | Each slot that was taken is given back, each empty key skipped. |
| StreamLimits.ReleaseStopsAtZero | internal/api/limits.go:182-191 | A release takes one from its own key's count and stops at zero. |
| Task.TerminalIsFinal | internal/task/task.go:41-49 | A status is terminal on the wire exactly when the ledger has no move out of it. |
| Ledger.TaskLedger.Spend | internal/task/budget.go:30-92 | The amount is booked; over the cap it is logged and a working task parked; a failed charge changes nothing. |
| Ledger.TaskLedger.SetStatus | internal/task/ledger.go:364-392 | A status changes only along an allowed move, with its event appended. |
| Ledger.FamilyIsBounded | internal/agent/runtime.go:515-566 | A family is two generations deep, has at most k children, and is granted at most B + k * floor(B / 2) tokens. |
| Ledger.GrantIsACap | internal/agent/runtime.go:540-552 | A child's grant of tokens, or of tool calls, is a cap exactly when its parent had at least two of them left. |
| Findings.ValidateFinding | internal/agent/finding.go:56-74 | A finding is accepted exactly when its summary, confidence and evidence hold up against the calls that happened, and the first failing rule is named. |
| Findings.FencedObjectIsFound | internal/agent/finding.go:33-52 | An object without a fence in it, in a fenced block, is found whatever stands after the block and whatever lines without a fence stand before it. |
| Findings.ProseObjectIsFound | internal/agent/finding.go:33-52 | An object in prose without braces and fences is found. |
| Toolset.AllowedExactly | internal/agent/runtime.go:108-156 | A tool is allowed exactly when the pool has it, the agent's list matches it and the skills' declared surface, if any, matches it too, or it is a built-in that is provided. |
| Toolset.AllowedTools | internal/agent/runtime.go:108-156 | The loops compute that list. |
| Toolset.MatchesExactly | internal/agent/runtime.go:90-103 | A pattern that ends in a star allows what begins with the rest of it, any other only its own name, besides what path.Match takes it for. |
| Toolset.OnlyNamed | internal/agent/runtime.go:90-156 | Without stars, and where path.Match takes each pattern only for itself, an allowed tool that is no built-in is on the agent's list by name. |
| Runtime.Runtime.RunTask | internal/agent/runtime.go:160-357 | For every model, tools and store failures: a nil error means completed or input_required; completed means exactly one finding of this run, supported by this run's calls; parked means none, and an excuse: no client, the daily allowance, a budget, the clock, no reply, or every iteration used; other tasks that existed are untouched and new ones are children; every execution was permitted for the task's own agent and paid, and every proposal left is one that agent's policy asks for. Without store failures the error is nil exactly for a working task, or a submitted one with a known agent; an unassigned task is parked exactly when its status allows it and both store calls succeed; any other task is left as it is. |
| Runtime.Runtime.Park | internal/agent/runtime.go:79-85 | Parking succeeds exactly when the status allows the move and neither the append nor the move fails, and then moves only this task's status. |
| Runtime.Runtime.Iterate | internal/agent/runtime.go:227-355 | One iteration ends the run with the task completed only for a reply without tool requests whose content is an accepted finding, and parked only when a budget, the clock or the model stops it; such a finding never lets the loop go on. |
| Runtime.Runtime.Finish | internal/agent/runtime.go:335-346 | An accepted finding is recorded and completes the task, unless a store operation fails. |
| Runtime.Runtime.Dispatch | internal/agent/runtime.go:277-293 | A requested tool is executed exactly when the task's own agent is permitted it and, for a memory tool, there is a memory; one proposal is appended exactly when the tool is allowed and external, its verdict is Propose and the store answers; anything else leaves neither. |
| Runtime.Runtime.ProposeAction | internal/agent/runtime.go:432-454 | One proposal of this tool is recorded in the task's log if the store answers, and otherwise none; nothing is executed. |
| Runtime.Runtime.Spawn | internal/agent/runtime.go:515-607 | A delegation leaves the parent's row alone, terminates, keeps the ledger's family bounds, and enters only a child of this parent with the requested agent; arguments that name no known agent change nothing. |
| Runtime.Runtime.Grant | internal/agent/runtime.go:540-562 | The child's budget is half of what the parent had left when its run began, with no subagents. |
| Runtime.Runtime.PayCall | internal/agent/runtime.go:262-269 | A tool call goes on only after its payment was booked within the cap; otherwise the task is parked or the run fails. |
| Investigation.ExecutionsWithinCap | internal/agent/runtime.go:262-293 | A task never executes more tools than its tool-call cap. |
| Investigation.ExecutedIsPermitted | internal/agent/runtime.go:196-203 | Whatever was executed for a task was on the allowlist of that task's own agent, allowed by its policy, and paid for just before. |
| Investigation.ProposalsAreDue | internal/agent/runtime.go:277-291 | Every proposal that a run adds to a log belongs to a request of that task, paid for just before, of an allowlisted tool for which the policy of the task's own agent asks for approval; a denied tool leaves none. |
| Investigation.KindsExactly | internal/agent/runtime.go:277-282 | Spawning and memory tools are exactly the four built-in names. |
| Investigation.CompletedIsSupported | internal/agent/runtime.go:323-346 | The run of a completed task recorded one finding, and every number it cites names one entry of the whole log: a tool call of this run, before the finding. |
| WordPiece.EncodeRoundTrip | internal/embedlocal/wordpiece.go:125-189 | Regrouping the pieces that Encode's ids stand for gives back the words, whose concatenation is the normalised text without spaces. |
| WordPiece.IdsDetermineWords | internal/embedlocal/wordpiece.go:150-189 | Two texts with the same ids have the same words. |
| WordPiece.MatchEnd | internal/embedlocal/wordpiece.go:162-176 | The match found is in the vocabulary and no longer piece at that position is. |
| WordPiece.EncodeWord | internal/embedlocal/wordpiece.go:156-182 | The nested loops compute the greedy pieces, or find that none fits. |
| WordPiece.EncodeWords | internal/embedlocal/wordpiece.go:150-189 | The loop over the words computes the ids. |
| WordPiece.WordIdsExactly | internal/embedlocal/wordpiece.go:150-189 | A word within the length limit that can be cut into pieces, each the longest in the vocabulary from where it begins, has the ids of these pieces; any other is one unknown. |
| WordPiece.Normalize | internal/embedlocal/wordpiece.go:90-121 | The rune loop computes the cleaned text. |
| WordPiece.PreTokenize | internal/embedlocal/wordpiece.go:125-147 | The splitting loop computes the words. |
| WordPiece.WordsHoldText | internal/embedlocal/wordpiece.go:125-147 | The words hold the text without its spaces, in order. |
| WordPiece.WordsAreTokens | internal/embedlocal/wordpiece.go:125-147 | A word is one punctuation mark, or holds neither space nor punctuation. |
| WordPiece.CleanedKeeps | internal/embedlocal/wordpiece.go:90-108 | Cleaning drops controls and white space and keeps every other character in order. |
| WordPiece.IdeographIsAWord | internal/embedlocal/wordpiece.go:72-108 | With ideographs set apart, a character of any CJK block is a word of its own, whatever stands around it. |
| WordPiece.IdsPerChar | internal/embedlocal/wordpiece.go:150-189 | There is at most one id per visible character. |
| BaseURL.CanonicalBaseURL | internal/hookcli/credentials.go:171-260 | The loops and branches compute the canonical form, or refuse. |
| BaseURL.CanonicalIsStable | internal/hookcli/credentials.go:171-260 | Canonicalising an accepted URL's canonical form gives it back, for any reader of addresses that is stable on its own output. |
| BaseURL.PortSpellingsAgree | internal/hookcli/credentials.go:186-198 | Every spelling of a port gives one URL, and every spelling of the default port gives the URL without one. |
| BaseGrammar.AcceptedExactly | internal/hookcli/credentials.go:160-260 | A text is accepted exactly when it is http or https, in any case, a bracketed IPv6 address, a dotted-decimal IPv4 address or a DNS name, perhaps a port from 1 to 65535, and a path of plain characters and escapes without dot segments. |
| BaseGrammar.SpelledAccepted | internal/hookcli/credentials.go:171-260 | What such a text is turned into, part by part. |
| BasePaths.PathExactly | internal/hookcli/credentials.go:242-257 | A path is accepted exactly when its characters and escapes are allowed and no segment between slashes is one or two dots. |
| BasePaths.DotsExactly | internal/hookcli/credentials.go:251-256 | The refused segments are exactly one dot or two, each written as a dot, `%2e` or `%2E`. |
| BasePaths.NoDotSegments | internal/hookcli/credentials.go:251-256 | So no segment of an accepted URL's path is a dot segment in any spelling. |
| IPv6.UrlIsStable | internal/hookcli/credentials.go:171-260 | The same without an assumption, with the addresses read and printed here. |
| IPv6.PrintReadsBack | internal/hookcli/credentials.go:200-211 | Every address of eight groups is read back from its canonical text. |
| IPv6.OneTextPerAddress | internal/hookcli/credentials.go:200-211 | Two texts have one canonical form exactly when they are one address. |
| IPv6.PrintExactly | internal/hookcli/credentials.go:200-216 | The double colon stands for the first of the longest runs of two zero groups or more, and is not used where there is none. |
| Credentials.SavedKeyGoesHome | internal/hookcli/credentials.go:267-315 | Without an explicit key, a key is sent exactly when a valid file holds one, the selected and saved URLs have one canonical form, and it is not plain http to another host. |
| Credentials.SentKeyIsTheSavedOne | internal/hookcli/credentials.go:298-314 | The key sent is the file's, to the file's own canonical URL. |
| Credentials.CleartextIsRefused | internal/hookcli/credentials.go:298-310 | A saved key for the selected server is refused exactly when it would cross the network in clear text. |
| Loopbacks.QuadIsLocal | internal/hookcli/credentials.go:60-77 | A dotted-decimal host is the local machine exactly when its first number is 127. |
| Loopbacks.NameIsLocal | internal/hookcli/credentials.go:60-77 | A DNS name is exactly when it is localhost, in any case, with at most one final dot. |
| Loopbacks.BracketIsLocal | internal/hookcli/credentials.go:60-77 | A bracketed address is exactly when its groups are seven zeros and a one, however it is written. |
| Loopbacks.IPv4Exactly | internal/hookcli/credentials.go:219-230 | The IPv4 hosts are exactly four numbers up to 255 in decimal without leading zeros. |
| Loopbacks.CleartextExactly | internal/hookcli/credentials.go:298-310 | A URL is clear text over the network exactly when its scheme is http and the host it writes is none of these. |
| Loopbacks.SavedKeyNeverInClear | internal/hookcli/credentials.go:298-310 | Where the selected server is the saved one, the saved key is refused exactly for such a URL and sent otherwise. |
| Credentials.ExplicitKeyWins | internal/hookcli/credentials.go:267-300 | An explicit key is the one that is sent, whatever key is saved; beside an explicit URL the file makes no difference at all. |
| Credentials.ResolvedIsCanonical | internal/hookcli/credentials.go:267-315 | Whatever URL is resolved is its own canonical form. |
| Credentials.MismatchExactly | internal/hookcli/credentials.go:298-314 | A mismatch is reported exactly when no explicit key is given and a readable file holds a key for another server, and then no key is sent. |
| BaseGrammar.NothingNamed | internal/hookcli/credentials.go:267-300 | With nothing named and nothing saved a command talks to http://localhost:9090 with the key it was given. |
| Credentials.ResolveServer | internal/hookcli/credentials.go:267-315 | The branches resolve as specified. |
| ClineReply.ReplyFits | internal/hookcli/hookcli_cline.go:59-83 | The reply is at most 50,000 bytes, starts with what survives of memory and ends with the whole inbox; valid memory is cut to its longest valid prefix that fits, at most three bytes short of the room. |
| ClineReply.ReplyUnits | internal/hookcli/hookcli_cline.go:64-75 | Hence the reply is valid and within 50,000 UTF-16 units. |
| ClineReply.MergeReply | internal/hookcli/hookcli_cline.go:59-83 | The write is refused exactly when the inbox alone leaves no room, and otherwise merges as specified. |
| HookMerge.MergeGroups | internal/hookcli/connect.go:371-404 | The loops drop the own groups and place the fresh one before the first anchor, or last. |
| HookMerge.MergeTwice | internal/hookcli/connect.go:371-404 | One merge repeated changes nothing. |
| HookMerge.TwoRunsSettle | internal/hookcli/connect.go:96-124 | Whatever the list, two runs of capture and inbox reach a fixpoint. |
| HookMerge.OneRunExactly | internal/hookcli/connect.go:96-124 | One run is enough exactly under a condition on the starting list. |
| HookMerge.FreshListSettlesAtOnce | internal/hookcli/connect.go:96-124 | Without any inbox or wake group at the start one run is enough. |
| HookMerge.RunKeepsUsers | internal/hookcli/connect.go:371-404 | Other groups keep their order, and exactly the fresh capture and inbox groups remain of their kinds. |
| HookMerge.RunWakeKeepsUsers | internal/hookcli/wake_connect.go:179-196 | The same with the wake bridge, for all three kinds, the wake group last. |
| HookMerge.ThreeRunsSettle | internal/hookcli/wake_connect.go:179-196 | With the wake bridge three runs reach a fixpoint. |
| HookMerge.TwoRunsExactly | internal/hookcli/wake_connect.go:179-196 | With the wake bridge two runs reach a fixpoint exactly under a condition on the starting list: no group has to pass punk's inbox group once its wake groups are at the end. |
| HookMerge.ConnectSettles | internal/hookcli/connect.go:192-236 | A connect run, which keeps a bridge that is there: three settle any list, and two exactly without a bridge or under that condition. |
| HookMerge.ThreeRunsNeeded | internal/hookcli/wake_connect.go:179-196 | A concrete list needs all three. |
| HookCommands.CaptureIsRecognised | internal/hookcli/connect.go:340-364 | Every command punkHookCommandFrom builds is recognised, quoted paths included. |
| HookCommands.ClientIsRecognised | internal/hookcli/inbox_wire.go:30-96 | Every inbox and wake command is recognised as one of its client. |
| HookCommands.ClientIsNotCapture | internal/hookcli/connect.go:488-526 | No inbox or wake command is taken for a capture command. |
| HookCommands.SubIsAny | internal/hookcli/connect.go:408-428 | A recognised inbox or wake command also looks like one of any client. |
| HookCommands.GroupIs | internal/hookcli/connect.go:435-455 | The loop over a group's hooks finds whether all of them are of one kind. |
| HookCommands.RealGroupsAreLawful | internal/hookcli/connect.go:192-262 | The groups of a real run meet the assumptions of the convergence theorems, unless one command contains the phrase of another kind. |
| HermesAllowlist.MergeAllowlist | internal/hookcli/connect_hermes_allowlist.go:122-161 | The two loops over the matched array compute the merge. |
| HermesAllowlist.ExactOwnership | internal/hookcli/connect_hermes_allowlist.go:122-161 | Afterwards punk's approvals are exactly the wired pairs, each once, and every other entry is there in its order. |
| HermesAllowlist.UnchangedExactly | internal/hookcli/connect_hermes_allowlist.go:122-170 | A run changes nothing exactly when the list already owns each wired pair once and no other. |
| HermesAllowlist.SecondRunChangesNothing | internal/hookcli/connect_hermes_allowlist.go:122-170 | A second run at any later time changes nothing. |
| HermesAllowlist.DesiredIsFine | internal/hookcli/connect_hermes_allowlist.go:180-202 | The wired pairs are distinct and each is recognised on the next run. |

## Left out

Statements that are weaker than they could be, or rest on an assumption:

- CodexEdit.SecondRunChangesNothing: assumes that no value written into the block holds the end marker; such a value ends the block early for the next run.
- CodexMerge.HeaderAuthExactly: assumes that no environment variable has an empty name.
- DeliveryProtocol.SameAnswersAreSeparated: speaks of runs in which no store operation or grant failed and no marker expired; suppression needs no such assumption.
- SessionRecord.NoTurnRepeats: speaks of one request after another; turns with different prompt ids do not exclude each other.
- Runtime.Runtime.RunTask: assumes that nobody else moves the same task during the run, so cancels, the lease reaper and a second runner of the task are not modelled.
- WordPiece.EncodeRoundTrip: assumes a continuation prefix of two marks or more that starts with punctuation, as the default "##" does, and no word that falls back to the unknown token.
- HookMerge.ConnectSettles: speaks of lists that inbox messaging is on for; without it only the capture merge, or that and the wake merge, runs.
- HookCommands.RealGroupsAreLawful: a path, URL, namespace or flag that itself contains a phrase such as " hook inbox --client " is excluded.
- IPv6.UrlIsStable: net/netip is not part of the repository; its reader and printer are modelled from section 2.2 of RFC 4291 and section 4 of RFC 5952.
- A2AProtocol.TerminalIsNotMissed: one stream and its own channel; other subscribers appear as the notices they cause. One turn of a stream, from its ledger reads to its last write, is a single step.
- A2AProtocol.FinalLeavesNothing: the task row and the events of one turn are read together, where the code reads one after the other.

How the model stands to the code:

- Go works on UTF-8 bytes; outside ClineReply the model works on scalar values, so texts that are not valid UTF-8 are not modelled.
- Lower-casing covers ASCII, the alphabet of header names, hosts and URLs; the tokenizer's lower-casing and accent stripping is a parameter.
- Sections under a Go mutex are single steps; a read-write lock is modelled where its sharing matters (Bus).
- The smaller parsing helpers of the configuration engine (key paths, table headers, array elements, inline keys, value folding) are recursive functions although the code loops; the string scanner, the bracket scan, the pair loop, the line scanner and the line loop are methods.
- Go's regular expressions, path.Match, encoding/json and net/url are replaced by explicit scans, by a parameter, or by the grammar of the inputs the code lets through.
- Error texts, log lines, file modes, symlinks and atomic renames are not modelled; a refusal is a value that names its reason.
- Prompt texts, tool results and the turns given to the model are not modelled: the model's answers are arbitrary.
- A missing configuration file, and the scope's file name, belong to the caller of the inspector.
- SHA-256 revisions are opaque texts; assembling a context block, its token budget and its ranking are not modelled.
- The per-turn delivered-prompts record appears only as a record (PromptStaysAnswered), not as a protocol.
- The Claude Code, Cursor, Copilot, Antigravity and Hermes YAML writers, the hook-scope deduplication, the overview totals, rate limiting, proxy address parsing and all HTTP handlers would add only easy members.
