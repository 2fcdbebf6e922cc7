# Housebot: a verified model of its stateful and textual engines

Housebot is a Discord assistant written in Rust. Around its Discord, Docker and HTTP
glue sit a number of small engines whose promises are unbounded: a priority scheduler
for model requests, an agent loop over an append-only history, a secret redactor, a
printer and parser of `SKILL.md` files, a streaming decoder, rate limiters, a session
map with a reaper, a cached configuration store, a message buffer, a memory ranker and
several text tools. This project models those engines in Dafny and proves what they
promise, for every input and every run.

Verify it with `dafny verify dfyconfig.toml`.

## How it is organised

| files | what they model |
|---|---|
| `Counting`, `LlmSchedulerProtocol`, `LlmSchedulerTheorems`, `LlmScheduler` | the priority semaphore as labelled steps of the threads that share it, what holds of every interleaving, and the object whose methods are proved to be runs of those steps |
| `AgentLoop`, `TurnRounds`, `History` | one user turn, what its rounds leave in the messages, the session lifecycle, and the history file under them |
| `Text`, `Splitting`, `Lines`, `Trimming` | text search and leftmost replacement, cutting a text at separators and into lines, and white space |
| `Redactor`, `FileEdit`, `ShellQuoting`, `WorkspacePath` | the four tools built on text search |
| `Frontmatter`, `SkillFile`, `SkillRoundTrip` | the `SKILL.md` printer and parser, and exactly which skills survive both |
| `Utf8`, `ChatStream`, `StreamRoundTrip` | lossy decoding by network chunk, the line buffer, the delta accumulator, and the server's side of them |
| `RateLimiter` | the evicting per-user limiter and the blocking slot limiter, over one theory of sliding windows |
| `ChannelContext` | the per-channel message buffer against the full log it stands for |
| `SandboxSessions` | the sandbox daemon's session map, its handlers and its reaper |
| `AccessControlStore` | the cached store with serialized updates and unserialized loads |
| `Memory` | grouping memory lines into entries, and ranking them |
| `Formatting` | message splitting, fences, and token counts |

Concurrent components are state machines: a step is what one thread does without being
interrupted, and a run is any sequence of enabled steps. The objects over them (the
scheduler, the sandbox daemon, the access-control store) are proved to make only such
steps, and let arbitrary steps of others happen wherever the code gives up its lock or
shares a channel (methods called `Interfere`); the slot limiter lets other callers in while
one sleeps (`Others`). Clocks, random ids, file and network failures, the regex engine, the
JSON codec, the logarithm and Unicode case and word tables are parameters.

## Where the code and its own description part

The model follows the code in each of these.

- `emit_scalar` says that a value with a colon survives a round trip
  (`crates/skills/src/frontmatter.rs:84-85`); `unquote` (lines 74-82) does not undo its
  escapes, so a value that needs quotes and holds `\` or `"` does not.
  `SkillRoundTrip.QuotedDescriptionIsLost` is an example and `SkillRoundTrip.SkillRoundTrip`
  the exact domain.
- `redact` says it replaces every known secret (`crates/bot-response/src/lib.rs:35`), and
  takes a pass that gives the text back for a stable one (lines 46-48). A secret that is
  part of the mask `[REDACTED]` survives once anything was masked. So may others: one
  replacement can undo another, and then a secret outside the mask stays in clear, as
  `Redactor.TwoSecretsSurvive` shows for a set of two. `Redactor.Survivors` says exactly which
  secrets survive, for any set and any text; `Redactor.CircularIsBalanced` that the second
  case needs secrets that, each taken a number of times, have together the characters of as
  many masks; and `Redactor.UnbalancedSurvivors` what is left for all other sets. Sets whose
  secrets all lack one bracket, are all longer than the mask, are all shorter, or are no
  longer than it with those as long lacking one bracket, are such sets.
- `search` says its results are capped at `max_results`
  (`crates/channel-context/src/lib.rs:92-93`); with zero it returns every match.
- A network chunk is decoded on its own (`crates/llm/src/lib.rs:452`), so a character cut
  in two is lost: `Utf8.ChunkedDecoding` says exactly when, `Utf8.SplitCharacterIsLost`
  is an example.
- `handle_start` gives up the lock between its check and its insert
  (`crates/sandbox/src/server.rs:214-236`), so two overlapping starts of a session can make
  two containers. `SandboxProtocol.UniqueStep` and `UniqueFromStart` say which step does it
  and exactly which runs have it; `OverlapGoesOn` that every overlap may lead there;
  `OneContainerPerSession` that starts which do not overlap never do.
- The cache of the access-control store is described as the last successfully loaded
  snapshot (`crates/bot-config/src/lib.rs:480-481`). A load that fetches before a save and
  refills after it puts the older value back for up to the cache's lifetime:
  `AccessProtocol.StaleRefill` is a run, `OvertakenRefill` says exactly when a refill does
  this, and `CacheStaysCurrent` that only such refills, and saves that wrote and still
  failed, leave the cache behind.
- `check_at` says that hits are pushed in order (`crates/rate-limit/src/lib.rs:29-31`), but
  the time is read before the lock (lines 23-28). When threads take the lock in another
  order a live hit can be forgotten: `RateLimiting.OutOfOrderForgets` is a run of three
  attempts. `RememberedUntilOutlived` says, for any order of times, that an accepted hit is
  remembered until an attempt outlives it: one at which the newest hit of its user has
  expired, or one of the user's own at which the hit itself has. `DecisionDiffers` says that
  the decision is never stricter than the complete log's, and differs from it exactly when
  fewer than `max` hits have lasted although `max` are live; while times come in order
  (`InOrderDecision`) it is the same.
- A compaction that succeeds in making a summary returns true even when the old file was
  removed and the new one could not be written (`src/agent/session.rs:94-114`): the
  history is then empty. `AgentObject.Compacted` has this case.
- A history file that cannot be read counts as empty (`crates/history/src/lib.rs:40-43`),
  and a run then writes a new one over it; `AgentObject.AfterRun` has this case. When any of
  a turn's file operations fails, the next prompt need not be an extension of this one:
  `AgentObject.NextPromptExtends` says exactly when it is, for every combination.

## Model

| member | source | states |
|---|---|---|
| LlmSchedulerProtocol.InvStep | crates/llm-scheduler/src/lib.rs:100-190 | every step of every thread, pump micro-steps and cancellations included, keeps the slot count, the queues and the pump's position consistent |
| LlmSchedulerProtocol.InvRun | crates/llm-scheduler/src/lib.rs:86-216 | so does every run |
| LlmSchedulerProtocol.InvSend | crates/llm-scheduler/src/lib.rs:178-188 | a send that meets a cancelled waiter gives its slot back, and one that does not hands it over |
| LlmSchedulerProtocol.InvScan | crates/llm-scheduler/src/lib.rs:169-178 | dropping closed senders and popping the front strands no live waiter, although waiters are cancelled meanwhile |
| LlmSchedulerProtocol.InvInterference | crates/llm-scheduler/src/lib.rs:98-115 | a cancellation, before or after the permit is in the channel, leaves no slot reserved for nobody |
| LlmSchedulerTheorems.SlotsAreConserved | crates/llm-scheduler/src/lib.rs:100-190 | in every reachable state `inflight` is the number of live permits, no release underflows it, a free slot under the lock means both queues are empty, and no live waiter's sender is dropped unsent |
| LlmSchedulerTheorems.WaitersWaitOnAPermit | crates/llm-scheduler/src/lib.rs:114-114 | while anyone waits, somebody holds a permit |
| LlmSchedulerTheorems.OnlyBelowCeiling | crates/llm-scheduler/src/lib.rs:147-154 | a slot is only ever taken below the ceiling, so a surplus never grows |
| LlmSchedulerTheorems.NeverAboveTheCeiling | crates/llm-scheduler/src/lib.rs:147-154 | over a run, `inflight` ends no higher than it began or than the highest ceiling set |
| LlmSchedulerTheorems.PermitsBounded | crates/llm-scheduler/src/lib.rs:86-190 | from a fresh scheduler live permits never outnumber the highest ceiling so far |
| LlmSchedulerTheorems.GrantsInOrder | crates/llm-scheduler/src/lib.rs:72-75 | a slot goes to the oldest live waiter of the highest class that has one, and an arrival that need not queue overtakes no live waiter |
| LlmSchedulerTheorems.PumpStepDecreases | crates/llm-scheduler/src/lib.rs:167-190 | every micro-step of the pump comes nearer its end |
| LlmSchedulerTheorems.PumpTerminates | crates/llm-scheduler/src/lib.rs:167-190 | whatever waiters do meanwhile, a pump ends after a bounded number of steps and is never stuck before |
| LlmSchedulerTheorems.PotentialRun | crates/llm-scheduler/src/lib.rs:160-190 | over any run each release moves a waiting request one place nearer a slot, paying only for a lowered ceiling and, if it is a background request, for user-chat requests queued since |
| LlmSchedulerTheorems.BoundedWaiting | crates/llm-scheduler/src/lib.rs:72-75 | a queued request of either class is granted once the releases outnumber the waiters with a claim before it, the surplus, what the ceiling was lowered by and, for a background request, the user-chat requests queued since |
| LlmSchedulerObject.LlmScheduler.constructor | crates/llm-scheduler/src/lib.rs:87-96 | a new scheduler is the initial state |
| LlmSchedulerObject.LlmScheduler.Acquire | crates/llm-scheduler/src/lib.rs:100-115 | a request takes a free slot at once or joins the back of its queue |
| LlmSchedulerObject.LlmScheduler.Release | crates/llm-scheduler/src/lib.rs:160-164 | a dropped permit gives its slot back and pumps, as a run of protocol steps |
| LlmSchedulerObject.LlmScheduler.SetMaxInflight | crates/llm-scheduler/src/lib.rs:149-154 | the ceiling changes and the pump runs, as a run of protocol steps |
| LlmSchedulerObject.LlmScheduler.Pump | crates/llm-scheduler/src/lib.rs:167-190 | the loop is a run of pump micro-steps, interleaved with any channel events, that ends unlocked |
| LlmSchedulerObject.LlmScheduler.Retain | crates/llm-scheduler/src/lib.rs:170-170 | the liveness scan of one queue, entry by entry |
| LlmSchedulerObject.LlmScheduler.Grant | crates/llm-scheduler/src/lib.rs:175-188 | pop, reserve, send, and reclaim when the waiter is gone |
| AgentTurn.CallsBounded | src/agent/run.rs:121-129 | a turn calls the model at most `max_tool_rounds` times, and exactly that often when the bound ends it |
| AgentTurn.TranscriptPaired | src/agent/run.rs:229-275 | on every exit each tool call is followed at once, in order, by its one result |
| AgentTurn.NextTurnExtends | src/agent/run.rs:88-105 | the next turn sends exactly the list this turn ended with, and then the new request, although history keeps metadata the model never saw |
| AgentTurn.PrefixOnlyGrows | src/agent/run.rs:88-105 | over any number of turns, what any turn held is a prefix of what any later turn sends |
| AgentTurn.LostAppend | src/agent/run.rs:278-285 | when the context is on file and the append is lost, the next list extends this one exactly when the turn added nothing and the user says the same |
| AgentObject.NextPromptExtends | src/agent/run.rs:72-105 | for every outcome of loading, saving the context and appending: the next list extends this one if and only if a condition on those outcomes, the two contexts and the two requests holds; over a file that was not read and not overwritten, that it begins with this context and turn, or is this context alone and the turn was appended or is repeated |
| AgentTurn.StoredPaired | src/agent/run.rs:72-86 | prepending the session context and storing a turn keep a paired history paired |
| TurnRounds.EveryRoundStands | src/agent/run.rs:229-267 | in a list that ends with a turn, on every exit, the reply of each answered round carries that round's content and calls, and behind it stands, call by call, the output of that very call |
| TurnRounds.TurnStops | src/agent/run.rs:121-276 | a turn stops in the first round that does not go on, or at the bound; exit, number of messages, usages and model calls are those of its rounds |
| TurnRounds.SentIsSeen | src/agent/run.rs:72-105 | the list sent is the system prompt, the skills, the session context if the history lacks one, every message of the history without its metadata, and the request |
| TurnRounds.SessionContextIs | src/agent/prompt.rs:266-270 | a session context is a plain text that begins with the header |
| AgentObject.Agent.RunRounds | src/agent/run.rs:121-276 | the tool loop adds the turn's transcript to both message lists, ends as it ends, and records every usage |
| AgentObject.Agent.NextRound | src/agent/run.rs:216-266 | one turn of the loop pushes the same messages to both lists |
| AgentObject.Agent.RunRound | src/agent/run.rs:131-275 | one round: cancellation before, during or after the call, failure, answer, tools, rate limit |
| AgentObject.Agent.RunTools | src/agent/run.rs:229-271 | every call of a batch is followed by a result with its own id and its own output before a rate limit stops the loop |
| AgentObject.Agent.Open | src/agent/run.rs:37-70 | history is loaded, and compacted first when the context is nine tenths full; a successful compaction ends the active conversation, and nobody else's |
| AgentObject.Agent.Prepare | src/agent/run.rs:72-86 | a history without a session context gets one in front, saved if that works |
| AgentObject.Agent.Finish | src/agent/run.rs:278-285 | the finished turn is appended, and history stays paired |
| AgentObject.Agent.Run | src/agent/run.rs:9-304 | a whole turn, for every combination of file failures and with or without compaction: the lists sent and held, message by message, every round in them and in the file with its own calls and outputs, how it ends, the counters, the file left, other users untouched, every history still paired |
| AgentObject.RunStores | src/agent/run.rs:72-105 | with no file failure, what a run leaves is the history the prefix property is about |
| AgentObject.Agent.RecordUsage | src/agent/session.rs:246-266 | counters are created on demand and added to |
| AgentObject.CountersAddUp | src/agent/session.rs:259-265 | requests are counted, tokens added up, the context is that of the last prompt, and nobody else's counters change |
| AgentObject.Agent.CurrentConversation | src/agent/session.rs:208-235 | an active conversation is kept, or a new one made |
| AgentObject.Agent.ResetSession | src/agent/session.rs:10-14 | exactly this user's counters, conversation and, if the file can be removed, history are gone |
| AgentObject.Agent.Summarize | src/agent/session.rs:53-74 | the request for a summary leaves no trace in the counters |
| AgentObject.Agent.StartOver | src/agent/session.rs:93-109 | clear then save, for every combination of failures |
| AgentObject.Agent.CompactSession | src/agent/session.rs:23-115 | true exactly when there was nothing to compact or a summary that says something; false leaves file and counters as they were; after a success the summary's text is in a request on file, if the file could be written; other users' histories, counters and conversations stay |
| Messages.PairedConcat | src/agent/run.rs:229-232 | paired histories one after the other are paired |
| HistoryFile.RoundTrip | crates/history/src/lib.rs:38-64 | a saved file is loaded back as the same messages |
| HistoryFile.OtherLinesRead | crates/history/src/lib.rs:44-48 | a line that is blank or does not decode costs no other line its message |
| HistoryFile.History.Load | crates/history/src/lib.rs:38-49 | a missing or unreadable file counts as empty |
| HistoryFile.History.Save | crates/history/src/lib.rs:52-64 | a save replaces one user's messages, or fails and changes nothing |
| HistoryFile.History.Clear | crates/history/src/lib.rs:67-73 | a clear empties one user's messages, or fails and changes nothing |
| HistoryFile.History.AppendTurn | crates/history/src/lib.rs:76-87 | history grows by the turn and is never trimmed |
| Redactor.Redact | crates/bot-response/src/lib.rs:36-53 | the bounded loop: passes until nothing changes, and the bare mask if sixteen do not settle |
| Redactor.SixteenPasses | crates/bot-response/src/lib.rs:41-52 | the output is the text after the first pass that changes nothing, and the mask alone if sixteen passes each change it |
| Redactor.FromVars | crates/bot-response/src/lib.rs:18-33 | the secrets are exactly the values of eight bytes or more under a telling name, longest first |
| Redactor.SecretsAreNamed | crates/bot-response/src/lib.rs:8-27 | a value is a secret if and only if it has eight bytes and a name in which, in lower case, one of the six words occurs |
| Redactor.LoneSecret | crates/bot-response/src/lib.rs:36-53 | for every text, a lone secret survives if and only if the text held it and it is a substring of the mask |
| Redactor.Survivors | crates/bot-response/src/lib.rs:36-53 | for any secrets and any text, a secret survives if and only if it is inside the mask and the text held some secret, or one of the sixteen passes meets a text that holds it and in which the replacements undo each other |
| Redactor.CircularIsBalanced | crates/bot-response/src/lib.rs:44-50 | a text whose secrets a pass replaces and restores needs secrets that balance: taken so many times, they have the characters of as many masks |
| Redactor.UnbalancedSurvivors | crates/bot-response/src/lib.rs:36-53 | for secrets that do not balance, a secret survives if and only if it is inside the mask and the text held any of them |
| Redactor.OneBracketMissing | crates/bot-response/src/lib.rs:37-40 | secrets that all lack one of the brackets do not balance |
| Redactor.OneSidedLengths | crates/bot-response/src/lib.rs:37-40 | nor do secrets all longer, or all shorter, than the mask |
| Redactor.NoLongerThanMask | crates/bot-response/src/lib.rs:37-40 | nor do secrets no longer than the mask, if those as long all lack one bracket |
| Redactor.BracketFreeSurvivors | crates/bot-response/src/lib.rs:36-53 | of secrets without brackets one survives if and only if it is the masked word and the text held any of them |
| Redactor.LongSecrets | crates/bot-response/src/lib.rs:36-53 | secrets longer than the mask, brackets or not, are gone from every text |
| Redactor.TwoSecretsSurvive | crates/bot-response/src/lib.rs:46-48 | two secrets, neither inside the mask, and a text that redaction gives back with the longer one in clear |
| Redactor.PlainSecrets | crates/bot-response/src/lib.rs:36-53 | bracket-free secrets other than the masked word are all gone after one pass, the second changes nothing, and the fallback is not reached |
| Redactor.NoVariableLeaks | crates/bot-response/src/lib.rs:18-53 | a redactor built from an environment whose secret values hold no brackets removes them all, except the masked word once anything was masked |
| Text.ReplaceLength | crates/sandbox/src/server.rs:674-678 | leftmost replacement changes the length by the number of matches times the difference |
| FileEdit.EditMeaning | crates/sandbox/src/server.rs:660-684 | an edit succeeds with a text and a count if and only if the file falls apart leftmost into that many copies of the pattern, the text joins the same gaps with the replacement, and the count is one unless all were asked for |
| FileEdit.EditFailure | crates/sandbox/src/server.rs:674-683 | not found and ambiguous are reported exactly when they are so, with the right count |
| Splitting.LeftmostIsUnique | crates/sandbox/src/server.rs:674-674 | a text has one leftmost decomposition only |
| FileEdit.EditUndone | crates/sandbox/src/server.rs:662-684 | the reverse edit restores the file if and only if the replacement matches once in the result, at the edited place |
| ShellQuoting.ReadsBack | crates/sandbox/src/server.rs:875-878 | by the quoting rules of the POSIX.1-2017 Shell Command Language (2.2.1, 2.2.2) every quoted path is one word, the path itself |
| WorkspacePath.ValidateWorkspacePath | crates/sandbox/src/validation.rs:11-44 | accepted if and only if well formed and, followed by real directory steps, inside the root and within 64 levels all the way; every error is the one of the first check that fails; a path that begins with two dots is never accepted, and a path of plain names just when there are at most 64 |
| WorkspacePath.ComponentsBehind | crates/sandbox/src/validation.rs:26-26 | behind a separator a text adds its own components, whatever stands in front |
| WorkspacePath.NameBehind | crates/sandbox/src/validation.rs:34-35 | a name behind a separator is one more component |
| WorkspacePath.ParentBehind | crates/sandbox/src/validation.rs:28-28 | and two dots one step up |
| WorkspacePath.NothingBehind | crates/sandbox/src/validation.rs:40-40 | a dot or nothing behind a separator adds none |
| WorkspacePath.SinglePiece | crates/sandbox/src/validation.rs:26-40 | the texts without a separator |
| WorkspacePath.PlainPath | crates/sandbox/src/validation.rs:34-39 | plain names joined by separators are just those components |
| WorkspacePath.FollowComponents | crates/sandbox/src/validation.rs:25-42 | the depth counter is the height of the real walk, and the error says how the walk first went wrong |
| Frontmatter.Split | crates/skills/src/frontmatter.rs:12-32 | the result is a block and a body if and only if the source is an opening fence, that block, the first closing fence line, and that body |
| Frontmatter.SplitMeans | crates/skills/src/frontmatter.rs:12-32 | the same of the function the parser is built on |
| Frontmatter.ScanForFence | crates/skills/src/frontmatter.rs:20-30 | the cursor loop, which skips what it has seen, finds the first closing fence line, or there is none |
| Frontmatter.Parse | crates/skills/src/frontmatter.rs:35-72 | the line loop with its two maps: it fails at the first line that stops the parse, with that line's error, and otherwise has met none |
| Frontmatter.SkippedIs | crates/skills/src/frontmatter.rs:41-43 | the lines skipped are white space, and a hash behind white space |
| Frontmatter.StopsIs | crates/skills/src/frontmatter.rs:44-56 | of the others, those that begin with white space, hold no colon or begin with one stop the parse, each with its own error |
| Frontmatter.KeyValueRead | crates/skills/src/frontmatter.rs:50-68 | any other line is a key up to its first colon and a value, a list if it stands between brackets |
| Frontmatter.LastCounts | crates/skills/src/frontmatter.rs:66-68 | of several lines with one key the last counts |
| Frontmatter.LastListCounts | crates/skills/src/frontmatter.rs:58-65 | so for lists |
| Frontmatter.EmitScalarIs | crates/skills/src/frontmatter.rs:86-98 | which scalars are quoted |
| SkillFile.ToSkillMd | crates/skills/src/lib.rs:107-139 | what the printer pushes is the header lines between fences and the body |
| SkillFile.DocumentText | crates/skills/src/lib.rs:107-139 | the document, line by line |
| SkillFile.PushHeader | crates/skills/src/lib.rs:108-132 | each present field becomes one line, absent ones none |
| SkillFile.DecimalRoundTrip | crates/skills/src/frontmatter.rs:115-117 | every 64-bit timestamp is read back |
| SkillRoundTrip.ScalarRestored | crates/skills/src/frontmatter.rs:74-98 | a quoted scalar is read back if and only if it needs no quotes and is trimmed, or needs them and holds no backslash or double quote |
| SkillRoundTrip.ListRead | crates/skills/src/lib.rs:142-148 | a printed list of comma-free items is split into just those items |
| SkillRoundTrip.ListRestored | crates/skills/src/frontmatter.rs:58-65 | a list comes back if and only if each item is comma-free and invertible |
| SkillRoundTrip.FenceFound | crates/skills/src/frontmatter.rs:15-32 | the printer's own fence is the one found, whatever lines the body has |
| SkillRoundTrip.Lookup | crates/skills/src/frontmatter.rs:106-118 | each key of the header gives what its own line says |
| SkillRoundTrip.ReadBack | crates/skills/src/lib.rs:156-178 | what the parser makes of every printed field |
| SkillRoundTrip.NoNameRead | crates/skills/src/lib.rs:156-160 | exactly the names that are read as none and replaced by the fallback |
| SkillRoundTrip.ReadsSingleLine | crates/skills/src/frontmatter.rs:35-72 | whatever file is parsed, the metadata read is free of line breaks |
| SkillRoundTrip.SkillRoundTrip | crates/skills/src/lib.rs:106-179 | parsing a printed skill gives it back, newline-terminated and without bundled files, if and only if it is restorable; the body is arbitrary |
| SkillRoundTrip.QuotedDescriptionIsLost | crates/skills/src/frontmatter.rs:74-98 | a description with a colon and a double quote does not come back |
| SkillRoundTrip.ValidNameRestored | crates/skills/src/lib.rs:184-198 | every name that may be saved comes back |
| Utf8.LossyEncode | crates/llm/src/lib.rs:452-452 | whole characters decode to themselves whatever follows |
| Utf8.ByteLenIs | crates/sandbox/src/validation.rs:15-15 | the length of a text is that of its UTF-8 encoding |
| Utf8.Rfc3629Examples | crates/llm/src/lib.rs:452-452 | the encoding is that of the examples in section 7 of RFC 3629 |
| Utf8.ChunkedDecoding | crates/llm/src/lib.rs:450-452 | decoding by chunk restores the text if and only if no chunk begins inside a character |
| Utf8.SplitCharacterIsLost | crates/llm/src/lib.rs:452-452 | a two-byte character cut in half is lost |
| Deltas.SlotSeesItsOwn | crates/llm/src/lib.rs:341-360 | a tool slot is made of its own fragments in order, however indices interleave |
| Deltas.Accumulator.Apply | crates/llm/src/lib.rs:326-362 | after any chunks the accumulator holds the concatenated text, the slots, the last finish reason and the last usage |
| Deltas.Accumulator.ApplyToolCall | crates/llm/src/lib.rs:342-359 | one fragment extends its slot, making the slots before it |
| Deltas.Accumulator.Finish | crates/llm/src/lib.rs:364-384 | the completion of all chunks applied, without nameless slots |
| ChatStream.LinesContinue | crates/llm/src/lib.rs:453-467 | cutting off lines may stop anywhere and go on with what was left |
| ChatStream.ReceiveLine | crates/llm/src/lib.rs:454-466 | one line, skipped, ignored or applied, and shown when it adds text |
| ChatStream.DrainLines | crates/llm/src/lib.rs:453-467 | every complete line in the buffer is received once, in order |
| ChatStream.ReceiveStream | crates/llm/src/lib.rs:447-469 | completion and everything shown depend only on the decoded text, and a stream that breaks off gives no completion |
| ChatStream.CutsDoNotMatter | crates/llm/src/lib.rs:450-469 | two ways of cutting one character stream between characters give the same lines and the same completion |
| StreamRoundTrip.LineGives | crates/llm/src/lib.rs:388-394 | a line gives a chunk if and only if it carries, behind its mark and between white space, a payload that is neither empty nor the end mark and decodes to it |
| StreamRoundTrip.ServedIsParsed | crates/llm/src/lib.rs:453-460 | the chunks of a served stream are received, in order and nothing else |
| StreamRoundTrip.SentIsCompleted | crates/llm/src/lib.rs:326-384 | a completion sent in any pieces is put together again: text, calls with ids, names and arguments, the reason it ended, usage |
| StreamRoundTrip.ReceivedAsSent | crates/llm/src/lib.rs:447-469 | so however the network cuts the stream between characters |
| StreamRoundTrip.ShownAsItGrows | crates/llm/src/lib.rs:460-464 | what is shown is all of the text so far, after each piece |
| SlidingWindow.AdmitKeepsSpaced | crates/rate-limit/src/lib.rs:37-43 | admitting keeps any `max + 1` admitted events at least a window apart |
| RateLimiting.RememberedUntilOutlived | crates/rate-limit/src/lib.rs:27-42 | for attempts in any order of times, what the map holds of a user is exactly the accepted hits that no later attempt outlives |
| RateLimiting.DecisionDiffers | crates/rate-limit/src/lib.rs:27-43 | a decision counts the hits that have lasted; it is never stricter than the complete log's and differs from it if and only if too few have lasted although enough are live |
| RateLimiting.EvictionIsSafe | crates/rate-limit/src/lib.rs:29-36 | in a run whose times come in order, forgetting the users whose newest hit expired forgets nothing live of anybody |
| RateLimiting.InOrderDecision | crates/rate-limit/src/lib.rs:27-43 | as long as times come in order, an attempt is accepted if and only if the complete log has it under the limit |
| RateLimiting.LimiterSpaced | crates/rate-limit/src/lib.rs:27-43 | so `max + 1` hits that the limiter itself accepts of one user span at least the window |
| RateLimiting.CountsRecent | crates/rate-limit/src/lib.rs:37-43 | nobody is turned away for fewer than `max` accepted attempts less than a window old; with times in order nobody is let through after as many |
| RateLimiting.RateLimiter.CheckAt | crates/rate-limit/src/lib.rs:23-44 | in any order of times, an attempt is turned away if and only if the full log has it over the limit and enough of what is live has lasted; while times come in order, exactly as the full log says; and nobody else is kept without a live hit |
| RateLimiting.OutOfOrderForgets | crates/rate-limit/src/lib.rs:23-43 | a run of three attempts, the second by another user and late, in which two hits of one user are accepted within a window that allows one |
| RateLimiting.UserSpaced | crates/rate-limit/src/lib.rs:27-44 | over any run, `max + 1` accepted hits of one user span at least the window |
| RateLimiting.UsersAreIndependent | crates/rate-limit/src/lib.rs:27-44 | a user's accepted hits are those of a run without anybody else |
| RateLimiting.DecisionsAreIndependent | crates/rate-limit/src/lib.rs:27-44 | and so is every decision |
| ToolSlots.Requests.TrySlot | crates/tools/src/lib.rs:48-58 | a slot is taken if and only if fewer than the limit are live; otherwise the wait is positive, at most a minute, and long enough; with a limit of zero there is no oldest request to index; recorded requests stay spaced |
| ToolSlots.LiveCount | crates/tools/src/lib.rs:50-53 | live requests are those less than a minute old |
| ToolSlots.Requests.WaitForSlot | crates/tools/src/lib.rs:46-64 | with other callers coming in during every sleep, a caller is recorded once, and loses its turn only to another that takes a slot; alone, it waits at most a minute and only if it must |
| ChannelBuffer.AppendKeepsWindow | crates/channel-context/src/lib.rs:79-89 | expire, make room and push turn the window of a log into the window of the longer log |
| ChannelStore.AppendStands | crates/channel-context/src/lib.rs:80-89 | the buffer stays bounded and a subsequence of the log, users removed or not |
| ChannelStore.ChannelContext.constructor | crates/channel-context/src/lib.rs:54-60 | limits of at least one |
| ChannelStore.ChannelContext.Expire | crates/channel-context/src/lib.rs:181-187 | dropping the expired front drops all that is expired |
| ChannelStore.ChannelContext.Append | crates/channel-context/src/lib.rs:67-90 | the log of one channel grows, its cut-off moves on, other channels are untouched, and every buffer still is what its log and cut-off say |
| ChannelStore.ChannelContext.Collect | crates/channel-context/src/lib.rs:115-122 | the bounded queue keeps the last matches, or all of them when its bound is zero |
| ChannelStore.ChannelContext.Search | crates/channel-context/src/lib.rs:94-123 | the last matches of the last `capacity` messages inside the window: in each the content, the username or the nick matches, and one that matches and is left out came before as many as were asked for; an invalid pattern and an unknown channel as the code has them, and then nothing changes |
| ChannelStore.ChannelContext.Recent | crates/channel-context/src/lib.rs:126-135 | the last `count` of the last `capacity` messages inside the window |
| ChannelStore.ChannelContext.RemoveUserEntries | crates/channel-context/src/lib.rs:138-143 | exactly the user's messages are gone, and every buffer is still a chronological part of its log |
| SandboxProtocol.HandedOutRightly | crates/sandbox/src/server.rs:200-302 | over all interleavings, an id handed to a session names a container made for it with at least the access asked for, marked as used |
| SandboxProtocol.UniqueStep | crates/sandbox/src/server.rs:236-245 | a step makes a second container of a session if and only if it inserts one for a session that has one |
| SandboxProtocol.UniqueFromStart | crates/sandbox/src/server.rs:214-245 | sessions have at most one container all along a run if and only if no insert of the run is such |
| SandboxProtocol.OneContainerPerSession | crates/sandbox/src/server.rs:214-245 | starts that do not overlap keep one container per session |
| SandboxProtocol.OverlapGoesOn | crates/sandbox/src/server.rs:214-245 | from any state in which a start misses while another of its session waits, two containers can follow |
| SandboxProtocol.OverlapMakesTwo | crates/sandbox/src/server.rs:214-245 | overlapping starts can make two |
| SandboxProtocol.IdleIsBounded | crates/sandbox/src/server.rs:169-196 | with sweeps an interval and any delay apart, no sandbox stays in the map unused for the timeout, an interval and the delay |
| SandboxLifetimes.SparedOrGone | crates/sandbox/src/server.rs:157-302 | a sandbox inserted in a run is in the map at its end if and only if nothing removed it by name since, and every sweep came less than the timeout after its insertion, a reuse, a request for it or a touch of its session |
| SandboxDaemon.Daemon.HandleStart | crates/sandbox/src/server.rs:200-251 | a whole start, with any steps of others between its sections: an id handed back is in the map, was created for the session with the access asked for, and was just used |
| SandboxDaemon.Daemon.ReuseSession | crates/sandbox/src/server.rs:279-302 | hit, refusal or miss, each as its protocol step from a reachable state; refused only when network access is missing |
| SandboxDaemon.Daemon.InsertContainer | crates/sandbox/src/server.rs:234-245 | the new container is filed under the session whose start waited for it |
| SandboxDaemon.Daemon.StartFails | crates/sandbox/src/server.rs:221-232 | a failed start leaves the map as it was |
| SandboxDaemon.Daemon.HandleTouch | crates/sandbox/src/server.rs:255-274 | exactly the session's sandboxes are marked as used, and counted |
| SandboxDaemon.Daemon.RequireSandbox | crates/sandbox/src/server.rs:157-167 | a known sandbox is marked as used, an unknown one changes nothing |
| SandboxDaemon.Daemon.RemoveSandbox | crates/sandbox/src/server.rs:479-489 | a close removes one sandbox and says whether it was there |
| SandboxDaemon.Daemon.SweepIdle | crates/sandbox/src/server.rs:174-186 | a sweep leaves a sandbox if and only if it was used less than the timeout before |
| AccessProtocol.StorageIsTheComposition | crates/bot-config/src/lib.rs:511-564 | over all interleavings and failures storage is the composition of the mutations that reached it, in the order they did, and a load returns a value storage once held or the default |
| AccessProtocol.SavesInLockOrder | crates/bot-config/src/lib.rs:546-554 | that order is the order of the lock: the log holds, once each, what calls that took the lock in that order were asked, and every call that reported success is among them |
| AccessProtocol.UpdatesAreAtomic | crates/bot-config/src/lib.rs:544-555 | a save applies its mutation to what is stored at that moment, nothing else changes storage, and an update that could not read saves nothing |
| AccessProtocol.OvertakenRefill | crates/bot-config/src/lib.rs:517-521 | a refill leaves the cache behind if and only if a save reached storage between that load's fetch and the refill, storage differs from what was fetched, and no refresh is pending |
| AccessProtocol.CacheStaysCurrent | crates/bot-config/src/lib.rs:517-563 | in any run, a step leaves a current cache behind if and only if it is such a refill, or a save that wrote something new and still failed |
| AccessProtocol.StaleRefill | crates/bot-config/src/lib.rs:517-521 | a run in which a completed update disappears from the cache again |
| AccessAnswers.CacheIsLastFill | crates/bot-config/src/lib.rs:517-564 | the cache holds what the last refill or refresh of the run put there |
| AccessAnswers.FallsBackToLastFill | crates/bot-config/src/lib.rs:522-530 | a load whose read failed answers just that, and the default only if there was none, or that is the default |
| AccessAnswers.OldCacheIsPassedOver | crates/bot-config/src/lib.rs:511-516 | a load that looks thirty seconds after it or later goes to storage, any other answers it |
| AccessAnswers.AnswersWereStored | crates/bot-config/src/lib.rs:511-532 | from the first load or update that succeeds, every answer was once in storage |
| AccessStore.AccessControlStore.Update | crates/bot-config/src/lib.rs:546-555 | wait for the lock, looking any number of times, then read, mutate and save, as protocol steps among any others; the call ends unless the lock is taken at its last look |
| AccessStore.AccessControlStore.SaveAndRefresh | crates/bot-config/src/lib.rs:557-564 | the cache is refreshed only after storage accepted the value |
| AccessStore.AccessControlStore.Load | crates/bot-config/src/lib.rs:511-532 | a fresh cache, else storage, as protocol steps among any others; the answer is what the cache then holds, and the default only while it is empty |
| AccessStore.AccessControlStore.FetchFresh | crates/bot-config/src/lib.rs:517-542 | a read answers what storage held and refills the cache with it; a failed read answers the last snapshot, or the default if there is none |
| MemoryEntries.Entries | crates/memory/src/lib.rs:185-209 | the entries laid end to end are exactly the content lines of the document in order, each under the latest heading and starting an entry where it should |
| MemoryEntries.GroupingIsUnique | crates/memory/src/lib.rs:178-209 | that determines the entries |
| MemoryEntries.PlacementIs | crates/memory/src/lib.rs:185-209 | the content lines placed are all of them, in order, each under the heading in force, and first of an entry where an item starts or no content stands before |
| MemoryEntries.StartsItemIs | crates/memory/src/lib.rs:211-218 | an item starts with a bullet or a number, a dot or bracket, and a space |
| MemoryEntries.LineKinds | crates/memory/src/lib.rs:190-193 | blank lines are white space, headings begin with a hash |
| MemoryEntries.LatestHeadingIs | crates/memory/src/lib.rs:192-194 | the heading in force is the last one so far |
| MemorySearch.WordsAreRuns | crates/memory/src/lib.rs:219-224 | the words of a text are its maximal runs of letters and digits, all of them, in order and in lower case |
| MemorySearch.TermMatchesIs | crates/memory/src/lib.rs:229-235 | a term matches a word that contains it, a short one only itself |
| MemorySearch.FrequencyIs | crates/memory/src/lib.rs:284-284 | the frequency is the number of words matched |
| MemorySearch.ContainingIs | crates/memory/src/lib.rs:269-272 | the entries that contain a term are those with a word it matches |
| MemorySearch.RarerWeighsMore | crates/memory/src/lib.rs:266-275 | of two terms the one that fewer entries hold weighs more |
| MemorySearch.MoreMatchesScoreHigher | crates/memory/src/lib.rs:281-290 | at equal length, more matches score higher |
| MemorySearch.FewerWordsScoreHigher | crates/memory/src/lib.rs:281-290 | with equal matches, fewer words score higher |
| MemorySearch.PhraseDoubles | crates/memory/src/lib.rs:291-299 | holding the whole phrase of several terms exactly doubles the score |
| MemorySearch.WorthOfAMatch | crates/memory/src/lib.rs:241-289 | what one match, a second one, and twice the length are worth |
| MemorySearch.AverageOfEqual | crates/memory/src/lib.rs:263-263 | the average length of entries of one length |
| MemorySearch.ScoresOfTexts | crates/memory/src/lib.rs:246-301 | the score of an entry is that of the words of its heading and lines, doubled when its lines hold the whole trimmed query |
| MemorySearch.RarerScoresHigher | crates/memory/src/lib.rs:266-302 | of two entries of one length, each matching one term once, the one with the rarer term scores higher |
| MemorySearch.PositiveScore | crates/memory/src/lib.rs:277-300 | an entry scores above zero if and only if some term matches one of its words |
| MemorySearch.TopResults | crates/memory/src/lib.rs:303-306 | the results are the best `limit` scores, ties by position; what is left out ranks after everything shown |
| MemorySearch.ScoreEntries | crates/memory/src/lib.rs:277-302 | every entry gets its BM25 score, doubled when it holds the whole phrase |
| MemorySearch.Search | crates/memory/src/lib.rs:240-316 | results are the best matching entries in order, rendered under their headings, and a match is left out only when `limit` better ones exist; of two entries alike but for the rarity of the one term they match, the rarer comes first |
| MemorySearch.SearchIsDetermined | crates/memory/src/lib.rs:240-316 | that leaves one outcome only: entries, scores, ranking and results |
| MessageSplitting.SplitText | crates/bot-formatting/src/lib.rs:40-68 | for every text and limit: chunks are non-empty, within the limit, cut at the last newline that helps, and in order make up the text but for dropped newline runs |
| MessageSplitting.ChunkingIsUnique | crates/bot-formatting/src/lib.rs:40-68 | those conditions leave one result only |
| MessageSplitting.NothingElseIsLost | crates/bot-formatting/src/lib.rs:61-65 | every other character arrives, in order |
| CodeFence.FenceFor | crates/bot-formatting/src/lib.rs:143-156 | the shortest run of at least three backticks that does not occur in the text |
| TokenCounts.Round3IsNearest | crates/bot-formatting/src/lib.rs:264-266 | rounding to three significant figures is to the nearest, halves up |
| TokenCounts.DisplayedGrows | crates/bot-formatting/src/lib.rs:257-279 | a larger count is never displayed as a smaller one |
| TokenCounts.RoundedIs | crates/bot-formatting/src/lib.rs:262-266 | whatever power of a thousand the count is divided by, scaling by its logarithm and rounding gives the same three digits of the count |
| TokenCounts.ShownExactly | crates/bot-formatting/src/lib.rs:268-274 | the decimals chosen show every digit of the rounded count |
| TokenCounts.FormatTokens | crates/bot-formatting/src/lib.rs:257-279 | the number displayed is exactly the rounded count, its mantissa from one to below a thousand for k and M, and the last suffix always returns |

## Left out

What the models replace or abstract:

- Discord, HTTP, Docker, Postgres, Unix sockets and the file system: their outcomes are parameters; a failed write leaves the old contents or, in the access-control store, possibly the new ones, but never a torn file.
- JSON: an invertible encoding of a message on one line; chunks of a stream go through a decoder given as a parameter.
- The regex engine, Unicode lower case and alphanumeric tables: functions given as parameters.
- Clocks: integer parameters. The slot limiter, the channel buffer and the sandbox map take the times read under their locks to be non-decreasing; the cut-off of the channel buffer may be read earlier, as in the code.
- Floating point: token counts are exact quotients and BM25 is exact; the logarithm of BM25 is any function that is positive above one, and for the rarity of terms one that increases. Exact sums do not depend on the order of the terms, so terms are deduplicated but not sorted.
- Integer widths: `usize`, `i32` and usage counters are unbounded; skill timestamps are 64-bit.
- Hash-map order: where the code takes the first match of an iteration, the model takes any match.
- Random ids: a new sandbox's id is one that no sandbox has had.

Members stated for less than everything the code does:

- Redactor.Survivors: whether a set that balances has a text in which replacements undo each other is decided by running the passes; no condition on the set alone is given for those sets.
- AgentObject.NextPromptExtends: the next turn reads what is on file and does not compact.
- ToolSlots.Requests.WaitForSlot: how often a caller loses its turn is not bounded by the code, so the model gives up after a number of tries.
- SandboxDaemon.Daemon.RemoveSandbox: only the map; on a command timeout the code destroys the container before it takes the map entry out.
- AccessStore.AccessControlStore.Update: how long a call waits for the lock is not bounded, and the lock's queue is any order, so the model gives up after a number of looks.
- AgentObject.Agent.Run: the runs of one user are sequential, since the code takes no lock on a history file; token-monitor rows, progress hooks, notices, the list of tools called and the mapping of an exit to the final text are not modelled, and a compaction's prompt is left to the model's answer.
- ShellQuoting.ReadsBack: the reader gives up on double quotes, expansions and comments, which quoting never leaves outside single quotes.

What the repository does besides:

- `execute`, `info` and `pending_count` of the scheduler, `AccessControlStore::save` outside an update, `ChannelContext::len`: one line on top of what is modelled.
- `tool_summary`, `tool_hint`, `truncate_output`, skill editors and the skill cache on disk, session-key and command validation: guarded one-step functions.
- The Discord handlers, progress rendering, media conversion, GitHub client, deployment bot, classifier and prompt texts.
