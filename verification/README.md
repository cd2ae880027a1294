# RustDesk Plus: verified model

RustDesk Plus runs automation scripts on fleets of PCs, audits remote connections, tracks which devices are
online, and hands out per-tenant installers. This project models the parts of it where a mistake would be hard to
see, and proves what they guarantee over every input, every run and every interleaving.

- **Script pipeline.** `TopoSort` and `Cycles`: the agent's ordering of a script graph. `Agent` and `Transcripts`: the
  fail-stop interpreter and its progress messages. `ScriptDb`: the server's step, result and run tables and the SQL
  statements on them. `ScriptProtocol`: many agents persisting at once, interleaved statement by statement.
  `ScriptDispatch` and `ScriptSchedules`: the dispatch itself as one more actor, which wakes the agents it races with,
  and what every schedule keeps. `ScriptClosing`: exactly when such a run is closed with its aggregate.
  `ScriptRaces`: runs in which it is not. `ScriptPipeline`: the end-to-end theorems, from graph to final rows.
- **Connection audit.** `Audit`: the event handler and its table. `AuditRuns`: row life cycles and correlation.
  `AuditHistory`: which inputs made a row, column by column. `AuditRedelivery`: repeated deliveries.
- **Presence.** `Varint` and `PresenceWire`: the hbbs wire protocol. `Devices` and `DeviceRuns`: the device table, its
  trash and its online state. `PresenceRefresh`: the batched hbbs refresh.
- **Installers.** `Installer`: the metadata-keyed cache. `TenantUrl`: the tenant API URL.
- `Common`, `Script` and `Text` hold shared types and string functions.

## How the model reads the source

A table is a map (or, where insertion order matters, a sequence) held in a class; an SQL statement is one atomic
step; a transaction writes back only when it commits. Every statement has a specification function on table values;
the class methods are proved against these functions, and the theorems about runs are proved about them. Where such a
function fills columns, a lemma says what it leaves in each of them, constants written out, without using it. Times are
integers supplied from outside; theorems that need it assume that the clock does not go back.
Processes, `os.Expand`, hbbs and the failures of a compiler are oracles: arbitrary functions or inputs.
Where several rows tie in an `ORDER BY ... LIMIT 1`, the model takes the row inserted last.

What the code does, where its comments or documentation say more:

- The comment on `delete_device` (plus-api/src/routes/admin.rs:432-433) says that clients do not recreate a deleted
  device. That holds for every device whose uuid does not start with `host-` (`DeviceRuns.TrashIsKept`), and fails
  for those that do (`DeviceRuns.PlaceholderLeavesTrash`).
- A device in the trash can be shown online, through an agent's presence update and nothing else
  (`DeviceRuns.TrashedOnlineExactly`).
- Redelivered audit events are dropped (README.md:399) until the first commit more than a day after the first receipt;
  only commits purge, so a copy may be dropped for longer than a day (`AuditRedelivery.ForgottenExactly`). After that
  a copy acts whenever it finds something to write (`AuditRedelivery.CopyActsExactly`), and can end another session
  (`AuditRedelivery.LateCopyActs`).
- An agent may answer while the dispatch is still busy. The run is then rightly closed exactly when every reached
  result is closed after it is marked and the last agent to close the run had tallied enough
  (`ScriptClosing.RightlyClosedExactly`). Otherwise it ends open, because a mark came too late
  (`ScriptRaces.LateMark`) or an unreached target was failed after the last count (`ScriptRaces.LateFail`), or with a
  wrong status (`ScriptRaces.StaleTally`). A dispatch that is over before the first close rules this out
  (`ScriptClosing.DispatchFirstIsClosed`).
- The installer that `build` returns is always current, but the agent binary kept beside it for auto-update is that of
  the last build that was tried, even if its link then failed (`Installer.KeptAgentIsLastTried`,
  `Installer.StaleAgent`).
- A process whose exit code does not fit in 32 signed bits (Windows codes are unsigned) reports a message that the
  server cannot parse and drops (plus-api/src/routes/agent.rs:99-107, plus-api/src/routes/scripts.rs:580). Its step row
  then has no exit code, but its status, its lines and the run's outcome are still right, because the closing message
  follows (`ScriptPipeline.RowsAreFinal`, `ScriptPipeline.TranscriptWellClosed`).
- A line that holds a NUL character is refused by the TEXT column and lost, because the error is ignored
  (plus-api/src/routes/agent.rs:105). The row's output is the other lines; all other texts come from the script
  definition, a JSONB value, which cannot hold one (`ScriptPipeline.RowsAreFinal`).
- A script whose nodes all lie on or behind cycles executes nothing and is reported done
  (`ScriptPipeline.EmptyOrderRow`).
- The order, trace and row theorems ask for distinct node ids and edges between existing nodes. `TopoSort.Sort`
  itself terminates on every graph, and `Transcripts.ClosesExactly` says for every order when a run is closed.

## Model

| member | source | states |
|---|---|---|
| TopoSort.Sort | agent/main.go:268-300 | Terminates on every graph; with distinct ids no id repeats, every edge into an emitted id has its source emitted earlier, and every omitted vertex waits for an omitted source |
| TopoSort.CountEdges | agent/main.go:270-278 | The in-degree of every vertex and the target list of every source, also for ids that are only edge targets |
| TopoSort.Relax | agent/main.go:292-297 | Decrementing along a target list queues exactly the ids whose in-degree crosses zero, each once, and uses up as many waiting ids |
| TopoSort.InitialQueue | agent/main.go:280-285 | Exactly the nodes without incoming edges are queued first |
| TopoSort.EmitKeepsInvariant | agent/main.go:288-298 | In-degrees count exactly the edges from ids not yet emitted, and the ids at zero are exactly those emitted or queued, after every emission |
| Cycles.CompleteIffAcyclic | agent/main.go:268-300 | A Kahn order emits every node if and only if the graph has no cycle, and is then a permutation of the node ids |
| Cycles.CyclesAreOmitted | agent/main.go:268-300 | No id on a cycle is ever emitted |
| Cycles.OmissionsHideACycle | agent/main.go:268-300 | Ids that all wait for each other contain a cycle |
| Cycles.AncestorsComeFirst | agent/main.go:268-300 | Every ancestor of an emitted id, over a path of any length, is emitted before it |
| Agent.RunScript | agent/main.go:372-558 | The messages sent and the processes started are exactly those of the closed form over the given nodes, the order, the variables and the first failure |
| Agent.NodeMapExactly | agent/main.go:373-376 | The node map has exactly the ids of the nodes, each with the last node that carries it; with distinct ids each node is found under its own id |
| Agent.SegmentExactly | agent/main.go:389-507 | Every field of every message of a node that executes, from the fields of its own node and the outcome of its process |
| Agent.FinalMessageExactly | agent/main.go:397-507 | Status, text and exit code of the message with which each kind of node ends |
| Agent.RequestExactly | agent/main.go:470-488 | A process starts exactly for shell and download nodes, with the command or the URL and destination, the shell and the timeout of its node |
| Agent.DecimalExactly | agent/main.go:415 | The count of variables is printed as its decimal digits, which read back as the count, without leading zeros |
| Agent.Interpret | agent/main.go:388-557 | For every order, also one with ids that are not nodes, the loop sends the closed-form transcript |
| Agent.RunStep | agent/main.go:439-507 | An announced node reports its start, its lines and its outcome; shell and download nodes start one process, unknown kinds fail with -1 |
| Agent.RunQuietly | agent/main.go:397-436 | Variable and notify nodes report done at once; only variable nodes change the variables |
| Agent.SkipRemaining | agent/main.go:510-533 | After a failure every later node gets its skip message, and unknown ids get none |
| Agent.Assign | agent/main.go:399-405 | Bindings are expanded left to right, each over the ones before it |
| Transcripts.NodeReports | agent/main.go:384-545 | Fail-stop per node: its segment up to the first failure, segment and closing message at it, one skip message after it; no other id is reported |
| Transcripts.AllDoneMessagesAgree | agent/main.go:384-557 | Every all-done message of a run carries the run's verdict |
| Transcripts.ClosesExactly | agent/main.go:384-557 | The last message says all done exactly when the order is empty, a node failed, or the last id is a node; otherwise no message does |
| Transcripts.VerdictIsSomeFailure | agent/main.go:379-494 | The verdict is failed exactly when some node the run reached failed |
| Transcripts.CallsExactly | agent/main.go:470-483 | A process runs exactly for each shell or download node up to the first failure, asked with the fields of the node at its position and exactly the variables gathered before it |
| Transcripts.ProcessesExactly | agent/main.go:372-483 | With distinct ids, in terms of the given nodes: a process runs at a position exactly if the node whose id is ordered there asks for it, and it gets that node's fields and the variables so far |
| Transcripts.CallsInOrder | agent/main.go:388-483 | Processes start in the order of their nodes, at most one per node |
| Transcripts.LastWriterWins | agent/main.go:380-405 | The variables at a position are exactly the keys assigned by earlier variable nodes, each with its last assignment's value |
| Transcripts.AncestorVariablesAreSet | agent/main.go:398-483 | Every variable assigned by an ancestor of a started node is set when its process starts |
| ScriptDb.Server.PersistScriptProgress | plus-api/src/routes/scripts.rs:584-686 | One undisturbed call: the upsert, and for an all-done message the result close, the counts and the run close; it fails, and changes nothing, exactly for a NUL character or an unknown result; an accepted all-done message leaves its result failed or done, finished at the time of the close |
| ScriptDb.PersistedExactly | plus-api/src/routes/scripts.rs:615-683 | Every column of results and runs after one call: nothing without all done; else the result's status and finish time, and, exactly if no result of the run is pending or running, the run's status (done, failed or partial) and finish time |
| ScriptDb.Server.ExecUpsertStep | plus-api/src/routes/scripts.rs:588-613 | The step upsert on the unique key of result and node, refused for a NUL character or an unknown result |
| ScriptDb.Server.Dispatch | plus-api/src/routes/scripts.rs:308-413 | An undisturbed dispatch leaves one result per target, running or failed, and closes the run at once when no agent took it |
| ScriptDb.SummaryAppend | plus-api/src/routes/scripts.rs:588-604 | Upserts accumulate: a row is the first label, last status, all outputs in order, last code given, first start and last end of its messages |
| ScriptProtocol.AloneIsPersisted | plus-api/src/routes/agent.rs:99-107 | The statement machine, left alone, does what one call of persist_script_progress does |
| ScriptProtocol.DispatchPrepares | plus-api/src/routes/scripts.rs:308-413 | A finished dispatch establishes the state the aggregation relies on |
| ScriptProtocol.UnreachedRunIsClosed | plus-api/src/routes/scripts.rs:405-411 | A run that no agent took is closed with the aggregate of its failed results |
| ScriptProtocol.ActKeeps | plus-api/src/routes/scripts.rs:584-686 | Every single statement of every agent keeps the aggregation invariant |
| ScriptProtocol.NeverClosedEarly | plus-api/src/routes/scripts.rs:615-683 | Under every interleaving a closed run has no pending or running result and carries exactly the aggregate, and every agent about to close it writes that aggregate |
| ScriptProtocol.ClosedWhenAllFinished | plus-api/src/routes/scripts.rs:615-683 | Once all agents of a run have finished, the run is closed with exactly the aggregate, and every device has its agent's verdict |
| ScriptProtocol.EnoughTurnsFinish | plus-api/src/routes/scripts.rs:584-686 | Five turns per message finish an agent, whatever the others do in between |
| ScriptProtocol.RowsSumUpMessages | plus-api/src/routes/scripts.rs:588-613 | Under every interleaving each step row sums up exactly its own result's messages about its node |
| ScriptProtocol.AggregateMeaning | plus-api/src/routes/scripts.rs:663-669 | The aggregate is done, failed or partial exactly when all devices are done, all failed, or both occur |
| ScriptSchedules.DispatchAlone | plus-api/src/routes/scripts.rs:352-411 | With no agent's move in between, the dispatch program leaves the tables of the two loops and the agents at the start of their traces |
| ScriptSchedules.AtKept | plus-api/src/routes/scripts.rs:352-411 | Under every interleaving of dispatch and agents: rows, woken agents and the rest of the program agree, and every agent follows its trace |
| ScriptSchedules.StatusAt | plus-api/src/routes/scripts.rs:372-403 | Under every interleaving a result's row is at its final status exactly when its last close or failure follows its mark, and open otherwise |
| ScriptSchedules.FinishedByLastClose | plus-api/src/routes/scripts.rs:389-628 | Under every interleaving a result is finished at the time of its last close or failure, even if it was marked running since, and is not finished without one |
| ScriptSchedules.StartedByMark | plus-api/src/routes/scripts.rs:372-403 | Under every interleaving a result is started at the time of its last mark or failure, and not without one |
| ScriptSchedules.AggregateIsSeen | plus-api/src/routes/scripts.rs:646-669 | At every moment the aggregate of the rows is what the results that have ended add up to |
| ScriptClosing.RightlyClosedExactly | plus-api/src/routes/scripts.rs:352-411 | For every schedule in which a dispatch that reached some agent finishes with all its agents: all results are closed and the run carries their aggregate if and only if every reached result's last close follows its mark, an agent closed the run, and what the last one to do so had seen when it tallied adds up to the same as all results |
| ScriptClosing.OrderlyClosedExactly | plus-api/src/routes/scripts.rs:389-403 | If no agent counts before every result is inserted and marked, the run is rightly closed if and only if some agent counts after every result has ended |
| ScriptClosing.DispatchFirstIsClosed | plus-api/src/routes/scripts.rs:352-411 | If the dispatch is over before the first close, the run is rightly closed |
| ScriptClosing.ResultClosedExactly | plus-api/src/routes/scripts.rs:372-380 | A result ends at its final status exactly when its last close follows its mark, and is left open otherwise |
| ScriptClosing.UnsentClosedExactly | plus-api/src/routes/scripts.rs:405-411 | A dispatch that reached no agent closes its run rightly exactly when it had targets |
| ScriptClosing.OverIsFinal | plus-api/src/routes/scripts.rs:584-686 | Once dispatch and agents are done, no further turn changes anything |
| ScriptClosing.RunStatusAt | plus-api/src/routes/scripts.rs:671-683 | Under every interleaving of a dispatch that reached some agent, the run row is still the new one before the first close, and afterwards has the status and the time of the last |
| ScriptRaces.LateMark | plus-api/src/routes/scripts.rs:372-380 | From a new run: a target marked after its close leaves its result and the run running for good |
| ScriptRaces.LateFail | plus-api/src/routes/scripts.rs:389-403 | From a new run: an unreached target failed after the last count leaves the run open though every result is closed |
| ScriptRaces.StaleTally | plus-api/src/routes/scripts.rs:635-683 | From a new run: every last close follows its mark and a count sees every result ended, but an earlier tally is written last and the run ends done with a failed device |
| ScriptRaces.LuckyClose | plus-api/src/routes/scripts.rs:635-683 | From a new run: the run is rightly closed although no count ever sees every result ended |
| ScriptPipeline.RunsAreClosed | plus-api/src/routes/scripts.rs:615-683 | End to end: each device is done exactly when none of its nodes failed, and the run carries the aggregate |
| ScriptPipeline.RowsAreFinal | plus-api/src/routes/scripts.rs:588-613 | End to end, for the node whose id is ordered at a position: one terminal row with its own label, status, joined lines (without those that hold a NUL character) and the code its process returned if -2^31 <= code < 2^31 (none otherwise), or the skip with code -1 after a failure |
| ScriptPipeline.NoOtherRows | plus-api/src/routes/scripts.rs:588-613 | End to end: an id that a non-empty order does not hold, such as one on or behind a cycle, leaves no row |
| ScriptPipeline.EmptyOrderRow | agent/main.go:548-557 | An empty order leaves one done row with an empty node id |
| ScriptPipeline.CodeOfReceived | plus-api/src/routes/scripts.rs:600 | The code the node's process returned, if it fits in 32 signed bits, survives the trailing message without a code; the bounds are written out |
| ScriptPipeline.ReceivedIsDelivered | plus-api/src/routes/agent.rs:99-107 | Of each node the server stores its start, its lines without NUL characters, its final message if that parses, and after a failure the closing message |
| ScriptPipeline.TranscriptWellClosed | agent/main.go:372-558 | In a well-formed graph what the server accepts ends with an all-done message and closes the device with the run's verdict, even if a message is dropped |
| Audit.Server.ReceiveConnectionAudit | plus-api/src/routes/audit.rs:41-161 | One transaction: a known nonce or a failing statement changes nothing, anything else is applied, recorded and purged together |
| Audit.Server.RegisterLaunch | plus-api/src/routes/audit.rs:163-197 | A click on a device of the tenant adds one launched row with the device's ids, the user and the time; an unknown device adds nothing |
| Audit.FindLaunch | plus-api/src/routes/audit.rs:74-79 | The click claimed is one of the last two minutes and no claimable click is later; none is found exactly when there is none |
| Audit.FindOpen | plus-api/src/routes/audit.rs:120-123 | The row found is open for the key and none is newer; none is found exactly when there is none |
| AuditRuns.RunKeepsRows | plus-api/src/routes/audit.rs:71-190 | Every reachable row: closed iff ended, launched rows carry no connection or times, others have started, durations are not negative, claims are within two minutes |
| AuditRuns.StepKeepsRows | plus-api/src/routes/audit.rs:71-190 | A step only moves rows forward, and only a fresh new event takes a row out of launched |
| AuditRuns.RunMovesForward | plus-api/src/routes/audit.rs:71-190 | Over any stretch of a run statuses never go back, and starts, ends and identities once set never change |
| AuditRuns.RowCount | plus-api/src/routes/audit.rs:81-115 | Rows number launches plus fresh new events less claimed launches |
| AuditRuns.OpenRowsStep | plus-api/src/routes/audit.rs:71-131 | A fresh new adds exactly its row to the open rows of its key, a fresh close removes exactly its row, nothing else changes them |
| AuditRuns.OpenRowsAreCounted | plus-api/src/routes/audit.rs:71-131 | The open rows of a key number the fold of plus one per fresh new and minus one, floored at zero, per fresh close |
| AuditRuns.CloseEndsItsNew | plus-api/src/routes/audit.rs:117-131 | When new and close alternate, the close ends the very row its new opened or claimed, no earlier than it started |
| AuditHistory.FindOpenExactly | plus-api/src/routes/audit.rs:120-123 | The row found for an event is the newest open row with its tenant, uuid, connection and session; none is found exactly when there is none |
| AuditHistory.FindLaunchExactly | plus-api/src/routes/audit.rs:74-79 | The click found for an event is the latest launched row of its tenant and RustDesk id that is less than 120 seconds old; none is found exactly when there is none |
| AuditHistory.StepExactly | plus-api/src/routes/audit.rs:71-190 | One click or event, column by column: which row it writes or adds, every column of that row, and every other row as it was |
| AuditHistory.RowTellsItsStory | plus-api/src/routes/audit.rs:71-190 | After every run each row shows the inputs that made it: user and time of its click, address, identity and start of the event that opened it, peer and connection type of the last authentication (none without one), the time of its close and of its last change; its status says exactly how far it got |
| AuditRedelivery.RedeliveryInvisible | plus-api/src/routes/audit.rs:48-60 | Removing any set of copies received within a day of the first receipt leaves exactly the same rows and nonces |
| AuditRedelivery.Remembered | plus-api/src/routes/audit.rs:155-158 | For 86400 seconds after its first receipt an event is recorded, in spite of the purge, or refused for good |
| AuditRedelivery.RefusedExactly | plus-api/src/routes/audit.rs:71-115 | An event fails exactly when it is new with an address that does not parse or for an unknown tenant |
| AuditRedelivery.ForgottenExactly | plus-api/src/routes/audit.rs:155-158 | Over every run, an event that is not refused is forgotten if and only if another event has committed more than 86400 seconds after its first receipt |
| AuditRedelivery.CopyActsExactly | plus-api/src/routes/audit.rs:48-158 | A redelivered event changes a row if and only if it was forgotten and finds something to write: a new always, a close if a row of its key is open, an authentication if such a row does not hold its values already |
| AuditRedelivery.LateCopyActs | plus-api/src/routes/audit.rs:117-131 | A run in which a session opens and closes, a day later another one with the same key opens, and the first close, delivered again, ends it |
| Varint.WriteVarint | plus-api/src/presence.rs:6-12 | Appends the encoding of the number |
| Varint.ReadVarint | plus-api/src/presence.rs:14-30 | Reads as the recursive specification does, errors included |
| Varint.AcceptsExactly | plus-api/src/presence.rs:14-30 | The reader accepts exactly the strings that start with a terminated varint of at most ten bytes below 2^64, and takes exactly that varint |
| Varint.TruncatedExactly | plus-api/src/presence.rs:17 | Truncation is reported exactly for fewer than ten bytes that all ask for more |
| Varint.RoundTrip | plus-api/src/presence.rs:6-30 | Every 64-bit number is read back, what follows is left, and at most ten bytes are used |
| Varint.EncodeIsShortest | plus-api/src/presence.rs:6-12 | The writer's encoding is the unique shortest of all strings read as the same number |
| PresenceWire.ReadField | plus-api/src/presence.rs:32-42 | Reads a field as specified, errors included |
| PresenceWire.FieldExactly | plus-api/src/presence.rs:32-42 | A field is read exactly when the data starts with some encoding of it |
| PresenceWire.UnexpectedExactly | plus-api/src/presence.rs:33-36 | The tag error is reported exactly if a varint of another value comes first |
| PresenceWire.ShortExactly | plus-api/src/presence.rs:37-38 | The length error is reported exactly if the tag is right and the length says more bytes than there are |
| PresenceWire.Decode | plus-api/src/presence.rs:44-55 | Decodes a response as specified, errors included |
| PresenceWire.ResponseExactly | plus-api/src/presence.rs:44-55 | A response is accepted exactly when it is one field holding one bitmap of the right length, and answers with its bits in order |
| PresenceWire.DecodeInvertsEncode | plus-api/src/presence.rs:44-55 | Decoding the protocol's encoding of any presence vector gives the vector, most significant bit first |
| PresenceWire.ResponseBytes | plus-api/src/presence.rs:44-47 | The protocol's encoding is the bytes 0xc2 0x01, a length, 0x0a, a length and the bitmap, of one bit per peer rounded up to bytes |
| PresenceWire.BitsMakeByte | plus-api/src/presence.rs:52-54 | The eight bits read from a byte, weighed from 128 down to 1, make up the byte |
| PresenceWire.ResponsesPrefixFree | plus-api/src/presence.rs:44-55 | No accepted response is a strict prefix of another for the same count |
| PresenceWire.BuildRequest | plus-api/src/presence.rs:57-71 | Writes the framed request exactly when it is within the size limit |
| PresenceWire.HeaderBytes | plus-api/src/presence.rs:67-69 | Under the size limit the u16 header neither overflows nor loses bits |
| PresenceWire.RequestRoundTrip | plus-api/src/presence.rs:57-71 | The framed request parses back to exactly the ids |
| PresenceWire.HeaderRoundTrip | plus-api/src/presence.rs:72-75 | Header width and length are recovered for all four widths |
| PresenceWire.FrameRoundTrip | plus-api/src/presence.rs:72-78 | The frame reader recovers the payload and leaves what follows |
| PresenceWire.FrameExactly | plus-api/src/presence.rs:72-79 | A stream is accepted exactly if it is a header of one of the four widths, the payload it announces, within the limit, and more |
| PresenceWire.ReadAnswer | plus-api/src/presence.rs:72-79 | Header, size limit, payload and decoding of an answer, with every error |
| PresenceWire.AnswerRoundTrip | plus-api/src/presence.rs:72-79 | An answer within the limit is understood as the vector hbbs encoded |
| PresenceWire.TooLargeExactly | plus-api/src/presence.rs:74-77 | An answer is too large exactly if its complete header announces more than 4096 bytes |
| PresenceWire.FitsExactly | plus-api/src/presence.rs:58-66 | A request fits exactly when its id fields take at most 16379 bytes |
| PresenceWire.BatchFits | plus-api/src/presence.rs:57-87 | 128 ids of at most 125 bytes always fit, 128 ids of 126 bytes never |
| PresenceRefresh.Refresh | plus-api/src/presence.rs:82-104 | Asks hbbs, with the bytes of each batch in order, and marks what it confirms, stopping after the first failed query and keeping what was marked |
| PresenceRefresh.Query | plus-api/src/presence.rs:57-90 | Sends the framed ids of the batch if they fit 0x3fff bytes; times out exactly if hbbs is late, and otherwise gives what the answer to those bytes decodes to |
| PresenceRefresh.NumericIsSpelled | plus-api/src/presence.rs:59-63 | A numeric id goes over the wire character by character, so two different ids never as the same bytes |
| PresenceRefresh.TruthfulRefresh | plus-api/src/presence.rs:57-104 | With an hbbs that parses each request and answers, in a frame of any width, with what it knows of the peers asked for: if no id is longer than 125 characters, no batch fails, and exactly the live devices with all-digit ids that hbbs knows online when asked are marked, at their batch's time |
| PresenceRefresh.OnlySelectedAreConfirmed | plus-api/src/presence.rs:83-85 | Only live devices with numeric ids are ever confirmed |
| PresenceRefresh.ChunksCover | plus-api/src/presence.rs:87 | The batches in order are the ids, so each id is asked exactly once; every batch but the last holds 128 ids, none is empty |
| PresenceRefresh.RefreshExactly | plus-api/src/presence.rs:87-102 | A live device is marked exactly when some answered batch holds its id with its bit set, at that batch's time, in a refresh left to itself; every other device, the trash included, is left alone, also when a later query fails |
| PresenceRefresh.RefreshAmongOthers | plus-api/src/presence.rs:87-102 | With any other statements before, between and after the batches: while no other one contacts a device, it keeps its id and is last seen at the one mark that confirms that id, if it is live just then, and keeps its time otherwise |
| PresenceRefresh.MarkContactsExactly | plus-api/src/presence.rs:95-100 | In any run, the mark of a batch contacts a device exactly when it is live then and the batch confirms the id it then has |
| Devices.Server.Register | plus-api/src/routes/client.rs:201-230 | Heartbeat and sysinfo: the placeholder delete, then the upsert; refused exactly when another device left of the tenant has the id, ignored in the trash, and otherwise the row has the new RustDesk id, the address, for sysinfo also host name and system, and is seen and online now; of the other rows exactly the replaced placeholders go, and the rest stay as they are |
| Devices.UpsertExactly | plus-api/src/routes/client.rs:212-230 | Every column after an upsert of any of the three sources, and when it changes nothing |
| Devices.DeleteExactly | plus-api/src/routes/client.rs:203-205 | The placeholder delete removes exactly the other devices of the tenant with the RustDesk id whose uuid starts with host- |
| Devices.Server.EnsureAgentDevice | plus-api/src/routes/agent.rs:132-212 | The agent touches the live device with its RustDesk id, else inserts or updates its own row under that id or a made-up one from its host name or uuid, and is not registered while that row is in the trash |
| Devices.TouchExactly | plus-api/src/routes/agent.rs:147-166 | Every column after a touch by RustDesk id, which reaches exactly the live devices of the tenant with that id |
| Devices.Server.UpdateAgentPresence | plus-api/src/routes/agent.rs:214-236 | Connecting marks the row seen now and online since then or earlier, disconnecting keeps both times, and no other row changes |
| Devices.Server.SweepOffline | plus-api/src/main.rs:26-39 | Devices that were online and seen within sixty seconds are the ones that stay online, and nothing else changes |
| Devices.Server.DeleteDevice | plus-api/src/routes/admin.rs:424-443 | Gives a live device a deletion time and takes it offline, leaves a deleted one and every other row alone |
| Devices.Server.RestoreDevice | plus-api/src/routes/admin.rs:445-459 | Clears the deletion time and changes nothing else |
| Devices.Server.PurgeDevice | plus-api/src/routes/admin.rs:462-476 | Removes the row exactly if it is in the trash, and changes no other row |
| DeviceRuns.RunKeepsUnique | plus-api/migrations/0005_multi_tenancy.sql:42-43 | In every reachable table a tenant has a RustDesk id at most once |
| DeviceRuns.IdIsLastUpsert | plus-api/src/routes/client.rs:212-218 | In every run a device's RustDesk id is that of the last upsert of its key that took effect |
| DeviceRuns.TrashStepExactly | plus-api/src/routes/client.rs:201-230 | Apart from restore and purge, exactly the placeholder delete of a client with the same RustDesk id takes a device out of the trash |
| DeviceRuns.TrashIsKept | plus-api/src/routes/client.rs:201-230 | A deleted device that is no placeholder stays deleted under every sequence of registrations, presence updates and sweeps, and no other row of its tenant gets its id |
| DeviceRuns.PlaceholderLeavesTrash | plus-api/src/routes/client.rs:201-230 | A heartbeat with the id of a deleted placeholder removes it and creates a live row |
| DeviceRuns.TrashedOnlineExactly | plus-api/src/routes/agent.rs:214-227 | A deleted device comes online through an agent's presence update and nothing else |
| DeviceRuns.RunKeepsPresence | plus-api/src/routes/client.rs:212-230 | In every reachable table online_since is no later than last_seen_at, which is no later than now |
| DeviceRuns.LastSeenIsLastContact | plus-api/src/routes/client.rs:212-230 | A device was last seen by the last event that contacted it |
| DeviceRuns.OnlineSinceIsStretchStart | plus-api/src/routes/client.rs:220-221 | online_since is the contact that began the current unbroken online stretch |
| DeviceRuns.SweptExactly | plus-api/src/main.rs:31-35 | A sweep keeps an online device exactly when something contacted it in the last sixty seconds |
| Installer.Generator.Build | plus-api/src/installer.rs:44-168 | Succeeds exactly on a configured cache hit or an undisturbed build; each failure leaves exactly the files written before it, and a success leaves installer, kept agent and metadata of the arguments, field by field |
| Installer.AgentFlagsExactly | plus-api/src/installer.rs:109-112 | By flag name, the value that each linker flag of the agent carries, and no other |
| Installer.InstallerFlagsExactly | plus-api/src/installer.rs:142-145 | By flag name, the value that each linker flag of the installer carries, and the agent it embeds exactly if that is switched on |
| Installer.Generator.Invalidate | plus-api/src/config.rs:198-206 | Removes installer and metadata, each on its own and perhaps not at all; never the kept agent |
| Installer.MetadataDetermines | plus-api/src/installer.rs:64-73 | Equal metadata means equal arguments, so equal linker flags and equal installers |
| Installer.ReturnedInstallerIsFresh | plus-api/src/installer.rs:64-168 | After any run of builds, failures before the metadata write and invalidations, a returned installer equals a build from scratch |
| Installer.LostMetadataExactly | plus-api/src/installer.rs:162-165 | A lost metadata write keeps the cache coherent exactly when no metadata was there or it builds the same installer |
| Installer.KeptAgentIsLastTried | plus-api/src/installer.rs:124-134 | After every run an agent is kept exactly when the tenant's last build that was not answered from the cache and left its preparations had the agent switched on, and it is that build's agent |
| Installer.KeptAgentExactly | plus-api/src/installer.rs:75-134 | After a successful build the kept agent is current if and only if the cache was missed or that last build had the same sources, API URL and install code |
| Installer.StaleOnlyAfterInterruptedLink | plus-api/src/installer.rs:124-165 | Without an interrupted link or lost metadata write, every successful build leaves the current agent |
| Installer.StaleAgent | plus-api/src/installer.rs:75-134 | A failed link between two equal builds leaves the other configuration's agent behind a current installer |
| TenantUrl.ComputeTenantApiUrl | installer/main.go:734-744 | Computes the URL of the specification function, which the other rows describe, by reassigning the base |
| TenantUrl.FirstInstallation | installer/main.go:734-744 | For a base without a tenant suffix the URL is the base without its spaces and trailing slashes, then /t/, then the trimmed tenant |
| TenantUrl.NoUrlExactly | installer/main.go:735-739 | The URL is empty exactly if the trimmed base or the trimmed tenant is |
| Text.TrimSpaceExactly | installer/main.go:735-736 | Trimming cuts only white space at both ends |
| TenantUrl.Reinstall | installer/main.go:731-744 | For every base and every non-blank, slash-free tenant, building the URL again replaces the tenant suffix instead of repeating it |

## Left out

- The timeout branch of runShellNodeStreaming (agent/main.go:365-368): lines may still arrive after the kill, so the model covers commands that finish.
- The text of the PowerShell commands: a shell or download node is a request to the host oracle, with the node's fields.
- Lost connections: an agent that never finishes leaves its run open, which the code does not time out.
- Agents of other runs beside a dispatch: `ScriptDispatch` interleaves one dispatch with its own agents; every statement of another agent touches only that agent's run (`ScriptProtocol.ActTouchesOne`). The theorems of `ScriptProtocol` and `ScriptPipeline` about many runs start from finished dispatches.
- Whether an agent takes the message: given with the target, since it depends on connections that are not part of this model.
- Deleting a device or a script while a run is open, which cascades to its rows.
- TopoSort.Sort: does not fix which of several ready nodes comes first, because no guarantee depends on it.
- ScriptDb.Server.Dispatch: uses one time for all its statements, because no guarantee depends on their differences.
- Devices.Server.Register: does not model branch_id, so the branch that a heartbeat adopts by address is left out; it touches no other column.
- The foreign key from devices to tenants: registrations for unknown tenants fail in the database before anything modelled here.
- The choice among rows that tie in created_at or launched_at: the model takes the one inserted last.
- Output that is not UTF-8: the agent's JSON encoder replaces such bytes before anything modelled here.
- PresenceRefresh.RefreshExactly: speaks of a refresh with no other statement between its batches; `PresenceRefresh.RefreshAmongOthers` covers the rest.
- PresenceWire.BuildRequest: takes lengths as unbounded numbers; Rust's lengths are below 2^63, which the round trips state where they need it.
- Rename and copy failures that leave a half-written installer, and the directories and temporary files of a build.
- HTTP, WebSocket, TCP and database errors; authentication and roles; the dashboard; the terminal and stored command results; auto-update and the Windows services.
