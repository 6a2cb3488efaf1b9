# vmux sidecar: a verified model

The vmux sidecar is the Go process behind the vmux terminal. It stages an agent's file edits for
review, moves JSON-RPC messages between the Swift app, its clients and MCP servers, asks a human
before dangerous actions run, and keeps logs, cookies and a workspace index. This project models
the parts where that is hardest to get right and proves what they promise.

* **Reviewing changes** (`Hunks`, `PendingStore` and the theorems in `LineDistance`, `EditScript`,
  `HunkProperties`, `HunkTexts`, `ReviewRuns`). Two texts are diffed line by line through an LCS
  table into hunks, any subset of which can be applied. The diff is shown to be minimal, with the
  prefix and suffix trim costing nothing; no line stands on both sides of a hunk; every accept set
  gives exactly the intended mix, at exactly the distance of the accepted hunks from the old text.
  The store is then followed through whole histories of proposals, decisions and foreign edits.
* **The message plane** (`Framing`, `ServerReader`, `PeerReader`, `Outbound`, `McpPeer`,
  `PeerRuns`, `SidecarClient`). Newline framing read in any chunks and written in any portions; the
  bounded queue and single writer of a connection under broadcasts; the tables of pending calls on
  both ends, over every interleaving of callers, readers, failures and disconnects.
* **Approvals** (`Approval`, `ApprovalRuns`). Gated actions, decisions and cancellations
  interleaved in every way.
* **Supporting cores**: cookie encryption (`Octets`, `Cookies`, `KeyDerivation`), the activity log
  (`Activity`), session replay (`Replay`), the workspace index (`Workspaces`).

`dafny verify dfyconfig.toml` checks everything.

## How the model reads the code

* Code that updates fields is a class whose methods are proved against a specification function;
  the theorems are about that function. Locks become atomic steps: a critical section, a channel
  operation and a write each are one step of a labelled transition system, and a theorem about
  runs holds of every sequence of steps.
* Calls into the operating system are parameters: whether a read or write works, what a file
  holds, how many bytes a `write` takes, whether a directory opens. The order in which Go walks a
  map is left open.
* New ids (`id.New`) are parameters assumed fresh; regular expressions (`Redact`, `FirstMatch`), the
  AES block function and the HMAC are uninterpreted functions. A block function is only assumed to
  be a permutation of 16-byte blocks, the HMAC to have 20-byte results.
* A JSON message is a record; its encoding is assumed to hold no newline byte.

## Where code and promises part

Each of these is a theorem here, with the exact condition or a concrete run.

* Lines that are one empty line are written as the empty text and read back as no line
  (`HunkTexts.AppliedReadsBack`, `HunkTexts.AppliedLosesEmptyLine`); the branch that skips empty
  hunks is never taken (the `assert false` in `Hunks.GroupOps`).
* A review counts decided ids, not decided hunks: an id that names no hunk can end it and write the
  file with a hunk undecided (`ReviewRuns.ResolvedMeans`, `ReviewRuns.StrayIdWritesExample`).
* The guard against lost updates has a gap between reading and writing, and passes when the file
  cannot be read (`ReviewRuns.LostUpdateExactly`, with a run for each way in
  `ReviewRuns.RaceLosesUpdate` and `ReviewRuns.UnreadableLosesUpdate`).
* Both the client and an MCP peer go on writing after a write that failed part way, which spoils the
  next whole frame; and the server strips carriage returns that belong to a message
  (`ServerReader.ServerRecovers`, `PeerReader.PeerRecovers`, and `TornFrameSpoilsNext` beside each).
* An MCP call registered after end of file on a peer that nobody closed, or outstanding and
  unanswered when a frame is over the limit, is never released (`PeerRuns.FailPendingReleases`,
  `PeerRuns.OversizeReleases`, `PeerRuns.StuckForever`, with a run each in `PeerRuns.StuckAfterEof` and
  `PeerRuns.StuckAfterOversize`).
* `close()` of the Swift client fails no pending call. A call that is written and unanswered at the
  close waits for ever unless a read handler already running still routes its reply or fails every
  call (`SidecarClient.ResumedAfterClose`, `SidecarClient.ResumedUnlessInFlight`, with a run for each
  outcome in `SidecarClient.CloseLeavesPending`, `SidecarClient.ReplyAfterClose` and
  `SidecarClient.FailedAfterClose`).
* An approved action may still be refused (`ApprovalRuns.ApprovedThenCancelled`).
* Unpadding looks at the last byte only (`Cookies.PadAfterUnpad`, `Cookies.NonUniformAccepted`), and
  padding is readable only while its length fits a byte (`Cookies.UnpadAfterPad`).
* `Moment.Kind` is documented as the dominant kind of the window; the code keeps the last one
  (`Replay.KindIsDominantIff`, `Replay.LastKindNotDominant`). The early exit of `At` sees the right
  events exactly for logs in time order (`Replay.EarlyExitExactIff`, `Replay.SnapshotExactIff`).
* Session ids that clean to the same file name share a log, of which recent events need not be a
  suffix (`Activity.RecentIsSuffixIff`, `Activity.SharedFileBreaksSuffix`).
* A registry file in which two entries share an id loads into an index whose two maps disagree
  (`Workspaces.LoadedInverseIff`, `Workspaces.SharedIdDangles`).

## Model

| member | source | states |
|---|---|---|
| LineDistance.LcsMaximal | sidecar/internal/diffreview/hunk.go:133-150 | no common subsequence of two line lists is longer than Lcs |
| LineDistance.LcsAttained | sidecar/internal/diffreview/hunk.go:133-150 | some common subsequence has length Lcs, so Lcs is the true optimum |
| EditScript.LcsAtIsLcs | sidecar/internal/diffreview/hunk.go:133-150 | cell (i, j) of the table is the true LCS length of the suffixes from i and j, greedy match on equal heads included |
| EditScript.CostBoundsDistance | sidecar/internal/diffreview/hunk.go:105-131 | no edit script between two texts costs less than their distance |
| EditScript.DiffIsMinimal | sidecar/internal/diffreview/hunk.go:105-131 | the walk down the table turns the old lines into the new ones at exactly the distance |
| EditScript.TrimmedIsMinimal | sidecar/internal/diffreview/hunk.go:23-29 | trimming any common prefix and suffix keeps the script correct and minimal |
| EditScript.ScriptIsMinimal | sidecar/internal/diffreview/hunk.go:19-29 | the script of the whole texts is correct and minimal |
| Hunks.CommonPrefix | sidecar/internal/diffreview/hunk.go:159-165 | the loop returns the length of the longest common prefix |
| Hunks.CommonSuffix | sidecar/internal/diffreview/hunk.go:167-173 | the loop returns the length of the longest common suffix |
| EditScript.PrefixFrom | sidecar/internal/diffreview/hunk.go:159-165 | all lines before the result agree and the next pair, if any, differs |
| EditScript.SuffixFrom | sidecar/internal/diffreview/hunk.go:167-173 | all lines after the result agree and the pair before, if any, differs |
| Hunks.LcsTable | sidecar/internal/diffreview/hunk.go:133-150 | the nested loops fill every cell with its specified value |
| Hunks.DiffMiddle | sidecar/internal/diffreview/hunk.go:107-131 | the three loops produce the specified walk |
| Hunks.GroupOps | sidecar/internal/diffreview/hunk.go:31-61 | the grouping loops give the specified hunks, offset by the prefix; the no-op branch is dead |
| Hunks.GroupTrimmed | sidecar/internal/diffreview/hunk.go:31-61 | grouping the trimmed middle from the prefix on equals grouping the whole script from line 0 |
| Hunks.ComputeHunks | sidecar/internal/diffreview/hunk.go:18-62 | returns the hunks of the whole minimal script |
| Hunks.CopyGap | sidecar/internal/diffreview/hunk.go:71-75 | copies the old lines up to a stop line, as far as they exist |
| Hunks.ApplyLines | sidecar/internal/diffreview/hunk.go:66-86 | the loops produce the specified lines for any hunks, computed or not |
| Hunks.ApplyHunks | sidecar/internal/diffreview/hunk.go:64-88 | returns the specified text for any text, hunks and accept map |
| HunkProperties.HunksAreMinimal | sidecar/internal/diffreview/hunk.go:18-62 | the hunks together hold exactly len(o) + len(n) - 2 LCS(o, n) lines |
| HunkProperties.HunksAreCanonical | sidecar/internal/diffreview/hunk.go:8-16 | ids are 0, 1, ...; each old side is the slice at OldStart; no hunk is empty; neighbours are at least one unchanged line apart |
| HunkProperties.NoLineOnBothSides | sidecar/internal/diffreview/hunk.go:31-60 | no hunk holds a line in both its old and its new lines |
| HunkProperties.AppliedIsMix | sidecar/internal/diffreview/hunk.go:64-88 | for every accept map the result is the script read with each hunk's choice |
| HunkProperties.AppliedDistances | sidecar/internal/diffreview/hunk.go:64-88 | the result is exactly the accepted hunks' size away from the old lines and the other hunks' size away from the new ones |
| HunkProperties.LinesAppliedExtremes | sidecar/internal/diffreview/hunk.go:64-88 | the result is the new lines iff all hunks are accepted, the old lines iff none is |
| HunkTexts.NoHunksIffEqual | sidecar/internal/diffreview/pending.go:42-46 | there is nothing to review exactly when the two texts are equal |
| HunkTexts.AppliedExtremes | sidecar/internal/diffreview/hunk.go:64-88 | the written text is the new text iff all hunks are accepted, the old text iff none is |
| HunkTexts.OneSidedMix | sidecar/internal/diffreview/hunk.go:152-157 | a change from or to the empty text is all or nothing, by hunk 0 |
| HunkTexts.AppliedReadsBack | sidecar/internal/diffreview/hunk.go:87-87 | the written text has the mixed lines iff they are not a single empty line |
| HunkTexts.AppliedLosesEmptyLine | sidecar/internal/diffreview/hunk.go:152-157 | a change and a choice for which they are |
| HunkTexts.RediffAfterPartialAccept | sidecar/internal/diffreview/hunk.go:18-88 | diffing again after a partial accept costs exactly the accepted hunks against the old text, and exactly the others against the new one, each iff the mixed lines are not a single empty line |
| HunkTexts.ResultLength | sidecar/internal/diffreview/hunk.go:66-88 | the result has len(o) lines plus the net change of the accepted hunks |
| PendingStore.Store.Stage | sidecar/internal/diffreview/pending.go:40-59 | records a fresh review, replacing an earlier one, unless there is nothing to review; other reviews stay |
| PendingStore.Pending.RecordRest | sidecar/internal/diffreview/pending.go:89-95 | the bulk loop decides exactly the hunks not yet decided |
| PendingStore.Pending.RecordSingle | sidecar/internal/diffreview/pending.go:96-101 | an individual decision is recorded over an earlier one |
| PendingStore.Store.Note | sidecar/internal/diffreview/pending.go:89-101 | the path's review gets the decision, every other review is as before |
| PendingStore.Store.DecideMany | sidecar/internal/diffreview/pending.go:82-123 | new reviews and outcome: none, recorded, stale and discarded, or written with which text |
| PendingStore.Store.Decide | sidecar/internal/diffreview/pending.go:72-76 | the same for one hunk |
| PendingStore.Store.AcceptAll | sidecar/internal/diffreview/pending.go:78-79 | the same for accepting the rest |
| PendingStore.Store.RejectAll | sidecar/internal/diffreview/pending.go:80-80 | the same for rejecting the rest |
| ReviewRuns.ReviewsTrackHistory | sidecar/internal/diffreview/pending.go:42-123 | in every reachable state each review records exactly the verdicts of its history and is unresolved |
| ReviewRuns.WritesTheVerdicts | sidecar/internal/diffreview/pending.go:115-116 | every write puts down the last proposed change with exactly the hunks whose latest verdict is to accept |
| ReviewRuns.ResolvedMeans | sidecar/internal/diffreview/pending.go:103-103 | the count of ids means "every hunk decided" exactly when all decided ids name hunks |
| ReviewRuns.ResolvesWithLastHunk | sidecar/internal/diffreview/pending.go:103-118 | without stray ids, the step that writes, or finds the file stale, is the step that decides the last hunk |
| ReviewRuns.ChangesOnlyWhenResolved | sidecar/internal/diffreview/pending.go:72-123 | without foreign writes in the step, a file changes only when its last hunk is decided, and to the accepted mix |
| ReviewRuns.OpenExactly | sidecar/internal/diffreview/pending.go:40-123 | in every run, no stray id decided since, a path has an open review exactly when a change was proposed and a hunk of the last one is undecided |
| ReviewRuns.OutcomeExactly | sidecar/internal/diffreview/pending.go:82-123 | over histories, for individual and bulk decisions alike: refused without an open review, recorded while a hunk is undecided, and with the last hunk written iff the file is unchanged, missing or unreadable, and discarded as stale otherwise |
| ReviewRuns.NothingProposed | sidecar/internal/diffreview/pending.go:84-88 | a decision on a path nothing was proposed for is refused |
| ReviewRuns.LastDecisionWrites | sidecar/internal/diffreview/pending.go:103-118 | the last decision on an unchanged file ends the review and, its write working, leaves there the accepted mix |
| ReviewRuns.BulkClears | sidecar/internal/diffreview/pending.go:78-95 | bulk steps keep earlier verdicts, decide the rest, and clear the path iff no stray id was decided |
| ReviewRuns.StrayIdWrites | sidecar/internal/diffreview/pending.go:96-103 | a decision on hunk 7 of a one-hunk change writes the old text with the hunk undecided |
| ReviewRuns.StrayIdWritesExample | sidecar/internal/diffreview/pending.go:96-103 | a concrete change for which that happens |
| ReviewRuns.LostUpdateExactly | sidecar/internal/diffreview/pending.go:106-117 | over every history, a write replaces content other than the last proposed base iff that content arrives between read and write, or the file could not be read |
| ReviewRuns.WriteFindsBase | sidecar/internal/diffreview/pending.go:106-117 | over every history, a write that nothing interferes with finds a readable file to be the last proposed base, or absent |
| ReviewRuns.RaceLosesUpdate | sidecar/internal/diffreview/pending.go:109-116 | a run in which content put there between read and write is lost |
| ReviewRuns.UnreadableLosesUpdate | sidecar/internal/diffreview/pending.go:109-116 | a run in which newer content of an unreadable file is lost |
| Framing.LineReader.Drain | app/Vmux/Sidecar/SidecarClient.swift:90-105 | one read routes the complete non-empty lines of buffer and chunk and keeps the unfinished rest |
| Framing.ChunkingIsIrrelevant | app/Vmux/Sidecar/SidecarClient.swift:99-104 | for every cutting into reads, the routed lines are the non-empty complete lines of the whole stream |
| Framing.WriteLine | app/Vmux/Sidecar/SidecarClient.swift:185-198 | what is sent is a prefix of payload and newline, all of it iff success, for every behaviour of write |
| ServerReader.ReadLine | sidecar/internal/rpc/server.go:187-198 | one message off the stream, trimmed; oversize iff more than 16 MiB come before the next line |
| ServerReader.Trim | sidecar/internal/rpc/server.go:193-196 | trims exactly the trailing newlines and carriage returns |
| ServerReader.HandleConn | sidecar/internal/rpc/server.go:126-147 | dispatches the non-empty lines up to the first end of file or oversize line |
| ServerReader.ServerRecovers | sidecar/internal/rpc/server.go:126-198 | over any sequence of client writes, whole or failed part way, the server dispatches exactly the payloads whose writes succeeded iff no torn frame precedes a whole one and none of those payloads is over-long or ends in a carriage return |
| ServerReader.TornFrameSpoilsNext | app/Vmux/Sidecar/SidecarClient.swift:185-198 | a torn "A" and a whole "B" reach the server as "AB" |
| PeerReader.Run | sidecar/internal/mcp/peer.go:43-68 | routes the non-blank lines, a last unterminated one included, and fails pending calls iff no line is oversize |
| PeerReader.TrimmedLength | sidecar/internal/mcp/peer.go:237-242 | the trimming loop leaves nothing exactly of lines of newlines, carriage returns and spaces |
| PeerReader.PeerRecovers | sidecar/internal/mcp/peer.go:43-68 | over any sequence of writes, whole or failed part way, the peer routes exactly the frames whose writes succeeded, and then what is left over, iff no torn frame precedes a whole one and everything routed is within 32 MiB and not blank |
| PeerReader.TornFrameSpoilsNext | sidecar/internal/mcp/peer.go:179-189 | a torn "A" and a whole "B" reach the peer as "AB" |
| PeerReader.FailsPendingIff | sidecar/internal/mcp/peer.go:51-62 | the end of the stream fails the pending calls iff no frame was over 32 MiB |
| Outbound.Connection.Send | sidecar/internal/rpc/conn.go:27-34 | queues when there is room, abandons only when closing, blocks exactly when full and open |
| Outbound.Connection.Select | sidecar/internal/rpc/conn.go:46-51 | one turn of the writer: returns, takes the head of the queue, or waits |
| Outbound.Connection.Write | sidecar/internal/rpc/conn.go:52-63 | a written line joins the written ones, a failed write closes the connection |
| Outbound.Connection.Close | sidecar/internal/rpc/conn.go:66-71 | closing changes nothing but the done flag |
| Outbound.BuildFrame | sidecar/internal/rpc/conn.go:52-56 | the frame is fresh memory holding line and newline; the shared line is unchanged |
| Outbound.OutboundSafety | sidecar/internal/rpc/conn.go:29-64 | at every step accepted = written + in flight + queued, the queue is at most 256, each producer's lines are in call order |
| Outbound.RegisteredIff | sidecar/internal/rpc/server.go:114-124 | in every run a connection is registered exactly when it was added and not removed since |
| Outbound.TargetsExactly | sidecar/internal/rpc/server.go:61-76 | a broadcast sets out to reach exactly the connections open when it starts, a reply exactly its own |
| Outbound.NothingDropped | sidecar/internal/rpc/server.go:50-77 | when a call returns, every connection open when its broadcast started, or that it replied to, has the line, or was closed or failed a write |
| Outbound.OnlyTargetsReached | sidecar/internal/rpc/server.go:54-77 | a connection accepts only lines broadcast while it was open, or sent to it in reply |
| Outbound.CallOrderKept | sidecar/internal/rpc/server.go:50-77 | a connection accepts the lines of one producer in the order in which its calls started |
| Outbound.DoneIff | sidecar/internal/rpc/conn.go:57-71 | a connection is done exactly when it was closed or a write on it failed |
| Outbound.NeverStuck | sidecar/internal/rpc/conn.go:27-64 | a waiting send can go through, give up on a closed connection, or wait for a writer that can move; with nothing left to send the call can return |
| Outbound.ClientRoutesWritten | sidecar/internal/rpc/conn.go:46-64 | however reads cut them, the client routes exactly the written lines, a prefix of the accepted ones |
| McpPeer.Peer.Register | sidecar/internal/mcp/peer.go:127-136 | a fresh id and channel, entered in the table iff the peer is not closed |
| McpPeer.Peer.Deliver | sidecar/internal/mcp/peer.go:191-203 | unregisters the id and sends to its channel only; the send cannot block or panic |
| McpPeer.Peer.DropPending | sidecar/internal/mcp/peer.go:205-209 | unregisters one id |
| McpPeer.Peer.FailPending | sidecar/internal/mcp/peer.go:211-218 | closes every pending channel, each once, and empties the table |
| McpPeer.Peer.Close | sidecar/internal/mcp/peer.go:168-177 | sets the closed flag; only the first call goes on to close the stream |
| PeerRuns.AtMostOneEvent | sidecar/internal/mcp/peer.go:122-157 | in every run a call's channel gets at most one of a message or a close, and a returned call is unregistered |
| PeerRuns.ReaderNeverBlocks | sidecar/internal/mcp/peer.go:191-218 | in every run the reader's send is never blocked or on a closed channel, and nothing is closed twice |
| PeerRuns.OwnResponse | sidecar/internal/mcp/peer.go:122-157 | a call that returns a response returns one read off the wire before, with its own id |
| PeerRuns.ReceiveReturns | sidecar/internal/mcp/peer.go:148-155 | a call that takes its channel returns the first response routed after it registered if there was one, and otherwise that the connection is gone |
| PeerRuns.OutcomeTells | sidecar/internal/mcp/peer.go:122-157 | a call is refused iff the peer was closed when it registered, failed iff its write failed, cancelled iff its context ended first, and otherwise ends with what its channel gave |
| PeerRuns.RequestsIgnored | sidecar/internal/mcp/peer.go:70-85 | a message with a method name changes no call, whatever its id |
| PeerRuns.CallSucceeds | sidecar/internal/mcp/peer.go:121-157 | a run in which a call returns its response |
| PeerRuns.FailPendingReleases | sidecar/internal/mcp/peer.go:211-218 | after failPending a waiting call can proceed iff it was writing or waiting at that moment |
| PeerRuns.OversizeReleases | sidecar/internal/mcp/peer.go:51-53 | after the oversize exit a waiting call can proceed iff it was writing or waiting at that moment and its response had already been routed |
| PeerRuns.StuckForever | sidecar/internal/mcp/peer.go:144-156 | with the reader gone, a registered waiting call stays so, unable to proceed, in every later state until it is cancelled |
| PeerRuns.StuckAfterEof | sidecar/internal/mcp/peer.go:60-66 | a run in which a call after end of file is stuck |
| PeerRuns.StuckAfterOversize | sidecar/internal/mcp/peer.go:51-53 | a run in which a call outstanding at an oversize frame is stuck |
| SidecarClient.Client.MakeID | app/Vmux/Sidecar/SidecarClient.swift:143-147 | a fresh id |
| SidecarClient.Client.AddPending | app/Vmux/Sidecar/SidecarClient.swift:149-152 | enters the continuation under its id |
| SidecarClient.Client.ResumePending | app/Vmux/Sidecar/SidecarClient.swift:107-133 | unregisters one id and resumes its continuation only, if there is one |
| SidecarClient.Client.HandleDisconnect | app/Vmux/Sidecar/SidecarClient.swift:173-183 | empties the table and fails every continuation in it, each once |
| SidecarClient.ResumedAtMostOnce | app/Vmux/Sidecar/SidecarClient.swift:117-183 | in every interleaving no continuation is resumed twice |
| SidecarClient.AllResumedWhenGone | app/Vmux/Sidecar/SidecarClient.swift:117-183 | with the connection gone, the read handler done and the serial queue drained, every queued call has been resumed |
| SidecarClient.OwnReply | app/Vmux/Sidecar/SidecarClient.swift:107-115 | a call resumed with a reply got a line routed for its own id earlier in the run, and is resumed by nothing else |
| SidecarClient.ResumesExactly | app/Vmux/Sidecar/SidecarClient.swift:107-183 | in every run an unresumed call is resumed by exactly the steps meant for it: a line routed for its id, with that line; its failed write or the failing of every call, with the error |
| SidecarClient.CallsOnlyWhileConnected | app/Vmux/Sidecar/SidecarClient.swift:120-122 | a call passes the guard exactly while the client is connected |
| SidecarClient.UnresumedIffPending | app/Vmux/Sidecar/SidecarClient.swift:117-183 | a queued call is unresumed exactly while it is in the table |
| SidecarClient.ResumedAfterClose | app/Vmux/Sidecar/SidecarClient.swift:200-203 | with the client closed and its queue drained, a call has been resumed iff it was not written and unanswered at the close, or a read handler running at the close still routed its reply or failed every call |
| SidecarClient.ClosedNeverResumes | app/Vmux/Sidecar/SidecarClient.swift:200-203 | a call written and unanswered at a close() with no read handler running is pending and unresumed in every later state |
| SidecarClient.ResumedUnlessInFlight | app/Vmux/Sidecar/SidecarClient.swift:200-203 | and those calls are the only ones lost by such a close |
| SidecarClient.CloseLeavesPending | app/Vmux/Sidecar/SidecarClient.swift:200-203 | a run in which a call is lost |
| SidecarClient.ReplyAfterClose | app/Vmux/Sidecar/SidecarClient.swift:90-105 | a run in which the handler routes, after close(), a reply it had read before it |
| SidecarClient.FailedAfterClose | app/Vmux/Sidecar/SidecarClient.swift:90-98 | a run in which the handler, started before close(), finds the socket closed and fails the calls |
| Approval.Gate.SetMode | sidecar/internal/approval/gate.go:33-42 | sets a valid mode, refuses others and changes nothing then |
| Approval.Gate.Evaluate | sidecar/internal/approval/gate.go:44-62 | denies exactly commands and file writes in sandbox mode, under the sandbox rule; asks approval exactly for commands a rule fires on in gate mode, under that rule; allows everything else, watch being the default |
| Approval.Queue.Add | sidecar/internal/approval/queue.go:42-51 | a new item under a new id with an empty channel |
| Approval.Queue.Decide | sidecar/internal/approval/queue.go:53-65 | removes the id and sends to that item only; false iff unknown; the send cannot block |
| Approval.Queue.Remove | sidecar/internal/approval/queue.go:67-73 | removes the id without a decision |
| Approval.Queue.List | sidecar/internal/approval/queue.go:75-88 | exactly one view per pending item |
| ApprovalRuns.ExactlyOnePlace | sidecar/internal/approval/queue.go:42-73 | in every run each added id is in exactly one of pending, decided, removed |
| ApprovalRuns.DecideNeverBlocks | sidecar/internal/approval/queue.go:53-65 | a decision's send is never blocked, whatever became of the waiter |
| ApprovalRuns.DecidesOnce | sidecar/internal/approval/queue.go:53-65 | Decide succeeds at most once per id |
| ApprovalRuns.EvaluationStands | sidecar/internal/approval/gate.go:44-86 | over every run, by the mode last validly set for the workspace: blocked actions stand denied, gated ones wait under their rule for an item queued since, all others stand allowed |
| ApprovalRuns.GatedNeedsApproval | sidecar/internal/approval/gate.go:64-86 | in every run a command that a rule gates goes ahead only if afterwards a Decide(id, true) succeeds for the item it queued |
| ApprovalRuns.ProceedsOnlyIfPermitted | sidecar/internal/approval/gate.go:44-86 | in every run whatever goes ahead was begun as an action its workspace's mode did not block, and if gated was approved since |
| ApprovalRuns.TakesDecision | sidecar/internal/approval/gate.go:75-80 | a check that takes its decision goes ahead or is refused exactly as the Decide that found its item said |
| ApprovalRuns.ApprovedCanProceed | sidecar/internal/approval/gate.go:75-80 | once its item is decided, a waiting check can take the decision, or the decision can be sent |
| ApprovalRuns.CancelledLeavesQueue | sidecar/internal/approval/gate.go:81-84 | a check whose context ended is refused, and its item leaves the queue |
| ApprovalRuns.ReturnedLeavesQueue | sidecar/internal/approval/gate.go:64-86 | no check that has returned leaves its item in the queue |
| ApprovalRuns.ApprovedThenCancelled | sidecar/internal/approval/gate.go:75-84 | a run in which an approved action is refused because its context ended |
| Cookies.DecryptAfterEncrypt | sidecar/internal/chromeimport/cookies.go:40-54 | CBC decryption undoes CBC encryption for every permutation, key, IV and text |
| Cookies.EncryptAfterDecrypt | sidecar/internal/chromeimport/cookies.go:40-54 | and the other way round |
| Cookies.ChainsBlocks | sidecar/internal/chromeimport/cookies.go:50-56 | each cipher block is the encryption of its plain block xored with the one before, the first with the IV, as section 6.2 of SP 800-38A says |
| Cookies.PadPKCS7 | sidecar/internal/chromeimport/cookies.go:70-78 | the loops produce data followed by the pad byte |
| Cookies.PadLen | sidecar/internal/chromeimport/cookies.go:71-71 | between 1 and the block size, reaching a multiple of it |
| Cookies.PaddedLength | sidecar/internal/chromeimport/cookies.go:70-78 | the padded length is a positive multiple of the block size, longer than the data |
| Cookies.UnpadAfterPad | sidecar/internal/chromeimport/cookies.go:59-78 | unpadding undoes padding iff the pad length fits a byte |
| Cookies.PadIsInjective | sidecar/internal/chromeimport/cookies.go:70-78 | for block sizes of a byte, different data have different paddings |
| Cookies.PadAfterUnpad | sidecar/internal/chromeimport/cookies.go:59-68 | what unpadding accepts is the padding of its result iff the pad bytes are uniform |
| Cookies.NonUniformAccepted | sidecar/internal/chromeimport/cookies.go:63-67 | a block that is accepted although its pad bytes are not uniform |
| Cookies.DecryptEncrypted | sidecar/internal/chromeimport/cookies.go:28-57 | DecryptCookie(k, EncryptCookie(k, p)) == p for every plaintext and accepted key |
| Cookies.EncryptDecrypted | sidecar/internal/chromeimport/cookies.go:28-57 | a value that decrypts is the encryption of its plaintext iff its padding is uniform |
| Cookies.DecryptsButIsNoEncryption | sidecar/internal/chromeimport/cookies.go:28-57 | under every accepted key a value that decrypts to a plaintext whose encryption it is not |
| Cookies.CookieStarts | sidecar/internal/chromeimport/cookies.go:48-57 | an encrypted cookie is "v10" and then the encryption of its first padded block xored with sixteen spaces |
| Cookies.RefusalsExactly | sidecar/internal/chromeimport/cookies.go:30-41 | which values are refused before decryption, and with which error |
| KeyDerivation.Pbkdf2 | sidecar/internal/chromeimport/cookies.go:80-104 | the loops compute the derived key of RFC 8018 section 5.2, one iteration when asked for fewer |
| KeyDerivation.Block | sidecar/internal/chromeimport/cookies.go:88-101 | one block is U_1 xor ... xor U_c |
| KeyDerivation.BlockIsXorOfChain | sidecar/internal/chromeimport/cookies.go:88-101 | a block is the xor of any list that starts with the function of salt and block number and goes on by applying it to the one before |
| KeyDerivation.BlockCount | sidecar/internal/chromeimport/cookies.go:84-84 | the fewest blocks that hold the key |
| KeyDerivation.XorInto | sidecar/internal/chromeimport/cookies.go:98-100 | the innermost loop xors in place |
| KeyDerivation.Int4Value | sidecar/internal/chromeimport/cookies.go:90-90 | the four octets are the block number modulo 2^32, big-endian |
| KeyDerivation.ShorterKeyIsPrefix | sidecar/internal/chromeimport/cookies.go:80-104 | a shorter key is a prefix of a longer one |
| KeyDerivation.KeyByte | sidecar/internal/chromeimport/cookies.go:80-104 | byte k of the key is byte k mod 20 of block k / 20 + 1 |
| KeyDerivation.DeriveKey | sidecar/internal/chromeimport/cookies.go:12-26 | Chrome's key is the first 16 bytes of block 1 under its salt and 1003 iterations |
| Activity.ComputeSafeKey | sidecar/internal/activity/store.go:153-167 | character by character, letters, digits, "-" and "_" stay and all others become "_"; "session" for the empty id |
| Activity.SafeKeyFixes | sidecar/internal/activity/store.go:153-167 | keys are safe and non-empty, cleaning twice changes nothing, and exactly the safe non-empty ids are their own keys |
| Activity.Store.Append | sidecar/internal/activity/store.go:37-65 | numbers the event and redacts its summary and detail, keeps every session's ring the last 5000 of its history, appends to its file when that works |
| Activity.Store.Push | sidecar/internal/activity/store.go:45-49 | the session's ring gains the event and keeps its last 5000 |
| Activity.Store.PersistLocked | sidecar/internal/activity/store.go:133-151 | the event is appended to its session's file, or nothing changes when that fails |
| Activity.Store.Recent | sidecar/internal/activity/store.go:67-76 | the newest events of the session, up to min(n, 5000) and none newer missing, strictly increasing in seq, each the redaction of one given; with all writes working, a suffix of its log exactly when that many of the log's last lines are the session's |
| Activity.Store.All | sidecar/internal/activity/store.go:78-101 | the session's log, or nothing; its lines of the session are those found at the start and then exactly the events whose write worked |
| Activity.FileKeepsSession | sidecar/internal/activity/store.go:129-151 | even in a shared file a session's lines are complete and in order |
| Activity.RecordedExactly | sidecar/internal/activity/store.go:133-151 | among the recorded events is an event exactly when its write worked |
| Activity.RecordedAscends | sidecar/internal/activity/store.go:133-151 | the recorded events strictly increase in seq, whichever writes failed |
| Activity.OwnFileIsHistory | sidecar/internal/activity/store.go:129-151 | a session's own file is what it started with and then its history |
| Activity.RecentIsSuffixOfAll | sidecar/internal/activity/store.go:67-101 | recent events are a suffix of the log when the file is the session's own |
| Activity.RecentIsSuffixIff | sidecar/internal/activity/store.go:67-101 | recent events are a suffix of the log exactly when that many of its last lines are the session's |
| Activity.RecentIsSuffixOfOwnLines | sidecar/internal/activity/store.go:67-101 | in any case they are a suffix of the session's own lines |
| Activity.SharedFileBreaksSuffix | sidecar/internal/activity/store.go:153-167 | two ids with one key for which they are not a suffix of the whole file |
| Activity.SessionSeqIncreases | sidecar/internal/activity/store.go:40-41 | the sequence numbers of a session strictly increase |
| Replay.Timeline | sidecar/internal/replay/replay.go:35-70 | the loops give one moment per bucket in use, in bucket order, describing exactly its events, for buckets of so many seconds and five by default |
| Replay.Pick | sidecar/internal/replay/replay.go:66-68 | the moments in the order of the sorted keys |
| Replay.Sort | sidecar/internal/replay/replay.go:65-65 | the same keys, ascending |
| Replay.MaxRisk | sidecar/internal/replay/replay.go:61-63 | no risk ranks higher, and it is one of those given, or empty |
| Replay.TimelineConserves | sidecar/internal/replay/replay.go:49-68 | the counts sum to the number of events, for logs in any order |
| Replay.MomentsAscend | sidecar/internal/replay/replay.go:52-68 | moments are at least one bucket apart, ascending |
| Replay.EventInWindowIff | sidecar/internal/replay/replay.go:52-55 | an event lies in its bucket's window iff it is not before the start, or on a boundary |
| Replay.EventInOneWindow | sidecar/internal/replay/replay.go:49-68 | in a log in time order each event lies in the window of exactly one moment, the one that counts it |
| Replay.MomentSummary | sidecar/internal/replay/replay.go:59-63 | MaxRisk has the highest rank of the bucket and is one of its risks; Kind is the last event's |
| Replay.GravestRisk | sidecar/internal/replay/replay.go:61-63 | a moment's MaxRisk is high iff its bucket has a high event, else medium iff it has one, else low iff it has one, else empty |
| Replay.KindIsDominantIff | sidecar/internal/replay/replay.go:27-33 | Kind is the dominant kind of the bucket iff no event of it has a kind that occurs more often than the last event's |
| Replay.LastKindNotDominant | sidecar/internal/replay/replay.go:59-60 | for two tool calls and then a command in one bucket the only moment says command, and tool call is dominant |
| Replay.MostlyToolCallsExample | sidecar/internal/replay/replay.go:49-64 | such a log with its timeline |
| Replay.At | sidecar/internal/replay/replay.go:82-118 | the single pass answers the declarative query over the events before the first later one |
| Replay.SnapshotMeans | sidecar/internal/replay/replay.go:82-118 | the refs of the last screenshot and summary of the last tool call before the first later event, and the summaries of edits, commands and console lines in the last so many seconds, 30 by default, in log order |
| Replay.EarlyExitExactIff | sidecar/internal/replay/replay.go:95-98 | the early exit sees exactly the events up to every time asked iff the log is in time order |
| Replay.SnapshotExactIff | sidecar/internal/replay/replay.go:95-116 | for any log, time and window the snapshot is that of all events up to the time iff the events behind the exit list nothing in the window and repeat the last screenshot and tool call |
| Workspaces.Registry.Open | sidecar/internal/workspace/registry.go:56-82 | the new index and result; re-opening and failing change nothing |
| Workspaces.Registry.OpenLocked | sidecar/internal/workspace/registry.go:84-110 | both maps gain the workspace, or neither changes |
| Workspaces.Registry.Close | sidecar/internal/workspace/registry.go:134-147 | forgets the workspace and its path, false iff unknown |
| Workspaces.Registry.OnGitChange | sidecar/internal/workspace/registry.go:158-167 | replaces the git status of an open workspace and moves nothing |
| Workspaces.Registry.PersistLocked | sidecar/internal/workspace/registry.go:196-210 | one entry per open workspace, in some order |
| Workspaces.Registry.Load | sidecar/internal/workspace/registry.go:174-194 | the index after the entries that still open, duplicate paths skipped |
| Workspaces.StaysInverse | sidecar/internal/workspace/registry.go:56-167 | over every run of opens, closes and git changes the two maps stay inverses |
| Workspaces.KeepsId | sidecar/internal/workspace/registry.go:56-147 | a path keeps its id through every run of opens, closes and git changes that does not close that id |
| Workspaces.ReopenKeepsId | sidecar/internal/workspace/registry.go:71-75 | opening it again after any such run returns that id and changes nothing |
| Workspaces.LoadedInverseIff | sidecar/internal/workspace/registry.go:185-193 | a loaded index is consistent iff no two entries it opens share an id |
| Workspaces.PersistLoadSome | sidecar/internal/workspace/registry.go:174-210 | after persist and load exactly the workspaces whose directory opens come back, under their ids and paths |
| Workspaces.PersistLoad | sidecar/internal/workspace/registry.go:174-210 | with every directory there, load undoes persist |
| Workspaces.SharedIdDangles | sidecar/internal/workspace/registry.go:71-75 | a registry file with a shared id after whose closing a path has no workspace |

## Left out

- PendingStore.Store.Stage: file modes, the change callback and the list of pending reviews are not modelled.
- PendingStore.Store.DecideMany: the individual map always has the one entry its only caller gives it; what is written is the outcome, and the write itself happens in ReviewRuns.
- ReviewRuns.LostUpdateExactly: another program's interference is one change between the store's read and its write.
- Framing.LineReader.Drain: the 64 KiB size of a read is left open, any chunk is allowed.
- PeerReader.Run: a read error counts as the end of the stream, and decoding of the routed line is not modelled.
- SidecarClient.AllResumedWhenGone: it is about connections lost before any close(); what close() itself does is in SidecarClient.ResumedAfterClose.
- SidecarClient.ResumedAfterClose: a write is one step, before or after the close; connecting again, a close() half way through connecting, and the writes of fire-and-forget notifications are not steps of the model.
- SidecarClient.Client.MakeID: ids are unbounded, as are those of McpPeer.Peer.Register and the sequence numbers of Activity.Store.Append; 64-bit overflow is not modelled.
- McpPeer.Peer.Deliver: an id that is not an integer is the same as none.
- McpPeer.Peer.Close: closing the stream makes the reader see an error later; that step is not tied to the close.
- Outbound.NothingDropped: the goroutines of a broadcast are steps in any order; handlers run in no order at all, as in the server.
- Activity.Store.PersistLocked: a write that fails leaves nothing behind; a line torn by a failing disk is not modelled.
- Activity.Store.All: the 8 MiB line limit of the scanner and undecodable lines are not modelled; Subscribe is left out, since sending after unsubscribing has no clean safety property.
- Activity.ComputeSafeKey: characters stand for runes.
- Replay.Timeline: the log is given, an error of its source is passed on unchanged; times are unbounded nanoseconds, without the saturation of Go's durations.
- Workspaces.Registry.Open: path resolution, watchers and metadata are one answer of the outside world; List, Get and Shutdown are not modelled.
- dispatch and serveRequest: the replies to requests with known and unknown methods and the recovery from panics of handlers are not modelled.
- JSON encoding and decoding, sockets, peer credentials, PTYs, processes, file watching, the user interface, bookmarks, ports, screenshots, preferences and editor arguments.
