# Verification of the binary log tool and the xbstream receiver

A Dafny model of the parts of polardbx-operator that decide whether a restored PolarDB-X cluster is
consistent:

- **Consistent points** (`pkg/binlogtool/algo`, `pkg/binlogtool/cmd/recover.go`). A heartbeat
  transaction h is located, its prepare P_h and commit C_h are found in the binary log of every
  node, and the transactions that must survive a restore are grown from there. Every log is cut at
  its last recoverable prepare, and in-doubt XA branches are committed or rolled back.
- **Binary logs** (`pkg/binlogtool/binlog`, `pkg/binlogtool/tx`, `pkg/binlogtool/utils`): opening,
  probing, scanning, filtering, truncating, buffered reading, and turning log events into
  two-phase-commit events.
- **Files** the tools exchange: the consistent point file and the transaction event dump.
- **xbstream unpacking** (`pkg/hpfs/filestream`): chunk parsing, demultiplexing, sparse files.

`dafny verify dfyconfig.toml` checks the whole project.

## What is proved

*Seeking.* Stage one is a state machine of one worker per stream. Every interleaving of the workers,
run to the end, gives the sequential answer, or an error that some stream really has
(`StageOne.EveryScheduleIsCorrect`). Stage two, for every iteration order of its maps and on both of
its exits, gives the least set of transactions that contains the seed and is closed under "commits
before the last prepare of a member" (`StageTwo.StageTwo`, `StageTwo.ClosureIsLeast`). Together they
answer exactly when every stream has P_h before its first C_h, and the answer is unique
(`SeekConsistentPoint.Perform`, `SeekConsistentPoint.PointIsUnique`).

*Atomicity.* `Atomicity` takes logs of a two-phase-commit system, on arbitrarily many nodes and
branches, cuts them at the answer's borders and applies the recover command. A log need not go back
to the beginning: branches may be prepared, committed or rolled back before it starts. If no stray
transaction slipped into the seed, every transaction of the answer is then committed on all its
branches, and every other one only where it was committed before the log starts
(`Atomicity.RecoveryIsAtomic`, `Recover.RecoveredNodesAgree`). So a transaction stays all-or-none if
and only if it is in the answer or the logs start before or after all of its commits
(`Atomicity.StrayFreeAtomicIff`); `LateStart.AtomicityFails` is a pair of valid logs, one starting
between the commits of a transaction, on which that fails.

Without the proviso on strays the answer itself can be wrong. The comment at
`pkg/binlogtool/algo/seek_consistent_point.go:71` speaks of moving commits to the recoverable set
when P_h moves ahead, but the loop below it moves every event's transaction.
`RepeatedHeartbeat.RepeatedPrepareBreaksAtomicity` is a concrete pair of valid logs on which a
transaction of the answer ends up half committed. `Atomicity.AtomicIff` says of every transaction,
with strays and late starts, exactly when it stays all-or-none, by where its events lie in the logs
and what was settled before them, and not by the answer. `Atomicity.SeedIsIntendedIff` says when the
seed is the intended one; a heartbeat prepared once per stream is enough
(`Atomicity.SinglePrepareIsStrayFree`).

*From bytes to nodes.* `StreamLog` scans the files of a stream one after the other and parses them:
whatever the bytes, the two-phase-commit events come in log order. `TruncatedStream` truncates the
file a border lies in and drops the later ones: what is then parsed is a prefix of the full stream,
with exactly the events that are not past the border, also where a file is read from a later
boundary on. `Restore.RestoredClusterIsAtomic` puts it all together, from the bytes of every node's
CRC-32 logs to committed branches. `RecoveryRun.SeekThenRecover` runs the commands: the consistent
point is sought and written to a file, and recover reads it back on a restored node; if recover ends
without an error, that node has committed what it should. What reaches the node is text: a reader of
XA statements gets back exactly what was decided, and nothing if an id has a quote in it
(`XaStatements.TextReadBack`).

*Parsing.* `TxMeaning.ParsedMeans` says of any log what is parsed from it, by positions: each log
event stands for the events a statement, an XA_PREPARE or an XID_EVENT after a write to the
transaction log table means, with the last number, tables, rows and BEGIN since the one before that
stood for any; the first log event that cannot be read ends the parse. `TxMeaning.ParsedIff` is the
same for a single event. `XidText.StatementIff` says exactly which texts are statements on which
transaction; it is more than a server writes.

*Scanning.* The scanner class refines a functional scanner over bytes. On well-formed logs of any
length, past 2^32 bytes too, it returns exactly the events in the log from any boundary on, with the
first event or a probe due or not; filtering inside it agrees with filtering outside; probing finds
the first offset that looks like a header, and stays put on a true boundary; truncating a CRC-32 log
gives a byte prefix of it. For a log that declares checksums off the copy lacks the last four bytes
of its first event, so among logs that declare an algorithm the prefix law holds if and only if it
is CRC-32 (`BinlogWrite.TruncateIsPrefixIff`); `BinlogWrite.TruncationDropsBytes` is a log without.
Logs of servers before 5.6.1 declare none (`ServerVersion.DeclaresIff`). The writer takes the last
byte of their first event for one, so there the law holds if and only if that byte is not the code
of CRC-32 (`OldLogs.OldTruncateIsPrefixIff`). Which events are kept is said by offsets and
timestamps alone (`BinlogWrite.TruncatesByLimits`); stored checksums are not looked at and come out
right (`WrongChecksums.TruncationIgnoresChecksums`). A log that stops amid an event scans as if it
ended before it (`CutLog.CutLogScans`), and a validating scan of any bytes returns only events
stored with the checksum of their bytes (`ValidatedScan.ValidatedIsChecked`).

*Locating heartbeats.* The nearest-timestamp policies start from timestamp 0, so they return the
earliest of the closest heartbeats among those strictly closer to the target than 0 is; if that one
has transaction id 0 it counts as not found. A larger heartbeat at twice the target or later is
missed, and so is any commit with timestamp 0 (`LocateHeartbeats.CandidateIff`,
`LocateHeartbeats.FoundIff`); `LocateHeartbeats.LargerIsMissed` and `LocateHeartbeats.ZeroIsMissed`
are inputs of both kinds.

*Unpacking.* For every interleaving of chunks, every closed file equals the expansion of its own
chunks with holes as zeros, with and without hole punching, if and only if it does not end in a hole
followed by chunks that do nothing (`XbStream.Demultiplexer.UnpackedFile`, `XbStream.ReassembledIff`;
`XbStream.HoleIsLost` is a concrete loss).

## How the code became a model

Go maps iterated in random order become `:|` choices; goroutines become steps of a state machine
chosen by a schedule. Readers and files are byte sequences with a position. Integers are unbounded
and widths are written out where they matter: header positions are modulo 2^32, lengths written to
fixed fields are truncated, slices out of range are errors that stand for Go's panics. Errors of the
operating system, of the network and of MySQL are parameters or left out.

Where code and documentation disagree the model follows the code: the moved transactions above; the
event dump, whose comment gives the file offset 4 bytes while 8 are written
(`pkg/binlogtool/tx/binary.go:35-47`), and whose reader takes a record cut within a number for a
whole one, the number being that of the record before (`TxBinary.StopsWithinNumber`); and the show
command, whose chain of scanners returns a nil event when no event reaches the start offset
(`ScanUtils.NilEventIff`), on an empty log too (`ScanUtils.NilEventOfEmptyLog`). Printing
dereferences it (`pkg/binlogtool/cmd/show.go:518-545`), so show fails there.

## Model

| member | source | states |
|---|---|---|
| StageOne.OnEvent | pkg/binlogtool/algo/seek_consistent_point.go:62-97 | The handler of one event: where P_h and C_h are, what moves to the recoverable set when P_h moves ahead, and that only C_h stops the parse |
| StageOne.Move | pkg/binlogtool/algo/seek_consistent_point.go:56-112 | One move of a worker is a step of the state machine: early stop after another's error, parse end, failure, merge under the lock |
| StageOne.StepInv | pkg/binlogtool/algo/seek_consistent_point.go:43-116 | Any move of any worker keeps the invariant: shared sets are the union of merged workers, errors are recorded by failed workers only |
| StageOne.RunInv | pkg/binlogtool/algo/seek_consistent_point.go:43-116 | The invariant holds after every schedule |
| StageOne.FinishedIsCorrect | pkg/binlogtool/algo/seek_consistent_point.go:115-147 | Once all workers are done, the outcome is the sequential one, or reports only errors that streams really have |
| StageOne.EveryScheduleIsCorrect | pkg/binlogtool/algo/seek_consistent_point.go:37-147 | The same for every interleaving that runs to the end |
| StageOne.StageOne | pkg/binlogtool/algo/seek_consistent_point.go:37-147 | Stage one with any unfinished worker moving next terminates with a correct outcome |
| StreamMarks.MarksOf | pkg/binlogtool/algo/seek_consistent_point.go:67-94 | First P_h, last P_h before C_h and first C_h of a stream, characterised by what is not between them |
| StreamMarks.ScanByMarks | pkg/binlogtool/algo/seek_consistent_point.go:67-94 | What a worker collects, stated by positions in the log alone: seed, window between P_h and C_h, both offsets; complete exactly when both exist in order |
| StageTwo.LastPrepare | pkg/binlogtool/algo/seek_consistent_point.go:149-161 | The index of the last recoverable prepare of a window, -1 without one |
| StageTwo.ScanEventBorder | pkg/binlogtool/algo/seek_consistent_point.go:150-161 | The reverse scan returns the last recoverable prepare in a range, or one before the range |
| StageTwo.CollectCommits | pkg/binlogtool/algo/seek_consistent_point.go:186-194 | Adds exactly the transactions that commit between offset and border |
| StageTwo.InitialBorders | pkg/binlogtool/algo/seek_consistent_point.go:172-176 | All borders start at the last prepares of the seed |
| StageTwo.CollectRound | pkg/binlogtool/algo/seek_consistent_point.go:181-195 | In any order of streams: commits up to the borders are covered, nothing outside every closed set is added, and the flag tells growth |
| StageTwo.Rescan | pkg/binlogtool/algo/seek_consistent_point.go:200-209 | Borders are the last prepares of the grown set, offsets are past the old borders, and the flag compares as the code does |
| StageTwo.Round | pkg/binlogtool/algo/seek_consistent_point.go:180-214 | A round keeps the invariant; either it makes progress or everything before the borders is covered, on both exits |
| StageTwo.GrowToFixpoint | pkg/binlogtool/algo/seek_consistent_point.go:172-214 | The iteration terminates with the reference closure and its last prepares |
| StageTwo.ClosureIsLeast | pkg/binlogtool/algo/seek_consistent_point.go:163-214 | The reference closure contains the seed, is closed on every window and is below every such set |
| StageTwo.LeastClosedUnique | pkg/binlogtool/algo/seek_consistent_point.go:163-214 | There is only one such set |
| StageTwo.CoveredIsClosure | pkg/binlogtool/algo/seek_consistent_point.go:196-214 | Covered commits before the last prepares are enough to have reached the closure |
| StageTwo.StageTwo | pkg/binlogtool/algo/seek_consistent_point.go:165-232 | Stage two returns the closure with the heartbeat, and cuts every stream at its last recoverable prepare, at P_h without one |
| SeekConsistentPoint.MapKeys | pkg/binlogtool/utils/map.go:27-39 | All keys, each once, in some order |
| SeekConsistentPoint.NameBorders | pkg/binlogtool/algo/seek_consistent_point.go:216-227 | Every stream name gets the cut of its index |
| SeekConsistentPoint.Perform | pkg/binlogtool/algo/seek_consistent_point.go:244-253 | An answer exactly when every stream has P_h before its first C_h; it is the consistent point of the logs |
| SeekConsistentPoint.PointIsUnique | pkg/binlogtool/algo/seek_consistent_point.go:234-253 | Any two consistent points have the same borders and the same transactions up to order |
| SeekConsistentPoint.AnswerIsUnique | pkg/binlogtool/algo/seek_consistent_point.go:234-253 | So numbering of streams, map order and interleaving do not show in the answer |
| SeekConsistentPoint.PointExists | pkg/binlogtool/algo/seek_consistent_point.go:244-253 | Streams that all have the heartbeat in order have a consistent point |
| Atomicity.RecoverableIsCausallyClosed | pkg/binlogtool/algo/seek_consistent_point.go:163-214 | On every stream, what commits before a recoverable prepare of the window or before P_h is recoverable |
| Atomicity.KeptIsUpToCut | pkg/binlogtool/algo/seek_consistent_point.go:216-227 | What survives the cut of a stream is what is not past its cut index |
| Atomicity.KeptCommitsAreRecoverable | pkg/binlogtool/algo/seek_consistent_point.go:163-227 | No commit outside the recoverable set survives a cut |
| Atomicity.EarlyPropagates | pkg/binlogtool/algo/seek_consistent_point.go:163-214 | Closing under the code's rule stays within transactions decided before some P_h |
| Atomicity.EarlyPreparesBeforeCommit | pkg/binlogtool/algo/seek_consistent_point.go:163-214 | All prepares of such a transaction come before C_h of their stream |
| Atomicity.PreparesAreContained | pkg/binlogtool/algo/seek_consistent_point.go:163-227 | So every prepare of an intended transaction survives its stream's cut |
| Atomicity.SeedIsIntendedIff | pkg/binlogtool/algo/seek_consistent_point.go:69-94 | The seed is "committed before the last P_h" if and only if no stray transaction was touched between repeated P_h |
| Atomicity.SinglePrepareIsStrayFree | pkg/binlogtool/algo/seek_consistent_point.go:69-79 | A heartbeat prepared once per stream lets in no stray |
| Atomicity.FateOfTheRest | pkg/binlogtool/algo/seek_consistent_point.go:163-232 | With or without strays: intended transactions are committed everywhere, those not in the answer only where they were before the log starts |
| Atomicity.RecoveryIsAtomic | pkg/binlogtool/algo/seek_consistent_point.go:163-253 | After cutting and recovering without strays, a transaction is committed on all its branches if it is in the answer, and only on those committed before their log starts if not |
| Atomicity.StrayFreeAtomicIff | pkg/binlogtool/algo/seek_consistent_point.go:163-253 | So it is all-or-none if and only if it is in the answer, or none or all of its branches were committed before their logs start |
| Atomicity.FollowedIff | pkg/binlogtool/algo/seek_consistent_point.go:216-227 | An event is up to its stream's cut if and only if some recoverable prepare lies at or after it and before C_h |
| Atomicity.KeptPrepareIff | pkg/binlogtool/algo/seek_consistent_point.go:216-227 | A branch of a recoverable transaction is prepared after the cut if and only if it is prepared before the log starts or before C_h |
| Atomicity.KeptRollbackIff | pkg/binlogtool/algo/seek_consistent_point.go:216-227 | A rollback survives the cut if and only if a recoverable prepare follows it before C_h |
| Atomicity.KeptCommitIff | pkg/binlogtool/algo/seek_consistent_point.go:216-227 | A commit of a recoverable transaction does if and only if one follows it, or shares its XID_EVENT |
| Atomicity.BranchCommittedIff | pkg/binlogtool/algo/seek_consistent_point.go:163-232 | Whether a branch of a recoverable transaction ends up committed, by positions in the logs alone |
| Atomicity.AllCommittedIff | pkg/binlogtool/algo/seek_consistent_point.go:69-79 | A recoverable transaction is committed everywhere if and only if no branch was rolled back before the logs, all its prepares come before C_h and none of its rollbacks is followed by a recoverable prepare before C_h |
| Atomicity.NoneCommittedIff | pkg/binlogtool/algo/seek_consistent_point.go:69-79 | It is committed nowhere if and only if no branch was committed before the logs or commits in time, and those prepared in time are rolled back in time |
| Atomicity.AtomicIff | pkg/binlogtool/algo/seek_consistent_point.go:69-79 | Exactly which transactions stay all-or-none on any valid logs: strays if they are wholly in or wholly out, and those outside the answer if no log starts amid their commits |
| RepeatedHeartbeat.RepeatedPrepareBreaksAtomicity | pkg/binlogtool/algo/seek_consistent_point.go:69-79 | Valid logs on which the answer commits a transaction on one node only |
| RepeatedHeartbeat.AtomicityFails | pkg/binlogtool/algo/seek_consistent_point.go:69-79 | And these logs do have a consistent point, which is not atomic |
| LateStart.LateStartBreaksAtomicity | pkg/binlogtool/cmd/seekcp.go:374-409 | Valid logs without strays, one read from between a transaction's commits, whose every consistent point leaves it half committed |
| LateStart.AtomicityFails | pkg/binlogtool/cmd/seekcp.go:374-409 | And these logs do have a consistent point |
| Recover.Recover | pkg/binlogtool/cmd/recover.go:160-182 | Branches are decided in order by membership of their transaction, each by the text sent, up to the first unreadable id or refused text |
| XaStatements.TextReadBack | pkg/binlogtool/cmd/recover.go:165-181 | A reader of XA statements, keyword, two quoted ids and a decimal format, reads a text sent back as the decision it was made from, and as nothing exactly if an id has a quote |
| XaStatements.TextIsUnambiguous | pkg/binlogtool/cmd/recover.go:165-181 | So the text says which branch is meant and whether it is committed, as long as its ids have no quotes |
| Recover.IssuedCompletesTheCut | pkg/binlogtool/cmd/recover.go:160-182 | By the statements read from the texts sent, exactly the intended branches of a node are committed |
| Recover.RecoveredNodesAgree | pkg/binlogtool/cmd/recover.go:160-182 | From logs to a recovered node: transactions of the point are committed on every branch there, others only where they were before the log starts |
| LocateHeartbeats.LocateHeartbeat.OnUniqueWrite | pkg/binlogtool/algo/locate_heartbeat.go:117-137 | Stops at the first heartbeat write with the name; an unreadable write before it is an error |
| LocateHeartbeats.LocateHeartbeat.OnExactTs | pkg/binlogtool/algo/locate_heartbeat.go:138-147 | Stops at the first commit with the timestamp |
| LocateHeartbeats.LocateHeartbeat.OnNearest | pkg/binlogtool/algo/locate_heartbeat.go:148-173 | Keeps the announced heartbeats, their last rows and the nearest candidate so far |
| LocateHeartbeats.TracksBestNext | pkg/binlogtool/algo/locate_heartbeat.go:158-170 | Replacing the best when strictly closer keeps it the earliest of the closest, starting from timestamp 0 |
| LocateHeartbeats.LocateHeartbeat.Perform | pkg/binlogtool/algo/locate_heartbeat.go:108-186 | The answer under each policy, stated over the whole stream, with its errors |
| LocateHeartbeats.NearestExists | pkg/binlogtool/algo/locate_heartbeat.go:158-170 | If any commit qualifies there is an earliest closest one |
| LocateHeartbeats.AnswerIsUnique | pkg/binlogtool/algo/locate_heartbeat.go:108-186 | The stated answer is the only one |
| LocateHeartbeats.CandidateIff | pkg/binlogtool/algo/locate_heartbeat.go:99-104 | A heartbeat commit qualifies exactly between 0, or the target, and twice the target |
| LocateHeartbeats.FoundIff | pkg/binlogtool/algo/locate_heartbeat.go:148-185 | Found if and only if the stream has no error or unreadable row and the closest heartbeat in range has a transaction id; never timestamp 0, never from twice the target on |
| LocateHeartbeats.NearestIffClosest | pkg/binlogtool/algo/locate_heartbeat.go:99-104 | Nearest is what timestamps say: no heartbeat in range is closer to the target on either side, and of equally close ones it is the earliest |
| LocateHeartbeats.FoundIsClosest | pkg/binlogtool/algo/locate_heartbeat.go:148-185 | The answer is transaction, timestamp and place of that commit, with the first row of its last announcement |
| LocateHeartbeats.WriteAnswer | pkg/binlogtool/algo/locate_heartbeat.go:117-137 | By name: the first write to the heartbeat table that is unreadable or has the name decides, an error or its transaction |
| LocateHeartbeats.WriteFoundIff | pkg/binlogtool/algo/locate_heartbeat.go:117-137 | Found if and only if that write can be read and its transaction is not 0 |
| LocateHeartbeats.ExactFoundIff | pkg/binlogtool/algo/locate_heartbeat.go:138-147 | By timestamp: the first commit at it, unless its transaction is 0 |
| LocateHeartbeats.LargerIsMissed | pkg/binlogtool/algo/locate_heartbeat.go:158-170 | The only heartbeat after 5 commits at 10 and is not found |
| LocateHeartbeats.ZeroIsMissed | pkg/binlogtool/algo/locate_heartbeat.go:158-170 | A heartbeat that commits at 0 is not found around any target |
| XidText.GtridRoundTrip | pkg/binlogtool/tx/parser.go:79-89 | The transaction id in any global transaction id is read back |
| XidText.ArgsRoundTrip | pkg/binlogtool/tx/parser.go:57-77 | The same from the quoted hexadecimal argument of a statement |
| XidText.StatementRoundTrip | pkg/binlogtool/tx/parser.go:91-113 | XA commit, rollback and start statements are told apart and their transaction is read back |
| XidText.GtridIff | pkg/binlogtool/tx/parser.go:79-89 | A global transaction id is read as x if and only if its part before the first @ is five bytes and x in hexadecimal |
| XidText.StatementIff | pkg/binlogtool/tx/parser.go:57-113 | A text is read as a statement of a kind on x if and only if it has the keyword and arguments that say x; without a keyword it is none |
| TxParser.ParsedIsLogOrdered | pkg/binlogtool/tx/parser.go:141-319 | Whatever the log, events come out in log order, a prepare and a commit of one XID_EVENT sharing their place |
| TxParser.TransactionEventParser.HandleAll | pkg/binlogtool/tx/parser.go:246-261 | The handler gets the events in order until it stops or fails |
| TxParser.TransactionEventParser.ProcessOne | pkg/binlogtool/tx/parser.go:141-319 | Reads on until it emits, fails or ends, losing no event between calls; what is emitted is as ParsedMeans says |
| TxParser.TransactionEventParser.Parse | pkg/binlogtool/tx/parser.go:328-343 | All events of the log, as ParsedMeans says, go to the handler; its stop is no error, its error is returned |
| TxMeaning.ParsedMeans | pkg/binlogtool/tx/parser.go:141-343 | Of any log: the events its log events stand for, in order, up to the end or the first that fails, with its error |
| TxMeaning.ParsedIff | pkg/binlogtool/tx/parser.go:141-319 | An event is parsed if and only if a log event before the stop stands for it: type, transaction, place, timestamp and rows by positions in the log |
| TxMeaning.StatementStandsFor | pkg/binlogtool/tx/parser.go:264-290 | A commit, rollback or start statement on x stands for that event of x and no other, with the last number before it |
| TxMeaning.PrepareStandsFor | pkg/binlogtool/tx/parser.go:291-317 | A two-phase XA_PREPARE of x stands for the prepare of x, with the heartbeat rows before it |
| TxMeaning.TablesAgree | pkg/binlogtool/system/system.go:61-69 | The tables of transaction logs and of heartbeats are told by their names, letter by letter |
| BinlogFormat.HeaderRoundTrip | pkg/binlogtool/binlog/event/header.go:132-142 | Parsing the 19 fixed bytes of any header gives its fields back |
| BinlogFormat.FixedBytesRoundTrip | pkg/binlogtool/binlog/write.go:214-247 | Writing a parsed header gives the same 19 bytes |
| Crc32.UpdateConcat | pkg/binlogtool/binlog/scan.go:292-301 | Checksumming header and data in turn is checksumming their concatenation |
| Crc32.ChecksumOfA | pkg/binlogtool/binlog/scan.go:292-301 | The checksum of the letter a is the one known for CRC-32 IEEE |
| BinlogProbe.ProbeFindsFirst | pkg/binlogtool/binlog/scan.go:122-208 | Probing returns an offset if and only if it is the first within the limit that looks like a header |
| BinlogProbe.ProbeStaysAtBoundary | pkg/binlogtool/binlog/scan.go:122-208 | At a true boundary it returns offset 0 |
| BinlogProbe.SlideRing | pkg/binlogtool/binlog/scan.go:133-205 | The 19-byte ring buffer finds what sliding over the content finds, and unrolls to the header |
| BinlogProbe.ProbeNextHeader | pkg/binlogtool/binlog/scan.go:122-208 | The whole probe against its specification, errors included |
| BinlogScan.ProbedHeaderPassesCheck | pkg/binlogtool/binlog/scan.go:315-334 | A probed header always passes the position check, so probing never leads to a bad event |
| BinlogScan.LogEventScanner.constructor | pkg/binlogtool/binlog/scan.go:540-575 | A scanner starts at its position with its first event and probe pending |
| BinlogScan.LogEventScanner.ReadHeader | pkg/binlogtool/binlog/scan.go:210-256 | Reads fixed and extra header bytes, with the errors at each point |
| BinlogScan.LogEventScanner.ReadDataAndSkipFooter | pkg/binlogtool/binlog/scan.go:267-305 | Reads data without its checksum, and checks it if asked to |
| BinlogScan.LogEventScanner.SkipDataAndFooter | pkg/binlogtool/binlog/scan.go:307-313 | Skips exactly the rest of an event |
| BinlogScan.LogEventScanner.ReadOneHeader | pkg/binlogtool/binlog/scan.go:316-354 | One turn: probe at most once, check the position, stop at the end offset, want or skip |
| BinlogScan.LogEventScanner.NextInterestedHeader | pkg/binlogtool/binlog/scan.go:315-355 | Goes on to the next wanted header as the functional scanner does |
| BinlogScan.LogEventScanner.ReadEvent | pkg/binlogtool/binlog/scan.go:421-441 | Header-only, raw, fallback and strict events |
| BinlogScan.LogEventScanner.SeekNext | pkg/binlogtool/binlog/scan.go:416-441 | From header to event with the offset after it |
| BinlogScan.LogEventScanner.Next | pkg/binlogtool/binlog/scan.go:357-442 | State and result are those of the functional scanner; the last error is returned forever |
| BinlogOpen.OpenAtStart | pkg/binlogtool/binlog/scan.go:692-836 | Opening a well-formed log at offset 0 or 4 succeeds with the declared header length and checksum, and the first event pending |
| BinlogOpen.OpenAtBoundary | pkg/binlogtool/binlog/scan.go:692-836 | Opening it past the first event succeeds with nothing pending, positioned there |
| BinlogOpen.OpensIff | pkg/binlogtool/binlog/scan.go:692-836 | A well-formed log opens at 0, at 4 and from the end of its first event on, and nowhere else |
| ServerVersion.VersionReadBack | pkg/binlogtool/binlog/event/format_description_event.go:77-117 | Any server version with parts up to 255 is read back, whatever follows it |
| ServerVersion.DeclaresIff | pkg/binlogtool/binlog/event/format_description_event.go:77-117 | An algorithm is declared if and only if the server is 5.6.1 or later |
| BinlogOpen.FirstIsReadBack | pkg/binlogtool/binlog/scan.go:702-770 | The format description event of a well-formed log is read back |
| BinlogOpen.AlgIsLastByte | pkg/binlogtool/binlog/event/format_description_event.go:77-117 | The declared algorithm is the last byte of the event's data |
| BinlogOpen.GoodLogExists | pkg/binlogtool/binlog/event/format_description_event.go:77-117 | The logs spoken of exist, with and without checksums: a format description event of server 5.7.0 is in order |
| BinlogLog.ScanFromBoundary | pkg/binlogtool/binlog/scan.go:315-442 | From any boundary of a well-formed log of any size: exactly its events from there, with their offsets, up to the end offset |
| BinlogLog.ProbeAtBoundary | pkg/binlogtool/binlog/scan.go:315-334 | A pending probe makes no difference at a boundary |
| BinlogLog.ProbeIsNeutral | pkg/binlogtool/binlog/scan.go:315-334 | A whole scan with a probe due at a boundary, the end included, is the scan without |
| BinlogLog.ScanFromState | pkg/binlogtool/binlog/scan.go:395-442 | From any state at a boundary: the pending first event if it is wanted, then exactly the log's events from there |
| BinlogLog.PushdownAgrees | pkg/binlogtool/binlog/scanutils.go:53-67 | From any state at a boundary, the first event or a probe being due or not: filtering headers in the scanner gives the same events, offsets and end as scanning all and filtering after |
| BinlogLog.LenientPushdownAgrees | pkg/binlogtool/binlog/scan.go:379-389 | In raw, header-only and fallback modes it does on every well-formed log |
| BinlogLog.RawAndFallbackNeverFail | pkg/binlogtool/binlog/scan.go:379-389 | Those modes fail on no event |
| BinlogLog.DecodedIff | pkg/binlogtool/binlog/scan.go:379-389 | A decoded event comes out exactly if the decoder, asked strictly in the strict modes only, gives it |
| BinlogLog.RefusedIff | pkg/binlogtool/binlog/scan.go:379-389 | What it refuses is raw in the fallback modes and an error in the others |
| BinlogLog.ExtraHeaders | pkg/binlogtool/binlog/scan.go:210-256 | Format description and rotate events have bare headers, all others what the log declares |
| BinlogLog.ScannedOffsetsIncrease | pkg/binlogtool/binlog/scan.go:357-442 | Whatever the bytes, offsets of returned events strictly increase |
| CutLog.CutLogScans | pkg/binlogtool/binlog/scan.go:416-441 | A log cut anywhere within an event: a scan that reads data returns the events before it and ends normally |
| ValidatedScan.ScannedIsChecked | pkg/binlogtool/binlog/scan.go:267-305 | On any bytes a validating scan returns only events stored with the checksum of their header and data |
| ValidatedScan.ValidatedIsChecked | pkg/binlogtool/binlog/scan.go:692-836 | The same for a file scanned from its opening on, the first event included |
| BinlogWrite.RawLogEventWriter.Write | pkg/binlogtool/binlog/write.go:45-73 | An event is written as header, data and, once the first event declared CRC-32, its checksum |
| BinlogWrite.RawLogEventWriter.WriteHeader | pkg/binlogtool/binlog/write.go:214-247 | The fixed bytes and extra headers |
| BinlogWrite.RawLogEventWriter.WriteCommonHeader | pkg/binlogtool/binlog/write.go:267-278 | The magic number |
| BinlogWrite.Truncate | pkg/binlogtool/cmd/truncate.go:98-118 | The truncated copy of any bytes; for well-formed logs it is what TruncatesByLimits says |
| BinlogWrite.CopyEvents | pkg/binlogtool/cmd/truncate.go:103-117 | The copying loop, to the end offset, the end timestamp or the first error |
| BinlogWrite.TruncatedShape | pkg/binlogtool/cmd/truncate.go:98-118 | On well-formed logs the copy is the magic number, the first event and the kept ones; the first event's checksum only for CRC-32 |
| BinlogWrite.TruncateIsPrefix | pkg/binlogtool/cmd/truncate.go:98-118 | A truncated CRC-32 log is a byte prefix of it, ending at the last kept boundary |
| BinlogWrite.TruncateIsPrefixIff | pkg/binlogtool/binlog/write.go:45-73 | For logs that declare an algorithm the prefix law holds if and only if it is CRC-32 |
| BinlogWrite.TruncationDropsBytes | pkg/binlogtool/binlog/scan.go:823-833 | A log without checksums whose copy is no prefix of it, whatever the limits |
| OldLogs.OldOpenAtStart | pkg/binlogtool/binlog/event/format_description_event.go:77-117 | A log of a server before 5.6.1 opens with no algorithm declared and its whole first event pending |
| OldLogs.OldTruncatedShape | pkg/binlogtool/binlog/write.go:45-73 | Its truncated copy has checksums exactly if the last byte of its first event is the code of CRC-32 |
| OldLogs.OldTruncateIsPrefixIff | pkg/binlogtool/binlog/write.go:45-73 | So the copy is a byte prefix if and only if that byte is another |
| OldLogs.OldLogExists | pkg/binlogtool/binlog/event/format_description_event.go:77-117 | Such logs exist with any last byte |
| BinlogWrite.KeptUpTo | pkg/binlogtool/cmd/truncate.go:103-117 | All kept events are within the limits, and the next is not |
| BinlogWrite.KeptExactly | pkg/binlogtool/cmd/truncate.go:72-74 | Without an end timestamp an event is kept if and only if it ends at or before the end offset |
| BinlogWrite.KeptIff | pkg/binlogtool/cmd/truncate.go:103-117 | Event k is kept if and only if every event up to it ends by the end offset and is no newer than the end timestamp |
| BinlogWrite.TruncatesByLimits | pkg/binlogtool/cmd/truncate.go:98-118 | All of the copy of a well-formed log: nothing but the magic number if the first event is too new, else that event and exactly the events so kept |
| BinlogWrite.FirstIsKeptIff | pkg/binlogtool/cmd/truncate.go:103-117 | The first event is in the copy if and only if it is no newer than the end timestamp |
| WrongChecksums.TruncationIgnoresChecksums | pkg/binlogtool/cmd/truncate.go:76-118 | Whatever the stored checksums, the copy is that of the log with the right ones |
| StreamLog.ReadFile | pkg/binlogtool/binlog/scan.go:891-906 | What a lazily opened file gives: its events at their places, and an error unless it ends normally |
| StreamLog.ReadStream | pkg/binlogtool/binlog/multi_scan.go:49-67 | The files of a stream in turn, a normal end moving on to the next, another error ending it |
| StreamLog.BrokenFileEnds | pkg/binlogtool/binlog/multi_scan.go:49-67 | A file that cannot be opened or ends in an error ends the stream: no event of a later file follows |
| StreamLog.FileIsOrdered | pkg/binlogtool/binlog/scan.go:315-442 | Whatever the bytes of a file, end offsets strictly increase and fit 64 bits |
| StreamLog.ChainIsIncreasing | pkg/binlogtool/binlog/multi_scan.go:49-67 | Over files in rank order, log events come at strictly increasing places |
| StreamLog.StreamIsLogOrdered | pkg/binlogtool/cmd/seekcp.go:374-409 | Whatever the bytes of its files, the two-phase-commit events of a stream are in log order |
| TruncatedStream.TruncatedIsShortened | pkg/binlogtool/cmd/truncate.go:98-118 | Truncating a CRC-32 log gives the log of its events that end by the offset |
| TruncatedStream.ScanOfTruncated | pkg/binlogtool/cmd/truncate.go:98-118 | Scanning a truncated log, from its start or a boundary, returns exactly the scanned events of the full one that end by the offset |
| TruncatedStream.RestoredItems | pkg/binlogtool/binlog/multi_scan.go:49-67 | With one file cut and later ones dropped, a stream has exactly the log events not past the cut |
| TruncatedStream.ParsedOfPrefix | pkg/binlogtool/tx/parser.go:141-343 | Parsing those gives a prefix of the full parse, with exactly the events not past the cut |
| TruncatedStream.TruncatedEvents | pkg/binlogtool/cmd/truncate.go:98-118 | So parsing a stream truncated at a place gives exactly the events of the full stream up to it |
| Restore.RestoredStream | pkg/binlogtool/algo/seek_consistent_point.go:216-227 | Every stream truncated at its border is a prefix of the full one, up to the border |
| Restore.KeptIsRestored | pkg/binlogtool/cmd/truncate.go:98-118 | What recovery is reasoned to start from is what is parsed from the truncated files |
| Restore.OnDiskIsTwoPhase | pkg/binlogtool/tx/parser.go:141-343 | Streams parsed from files need no assumption on the order of their events |
| Restore.RestoredClusterIsAtomic | pkg/binlogtool/algo/seek_consistent_point.go:244-253 | From the bytes of every node's logs, read from any boundary: truncated at the borders and recovered, a transaction of the point is committed on all its branches, another only where it was before the log starts |
| ScanUtils.NextFiltered | pkg/binlogtool/binlog/scanutils.go:53-67 | The next event on which all predicates hold, and the rest of the filtered events after it |
| ScanUtils.FilterHas | pkg/binlogtool/binlog/scanutils.go:53-67 | What is returned is exactly what passes |
| ScanUtils.FilterAt | pkg/binlogtool/binlog/scanutils.go:53-67 | In its place: an event comes between what those before and after it give, if and only if it passes |
| ScanUtils.PivotScanner.Next | pkg/binlogtool/cmd/show.go:371-377 | Passes events on until one reaches the start offset; that one is captured and ends the scan |
| ScanUtils.TailScanner.Keep | pkg/binlogtool/binlog/scanutils.go:145-152 | The ring holds the last events seen |
| ScanUtils.TailScanner.ReadToEnd | pkg/binlogtool/binlog/scanutils.go:131-154 | All events up to the error go through the ring |
| ScanUtils.TailScanner.Next | pkg/binlogtool/binlog/scanutils.go:125-165 | Returns the last events in order, then the error the scan ended with, forever |
| ScanUtils.PrecedeScanner.constructor | pkg/binlogtool/cmd/show.go:365-385 | The chain of tail, pivot and rest is ahead, as specified over the whole scan |
| ScanUtils.PrecedeScanner.FromTail | pkg/binlogtool/binlog/multi_scan.go:49-67 | The tail's events first; its normal end moves the chain on, another error ends it |
| ScanUtils.PrecedeScanner.Next | pkg/binlogtool/binlog/multi_scan.go:49-67 | Each call takes the first of what was ahead |
| ScanUtils.NilEventIff | pkg/binlogtool/binlog/scanutils.go:184-193 | A nil event comes out if and only if no event reaches the start offset and the log ends normally |
| ScanUtils.NilEventOfEmptyLog | pkg/binlogtool/cmd/show.go:365-385 | On an empty log a nil event is all the chain returns |
| SeekableReader.SeekableBufferReader.Read | pkg/binlogtool/utils/bufio.go:43-47 | Returns the bytes of the file at the logical offset; end of file exactly at its end |
| SeekableReader.SeekableBufferReader.Seek | pkg/binlogtool/utils/bufio.go:49-78 | Buffered seeking ends where seeking in the plain file would, with the same refusals |
| SeekableReader.SeekableBufferReader.SkipBytes | pkg/binlogtool/utils/bufio.go:94-105 | Skipping moves the logical offset and nothing else |
| SeekableReader.SeekableBufferReader.ReadFull | pkg/binlogtool/utils/bufio.go:43-47 | Reading through the buffer refines the read the scanner model uses |
| TxBinary.BinaryTransactionEventWriter.WriteHeader | pkg/binlogtool/tx/binary.go:65-91 | Magic number and name table, and an index of file ids |
| TxBinary.BinaryTransactionEventWriter.Write | pkg/binlogtool/tx/binary.go:93-121 | The output is always the dump of all events written so far, which DumpRoundTrip reads |
| TxBinary.ReadFieldsInTurn | pkg/binlogtool/tx/binary.go:202-248 | The four fields of a record as far as they can be read, and the error that ended them |
| TxBinary.ReadFileIds | pkg/binlogtool/tx/binary.go:171-189 | The name table of any bytes |
| TxBinary.Parse | pkg/binlogtool/tx/binary.go:202-248 | What the handler is given from any bytes, truncated and corrupt ones included; its stop is no error, its error is returned |
| TxBinary.DumpRoundTrip | pkg/binlogtool/tx/binary.go:65-248 | Parsing a dump of any events over declared files gives one record for each, whose type byte decodes to its type, with its file, position, transaction and, for commits, timestamp |
| TxBinary.FileIdDecides | pkg/binlogtool/tx/binary.go:224-228 | A file id beyond the table is reported, one past its end panics, others name the file |
| TxBinary.StopsBeforeField | pkg/binlogtool/tx/binary.go:218-222 | A dump that stops before a field of a record ends without an error |
| TxBinary.StopsWithinNumber | pkg/binlogtool/tx/binary.go:217-248 | One that stops within a number gives a record too many, with old numbers, or an error for a commit |
| ConsistentPointFile.Write | pkg/binlogtool/cmd/seekcp.go:228-291 | The file, borders in whatever order the map is iterated in |
| ConsistentPointFile.ReadTxids | pkg/binlogtool/cmd/cpshow.go:57-71 | The set of transaction ids of any bytes |
| ConsistentPointFile.ReadBorders | pkg/binlogtool/cmd/cpshow.go:73-97 | The borders of any bytes, a later one replacing an earlier one |
| ConsistentPointFile.ParseConsistentPoint | pkg/binlogtool/cmd/cpshow.go:56-100 | The whole file, with the errors at each point |
| ConsistentPointFile.ReadRecoverableTxids | pkg/binlogtool/cmd/recover.go:60-90 | The transactions only |
| ConsistentPointFile.ShortReaderAgrees | pkg/binlogtool/cmd/recover.go:60-90 | On every readable file both readers get the same transactions |
| ConsistentPointFile.FileRoundTrip | pkg/binlogtool/cmd/seekcp.go:228-291 | Within the bounds of the length fields the transactions and borders are read back, for every order of writing |
| ConsistentPointFile.TransactionsReadBack | pkg/binlogtool/cmd/recover.go:60-90 | recover reads from a written file the transactions counted by its four-byte count, whatever the borders |
| ConsistentPointFile.AllCountedIff | pkg/binlogtool/cmd/seekcp.go:228-291 | Those are all of them if and only if there are fewer than 2^32 |
| RecoveryRun.SeekToFile | pkg/binlogtool/cmd/seekcp.go:293-324 | A file exactly when every stream has the heartbeat in order; it holds the consistent point of the streams |
| RecoveryRun.RecoverFromFile | pkg/binlogtool/cmd/recover.go:132-185 | On any bytes: an unreadable file issues nothing; without an error every listed branch is decided by the transactions in the file and accepted |
| RecoveryRun.FileGivesTransactions | pkg/binlogtool/cmd/recover.go:60-90 | Whatever order the file was written in, recover reads the transactions of the consistent point |
| RecoveryRun.SeekThenRecover | pkg/binlogtool/cmd/recover.go:132-185 | seekcp, then recover on a restored node from its file: without an error the node has the point's transactions committed on every branch, others only where they were before the log starts |
| XbChunk.ChunkReader.ReadBytes | pkg/hpfs/filestream/common.go:27-37 | Exactly n bytes or a failure |
| XbChunk.ChunkReader.ReadMap | pkg/hpfs/filestream/xbstream_chunk.go:143-154 | The sparse map of any bytes |
| XbChunk.ChunkReader.Read | pkg/hpfs/filestream/xbstream_chunk.go:84-162 | The chunk at the stream's position, types that are not known reading as end of file; the raw length is what was taken |
| XbChunk.ChunkReadBack | pkg/hpfs/filestream/xbstream_chunk.go:84-173 | Any chunk with any flags, offset and checksum is read back, and the reader is left after it |
| XbChunk.ArchiveReadBack | pkg/hpfs/filestream/server.go:561-570 | All chunks of an archive are read back and nothing else |
| XbStream.File.Write | pkg/hpfs/filestream/local.go:68-72 | The file shows one payload more; a hole before it is filled, unless the payload is empty |
| XbStream.PunchIsNeutral | pkg/hpfs/filestream/local.go:112-117 | Punching the hole that was just skipped changes nothing |
| XbStream.File.WriteSparse | pkg/hpfs/filestream/local.go:92-127 | The file shows the map's holes and data; it goes through exactly when the map fits its data |
| XbStream.File.Close | pkg/hpfs/filestream/local.go:79-90 | A last skip becomes real; what is left is the closed image of the chunks |
| XbStream.ReassembledIff | pkg/hpfs/filestream/local.go:68-127 | The closed file is the chunks' expansion if and only if it ends in no hole or its last chunk ended in a skip |
| XbStream.HoleIsLost | pkg/hpfs/filestream/local.go:68-72 | A hole followed by an empty payload is lost |
| XbStream.LastChunkDecides | pkg/hpfs/filestream/local.go:68-127 | It is enough that the last chunk does something |
| XbStream.Demultiplexer.OpenFile | pkg/hpfs/filestream/server.go:576-601 | The open file of a path, created empty if there is none; other files are as they were |
| XbStream.Demultiplexer.Apply | pkg/hpfs/filestream/server.go:572-623 | A chunk changes its own path's file only, as the path's history says; false exactly for a map that does not fit |
| XbStream.Demultiplexer.CloseAll | pkg/hpfs/filestream/server.go:556-560 | All files still open are closed, in any order |
| XbStream.Demultiplexer.Unpack | pkg/hpfs/filestream/server.go:544-624 | After any archive every file is closed and holds the image of its chunks |
| XbStream.OwnChunksDecide | pkg/hpfs/filestream/server.go:561-623 | A file depends on its own chunks only, however they are interleaved with others |
| XbStream.FileIsReassembled | pkg/hpfs/filestream/server.go:561-623 | For every interleaving with end of file last: the closed file is its chunks' expansion, if and only if no last hole is lost |
| XbStream.Demultiplexer.UnpackedFile | pkg/hpfs/filestream/server.go:544-624 | So after unpacking, the file on disk has its chunks' expansion as content, if and only if no last hole is lost |

## Left out

- Versions 1 and 3 of the binary log format.
- Decoding of event bodies and rows: a decoder is a parameter of the scanner, decoded heartbeat rows are data of the events.
- Reuse of the scanner's body buffer: data are values, so sharing of memory between events is not captured.
- The limited scanner, and mutation of events other than the capture of the pivot.
- The flashback, txshow and txdump commands and all printing.
- Compression of the consistent point file and the event dump.
- Texts are bytes: Unicode spaces around XA arguments and replacement of invalid UTF-8 are not captured.
- Overflow of 64-bit offsets in seeks, of the file size, and of decimal version numbers.
- Panics are error values at the point where Go would panic; what a dying process leaves behind is not captured.
- Failing system calls, directories and permissions when unpacking; `resolve` stands for joining and cleaning paths.
- The checksum in xbstream chunks, which the receiver reads and does not compare.
- Memory effects of the unsynchronised read of the error counter in stage one: a worker sees some earlier or current value of it by when it moves.
- The operator's controllers, its gRPC services, flow control and other parts of the file server.
- Recover.Recover: the listing of prepared branches by the server is a parameter.
- BinlogScan.LogEventScanner.constructor: options come as one configuration, whose defaults are not modelled; the header length is checked when a log is opened.
- Restore.RestoredClusterIsAtomic: files are read from their start or from a boundary; a start offset inside an event is modelled in opening, probing and scanning only.
- XaStatements.TextReadBack: ids are read between quotes as they are; backslashes and doubled quotes, which MySQL reads as escapes, are not modelled, and a server is taken to accept only what this reader can read.
- RecoveryRun.SeekThenRecover: one node's recovery; restoring its files and listing what is in doubt there are the operator's and the server's, and stand as a condition.
- OldLogs.OldTruncateIsPrefixIff: the log is scanned with checksums off, as its server wrote it; asking for checksums on such a log is not covered.
