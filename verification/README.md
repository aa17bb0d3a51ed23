# pmmcp: a verified model of the daemon's stateful cores

pmmcp is a process-manager daemon written in Go. This project models, in Dafny,
the parts of it whose correctness rests on loops, interleavings or whole runs,
and proves what those parts promise. `dafny verify dfyconfig.toml` checks it.

| file | what it models |
|---|---|
| `prelude.dfy`, `domain.dfy` | options, facts about sequences, and the process status vocabulary |
| `group.dfy` | start and stop order of a process group: Kahn's algorithm with a priority, the cycle search, the group registry |
| `container.dfy` | the container-backed process manager as locked sections that interleave with engine calls |
| `local.dfy` | the OS process manager: Start, Stop, Wait and the reaper as interleaving sections |
| `logrotation.dfy` | the directory of one log stream: rotation, the shifting backups, the size cap |
| `logwriter.dfy` | line reassembly, redaction and continuous rotation of a capture sink |
| `logreader.dfy` | reading a log file back as bounded lines through a buffered reader |
| `logroundtrip.dfy` | captured lines as the reader gives them back |
| `loggrep.dfy` | grep over the streams: match limit, context windows, markers |
| `supervise.dfy`, `crashloop.dfy` | the restart counter, the backoff schedule, one id over a whole run, and the tick over all ids |
| `eventlog.dfy` | the bounded event log: memory ring, SQL table, queries, and a consumer that resumes by sequence number |
| `webhookdispatch.dfy` | the webhook dispatcher's cursor, ticks and retries |
| `timestamps.dfy`, `casstore.dfy` | timestamp text, and the process store's optimistic updates by concurrent writers |
| `watch.dfy` | the debounced file watcher |

How the code is represented:

- An object whose methods update fields is a class with those fields; its methods
  are proved against functions of the old state. A loop is a loop. What a whole
  run guarantees is proved as lemmas about those functions, by induction over the
  steps of the run.
- The two process managers take their mutex for short sections and call the engine
  or the OS in between. Each locked section is a method of the class, and one
  atomic step of a transition system (`Enabled`, `Apply`); every engine or OS answer
  is possible, and any number of calls is in flight. `Feasible` and `Exec` are all
  the interleavings of such steps.
- Clocks, random rolls, monitor answers, file-system answers, id generators and
  network outcomes are parameters, so theorems hold for all of their values.
- Go map iteration is modelled as picking any remaining key, so results proved
  equal to a function do not depend on it.
- `secret.RedactLine` and `regexp.MatchString` are arbitrary functions passed in.
- Backoff arithmetic is over the reals; only the final conversion to whole
  nanoseconds is a floor, which is the code's truncation because a jittered delay
  is never negative (`Supervise.JitterIsBounded`).

Where the code is not what its comments or documentation say, the model follows
the code:

- `NextBackoff` is documented as `min(initial * mult^restarts, MaxBackoff)` with
  jitter. Jitter is applied after the cap, so a jittered wait can pass MaxBackoff:
  `Supervise.JitterCanPassTheCap` shows one, `Supervise.JitterFitsUnderTheCap` says
  exactly when no roll does, for the whole nanoseconds the code returns.
- `OnExhausted` is documented as called once per process. That holds exactly where
  it is never called, for an unlimited enabled policy (`Supervise.ReportedOnceIff`);
  every limited policy has a run with two calls (`Supervise.ReportsCanRepeat`). That a
  stable-window reset lies between two calls holds exactly for the enabled policies
  (`Supervise.ResetBetweenReportsIff`); under a disabled one a sick tick calls again
  exactly when a healthy tick came since the last call (`Supervise.DisabledReportsAgain`).
- A reset of the restart counter is documented as earned by continuous health. Ticks
  that find the process unhealthy while it is not desired running are skipped
  before they reach the counter, and so count as healthy time
  (`Supervise.SkippedTickCounts`). The promise holds in every run exactly for a loop
  without a `Desired` hook (`Supervise.ContinuousHealthIff`); `Supervise.ResetIsEarned`
  says what holds with one.
- Grep's comment says a marker separates windows that do not abut. The code marks
  every window that shares no line with an earlier one, also one that starts on the
  very next line (`LogGrep.AbuttingExample`). The two agree on a stream exactly when
  no consecutive chosen matches are 2 * Context + 1 lines apart
  (`LogGrep.CommentHoldsIff`).
- `RotatingWriter` is documented as enforcing the cap continuously. `Close` flushes
  the partial line without the check: under every cap some input passes it
  (`LogWriter.FlushCanPassTheCap`), and it is kept exactly when an emit of that piece
  would not have rotated (`LogWriter.FlushKeepsTheCapIff`).
- The writer is documented as redacting complete lines. A line longer than the partial
  buffer is redacted in pieces that depend on how the output was split into writes. The
  split never shows exactly for the streams whose terminated lines fit the buffer and
  whose tail is at most one byte longer (`LogWriter.SplitNeverShowsIff`).
- The timestamp layout is documented as keeping text order equal to time order. That
  holds up to a given year exactly when the year has four digits
  (`Timestamps.TextOrderHoldsIff`).
- When a job object cannot be assigned outside the strict profiles, a comment says
  Start continues without it. It has already killed the child and waited for it, so
  Start answers success for a dead process
  (`LocalManager.StartCanAnswerForAKilledChild`); this is the only way a registered
  child was killed by its own Start (`LocalManager.RegisteredWasKilledIff`).
- A plain `Update` is documented as last-writer-wins. Under a clock that has not moved,
  or was set back, it also lets a stale copy pass the token check
  (`CasStore.SaveAfterUpdateWrittenIff`, `CasStore.UpdateCanReviveAStaleCopy`).
- The supervise README calls the schedule linear, and the crash loop sleeping and
  counting only successful restarts. The code has an exponential schedule too, waits
  by skipping ticks, and counts every attempt.
- The event README describes the in-memory bus only, with a default bound of 10000;
  the code has the SQL backend as well, and 100000.

## Model

| member | source | states |
|---|---|---|
| Group.StartOrder | internal/group/group.go:156-254 | Ok only for well-named members with known dependencies, and then the one start order; in member fields alone: every name once and after everything it depends on, and of two neighbours the later depends on the earlier, or has the higher order, or the same and a later position; for such members it fails exactly when depends_on has a cycle; every error names the first rule broken, a cycle error carries a genuine simple cycle |
| Group.GreedyFollowsTheFields | internal/group/group.go:203-235 | a member that had everything it depends on started and was passed over has a higher order, or the same and a later position |
| Group.OrderFollowsTheFields | internal/group/group.go:154-155 | each member starts after all it depends on |
| Group.NeighboursInOrder | internal/group/group.go:203-221 | so of two neighbours in the order the later waits for the earlier or is the later in (Order, input position) |
| Group.StartOrderIsUnique | internal/group/group.go:203-235 | two start orders of the same members are equal, so map iteration order cannot show |
| Group.GreedyIsLeast | internal/group/group.go:222-235 | always popping the least ready name gives the lexicographically least topological order under (Order, input position) |
| Group.LexLeqAntisymmetric | internal/group/group.go:203-208 | the lexicographic comparison behind "least" is antisymmetric on orders of the same members |
| Group.TopologicalMeansAcyclic | internal/group/group.go:154-155 | a graph with a topological order has no cycle of any length, so success excludes cycles |
| Group.Kahn | internal/group/group.go:210-235 | the output is duplicate-free and greedy, nothing left is ready, and the indegrees count exactly the dependencies not placed |
| Group.PlaceNext | internal/group/group.go:223-235 | one turn of the loop keeps that, and places the least ready name |
| Group.Pop | internal/group/group.go:223-227 | moving the least ready name keeps the output greedy and closed under dependencies |
| Group.ReleaseDependents | internal/group/group.go:228-234 | after the decrements the ready list is again exactly the available names, sorted |
| Group.ReleaseOne | internal/group/group.go:229-233 | one decrement makes a dependent ready exactly when its last dependency was placed |
| Group.InitialReady | internal/group/group.go:211-220 | the first ready list is exactly the names without dependencies, sorted, in whatever order the map is walked |
| Group.SortStable | internal/group/group.go:308-317 | the in-place insertion sort leaves a sorted permutation in which names of equal key keep their order |
| Group.IndexNames | internal/group/group.go:161-182 | rejects the first empty or repeated name, otherwise indexes every member's tie-break keys |
| Group.BuildEdges | internal/group/group.go:184-201 | rejects the first self or unknown dependency in input order, otherwise builds exactly the depends_on graph and its reverse, repeated edges once |
| Group.BuildMember | internal/group/group.go:185-200 | the same for one member's edges, after the members before it |
| Group.AddEdge | internal/group/group.go:195-199 | adding an edge twice changes nothing, so a repeated entry cannot inflate an indegree |
| Group.ReportCycle | internal/group/group.go:237-252 | when Kahn stalls, the search never comes back empty: it returns a simple cycle of at least two names, none of them started |
| Group.StalledCannotBeOrdered | internal/group/group.go:244-249 | names that each still wait for another of them cannot be ordered, which is why a cycle must be found |
| Group.RestCannotBeOrdered | internal/group/group.go:244-249 | the names Kahn leaves behind are such a set |
| Group.FindCyclePath | internal/group/group.go:259-306 | a simple cycle among the live names, or else they can be topologically ordered |
| Group.CycleFinder.Visit | internal/group/group.go:268-291 | one search from a white node: a simple live cycle, or the node is black with its live dependencies first; it terminates |
| Group.CycleFinder.VisitDependencies | internal/group/group.go:271-287 | the loop over what a node depends on: a simple live cycle, or all its live dependencies are black |
| Group.CycleFinder.Follow | internal/group/group.go:271-287 | one edge: gray closes a cycle, white recurses, black is done |
| Group.CycleFinder.CycleFrom | internal/group/group.go:276-281 | the stack from a gray node on, closed by it, is a simple cycle |
| Group.StopOrderPutsDependentsFirst | internal/group/group.go:142-152 | the reverse of a start order holds every name once, dependents before what they depend on |
| Group.ReverseInPlace | internal/group/group.go:148-150 | the two-index swap loop reverses the slice |
| Group.Registry.Create | internal/group/group.go:65-90 | stores a group exactly when it is named, its id is fresh and well-formed and its members can be started; otherwise nothing changes and the error says why |
| Group.Registry.Get | internal/group/group.go:93-101 | what is found under an id is the group stored with that id, and it can be started; otherwise not found |
| Group.Registry.Remove | internal/group/group.go:120-128 | removes exactly that id, or reports not found |
| Group.Registry.StartOrderOf | internal/group/group.go:132-140 | a stored group always has its start order, dependencies first and by order and position otherwise |
| Group.Registry.StopOrderOf | internal/group/group.go:143-152 | and its stop order is the exact reverse |
| ContainerManager.Manager.Register | internal/process/container/container.go:110-119 | binds a fresh container to an id unless another start got there first, and changes nothing else |
| ContainerManager.Manager.BeginStop | internal/process/container/container.go:131-144 | marks exactly an entry that has not ended as stopping; an ended or missing one is left alone, and no other entry changes |
| ContainerManager.Manager.FinishStop | internal/process/container/container.go:150-160 | the entry has exited with code 0 and done is closed, once; no other entry changes |
| ContainerManager.Manager.Find | internal/process/container/container.go:164-177 | goes on exactly for an id whose container has not ended, with the entry's done still open and its container; returns exactly for an ended one, with its final status and code |
| ContainerManager.Manager.FinishInspect | internal/process/container/container.go:223-244 | of a running or unhealthy entry: a container that is not running gives its exit code, and Crashed exactly if out of memory or the code is not 0; one that is running is Unhealthy exactly if its health says so; every other entry stays as it is |
| ContainerManager.StepKeepsInv | internal/process/container/container.go:86-244 | every locked section, with any engine answer, keeps: done, terminal status and exit code agree, done closed at most once, terminal entries frozen, identities fixed |
| ContainerManager.StepKeepsExclusive | internal/process/container/container.go:98-117 | no container is bound twice, bound while a start still holds it, or held by two starts |
| ContainerManager.StepLeaksNothing | internal/process/container/container.go:98-117 | every container the engine ran is bound, in some start's hands, or was asked to stop |
| ContainerManager.DoneMeansTerminal | internal/process/container/container.go:150-160 | at every moment of every interleaving done is closed at most once, and exactly when the status is terminal and the exit code is set |
| ContainerManager.TerminalIsForever | internal/process/container/container.go:223-243 | a terminal status and its exit code never change again |
| ContainerManager.OneContainerPerId | internal/process/container/container.go:110-117 | an id once bound keeps its one container for the whole run |
| ContainerManager.ReturnedCallsAreRight | internal/process/container/container.go:123-188 | a Stop that returned nil has done closed, a Wait's handle is terminal and is the entry's final one, a Start's handle names the bound container |
| ContainerManager.AnswersAreForTheAskedId | internal/process/container/container.go:69-244 | told by the steps of the run alone: Start, Stop, Wait and Inspect answer for the id they were called with, a Start for the container the engine gave it |
| ContainerManager.EndsAreEarned | internal/process/container/container.go:150-251 | in every run an ended container exited with 0 after a Stop of its id, or has the status and code of an Inspect of its id that saw it not running |
| ContainerManager.AnyEndCanBeAwaited | internal/process/container/container.go:164-251 | every way a container ends on its own has a run in which a Wait answers with exactly that |
| ContainerManager.LoserStopsItsOwn | internal/process/container/container.go:110-115 | a Start that lost the race stops its own container, which is never bound to any id |
| ContainerManager.RunEvolves | internal/process/container/container.go:86-244 | between any two moments of a run the table only evolves |
| LocalManager.Manager.BeginStart | internal/process/local/local.go:103-112 | refuses exactly an id whose child has not ended, forgets an ended one |
| LocalManager.Manager.Register | internal/process/local/local.go:206-224 | adds the running child under the id unless a child there has not ended, and changes nothing else |
| LocalManager.Manager.FinishReap | internal/process/local/local.go:251-263 | publishes the exit: the code the reaper saw, exited if it was starting, running or stopping, done closed once more; no other child changes |
| LocalManager.Manager.BeginStop | internal/process/local/local.go:275-289 | marks exactly a child that has not ended as stopping |
| LocalManager.Manager.Find | internal/process/local/local.go:350-375 | goes on exactly for a child that has not ended, whose reaper is yet to close done; returns exactly for an ended one, with its final status and code |
| LocalManager.StepKeepsInv | internal/process/local/local.go:103-333 | every section keeps: done closed, terminal status, exit code and a finished reaper are one and the same, and every unfinished child stays reachable under its id |
| LocalManager.StepKeepsExclusive | internal/process/local/local.go:170-224 | no child is registered twice, or registered while a start still holds it |
| LocalManager.StepLeaksNothing | internal/process/local/local.go:190-232 | every spawned child is registered with a reaper, in a start's hands, or killed and waited for |
| LocalManager.DoneMeansFinalized | internal/process/local/local.go:235-264 | the unguarded close happens at most once, exactly with terminal status and exit code |
| LocalManager.LiveChildStaysReachable | internal/process/local/local.go:103-112 | a child not yet finalized never loses its map entry, and is the only unfinished one with its id |
| LocalManager.FinalizedIsForever | internal/process/local/local.go:251-263 | a finalized child keeps status and code, even after its id is used again |
| LocalManager.AnswersComeAfterTheReaper | internal/process/local/local.go:267-375 | Stop returning nil or Wait returning a handle implies the reaper finalized that child, and the handle is its final one |
| LocalManager.ExitCodeIsTheExit | internal/process/local/local.go:235-264 | in every run a child carries an exit code iff it exited with that code and its reaper published it |
| LocalManager.WaitTellsTheExitCode | internal/process/local/local.go:350-375 | in every run the handle Wait answers with carries exactly the code its child exited with |
| LocalManager.AnswersAreForTheAskedId | internal/process/local/local.go:92-375 | told by the steps of the run alone: Start, Stop and Wait answer for the id they were called with, a Start for the child it spawned |
| LocalManager.AnyExitCanBeAwaited | internal/process/local/local.go:235-375 | for every exit code there is a run in which Wait answers with it and Stop answers nil |
| LocalManager.LoserIsKilledAndWaitedFor | internal/process/local/local.go:208-218 | a Start that lost the race disposes of its own child, which is never registered |
| LocalManager.RegisteredWasKilledIff | internal/process/local/local.go:194-204 | in every run a registered child was killed by its own Start iff that Start went on after a failed job assignment |
| LocalManager.StartCanAnswerForAKilledChild | internal/process/local/local.go:194-204 | such a Start answers success with a running handle |
| LogRotation.NewConfig | internal/logcap/capturer.go:51-73 | what is asked for, or 10 MiB and 5 backups where that is not positive; always compressed |
| LogRotation.LogDir.RotateNow | internal/logcap/capturer.go:139-175 | the descending rename loop yields exactly the shifted directory: the active file is in slot 1 in the configured form alone, slot i in slot i + 1 in the form it had, the oldest one gone, anything past the last slot untouched |
| LogRotation.LogDir.RotateOne | internal/logcap/capturer.go:120-133 | rotates exactly when the file exists and reached the threshold |
| LogRotation.RotatedHolds | internal/logcap/capturer.go:139-175 | what each name holds after a rotation, in terms of the names before |
| LogRotation.ActiveWithinCap | internal/logcap/writer.go:113-125 | after every emit the active file is within the cap or is one oversized chunk |
| LogRotation.EmitRemembers | internal/logcap/writer.go:113-150 | one emit, with or without rotation, keeps slot j the j-th most recently rotated segment in exactly one form, and nothing past the last slot |
| LogRotation.DirectoryRemembers | internal/logcap/writer.go:113-150 | so does every run of emits and appends from an empty stream |
| LogRotation.PutRemembers | internal/logcap/writer.go:113-166 | so does the append of a last partial line |
| LogRotation.HistoryIsThePuts | internal/logcap/writer.go:113-166 | the rotated segments and the active one concatenate to everything put there, in order |
| LogRotation.BackupsReadBack | internal/logcap/capturer.go:150-159 | slots j down to 1 read as the last j segments |
| LogRotation.DirectoryIsASuffix | internal/logcap/capturer.go:139-175 | backups and active file together are a suffix of everything put there, cut at a boundary, and all of it until a segment is dropped |
| LogWriter.IndexNewline | internal/logcap/writer.go:91 | the first newline, or none |
| LogWriter.RotatingWriter.constructor | internal/logcap/writer.go:58-73 | opens for appending, with the size of the file found there |
| LogWriter.RotatingWriter.Write | internal/logcap/writer.go:82-109 | emits the redacted chunks of partial and argument, in order, and keeps the rest as partial; a closed writer takes nothing |
| LogWriter.RotatingWriter.Emit | internal/logcap/writer.go:113-125 | exactly when a non-empty file would pass the cap its content moves to the first backup and the chunk starts the file, otherwise the chunk is appended and nothing else changes |
| LogWriter.RotatingWriter.Rotate | internal/logcap/writer.go:130-150 | leaves the rotated directory with a fresh empty active file |
| LogWriter.RotatingWriter.Close | internal/logcap/writer.go:153-174 | appends the redacted partial once, without a cap check |
| LogWriter.FlushKeepsTheCapIff | internal/logcap/writer.go:161-166 | after the flush the active file is within the cap or the flushed piece alone, iff an emit of it would not have rotated |
| LogWriter.FlushCanPassTheCap | internal/logcap/writer.go:161-166 | under every cap, a stream within it whose Close passes it |
| LogWriter.OverlongRunReachesTheFile | internal/logcap/writer.go:91-100 | a run without a newline is kept back up to 256 KiB, and beyond that reaches the file redacted |
| LogWriter.NothingLostNothingAdded | internal/logcap/writer.go:82-109 | for any split into writes, the raw chunks with their newlines and the partial concatenate to exactly the input |
| LogWriter.PartialIsBounded | internal/logcap/writer.go:93-99 | the partial never exceeds its bound and holds no newline, and only overlong runs are flushed |
| LogWriter.LinesOfTheStream | internal/logcap/writer.go:88-108 | the chunks are the lines of the stream exactly when no write ends inside an overlong line |
| LogWriter.SplitDoesNotShow | internal/logcap/writer.go:88-108 | when every terminated line fits the buffer and the tail is at most one byte over, any two splits of the stream emit the same chunks and keep the same partial |
| LogWriter.OverlongLineDependsOnTheSplit | internal/logcap/writer.go:93-97 | every other stream has a split that emits other chunks than the single write |
| LogWriter.SplitNeverShowsIff | internal/logcap/writer.go:88-108 | so the split never shows exactly for those streams |
| LogWriter.FilesAfterAreTheChunks | internal/logcap/writer.go:82-125 | a sequence of writes leaves the directory that emitting all its chunks leaves |
| LogWriter.SessionsArePuts | internal/logcap/writer.go:58-174 | sessions of open, writes and Close, each on what the one before left, are one sequence of emits and last appends |
| LogWriter.DiskHoldsTheRedactedStream | internal/logcap/writer.go:58-174 | end to end, over any number of closed sessions and an open one: the directory reads back as the last redacted chunks and final partials, cut between them |
| LogRoundTrip.ReadsTheRedactedLines | internal/logcap/read.go:278-302 | while nothing is rotated and no line is cut, reading the active file gives the redacted lines of the input as the reader shows them |
| LogReader.BufReader.ReadSlice | internal/logcap/read.go:288 | a buffered reader that may fragment anywhere hands out the file in order, up to a newline at most |
| LogReader.ReadLimitedLine | internal/logcap/read.go:308-337 | the next line, bounded, however the reader fragments it; nothing only at a clean end |
| LogReader.ReadAllLines | internal/logcap/read.go:278-302 | exactly the shown lines of the file, however it is fragmented; none for a missing file |
| LogReader.Retain | internal/logcap/read.go:313-322 | chunk by chunk, the first bytes up to the bound and whether more were dropped |
| LogReader.FinishLine | internal/logcap/read.go:339-350 | strips one newline, then one carriage return, and marks a truncated line |
| LogReader.Shown | internal/logcap/read.go:271-276 | no returned line is longer than the bound and the marker |
| LogReader.RawLinesAreTheFile | internal/logcap/read.go:278-302 | the raw lines concatenate to the file, each ending at its only newline |
| LogReader.WrittenLinesReadBack | internal/logcap/read.go:339-350 | plain lines written with newlines read back as themselves |
| LogReader.LineEndingsAreRemoved | internal/logcap/read.go:339-345 | a line ended by carriage return and newline, or a last line without an ending, reads back as itself |
| LogReader.OverlongLineIsMarked | internal/logcap/read.go:308-350 | a line over 1 MiB reads back as its first MiB, less one trailing carriage return, and the marker |
| LogGrep.Grep | internal/logcap/read.go:106-195 | prints the windows of the chosen matches stream by stream, and nothing for streams after the limit |
| LogGrep.PrintStream | internal/logcap/read.go:146-189 | the loop over the matches prints exactly the windows, each line once |
| LogGrep.PrintWindow | internal/logcap/read.go:154-187 | a marker when due, then the lines of the window not printed before |
| LogGrep.PrintNew | internal/logcap/read.go:177-187 | prints and flags exactly the unprinted lines |
| LogGrep.CollectMatches | internal/logcap/read.go:133-142 | the first matches up to what is left of the limit |
| LogGrep.EarlyMatchesAreChosen | internal/logcap/read.go:133-142 | a match is left out only behind a full quota of earlier ones |
| LogGrep.WindowsPrintTheUnion | internal/logcap/read.go:150-187 | the numbers printed are exactly the union of the clamped windows, strictly increasing, each with its own text |
| LogGrep.PrintsTheLinesNearMatches | internal/logcap/read.go:133-187 | below the limit the numbers printed are exactly those of the lines at most Context away from a matching line |
| LogGrep.MarkersSeparateWindows | internal/logcap/read.go:163-175 | with context, a marker precedes a window iff it shares no line with any earlier window of its stream |
| LogGrep.AbuttingWindowsAreMarked | internal/logcap/read.go:162-175 | consecutive windows abut iff their matches are 2 * Context + 1 apart, and then they are marked |
| LogGrep.CommentHoldsIff | internal/logcap/read.go:162-175 | code and comment mark the same windows of a stream iff no consecutive matches are that far apart |
| LogGrep.AbuttingExample | internal/logcap/read.go:162-175 | four lines with two abutting windows, printed with a marker between them |
| LogGrep.ApartMeansBeyond | internal/logcap/read.go:163-171 | sharing no line with earlier windows means starting beyond all of them |
| LogGrep.TotalChosen | internal/logcap/read.go:126-193 | at most the limit is chosen over all streams |
| LogGrep.NothingAfterTheLimit | internal/logcap/read.go:190-192 | once the limit is reached, later streams add nothing, so stopping early loses nothing |
| Supervise.NextBackoff | internal/supervise/supervise.go:149-187 | 0 without a backoff; Backoff after no restart and Backoff more for each restart when no exponential field is set; otherwise Backoff * mult^restarts, cut at a positive MaxBackoff, jittered last by the clamped fraction, in whole nanoseconds |
| Supervise.Exponential | internal/supervise/supervise.go:167-176 | stopping the multiplication at the cap does not change the result |
| Supervise.ScaledIsPow | internal/supervise/supervise.go:142-148 | multiplying n times is multiplying by the n-th power |
| Supervise.DelayIsMonotoneAndCapped | internal/supervise/supervise.go:142-176 | without jitter the schedule never shrinks, is never negative, and never passes a positive cap |
| Supervise.WaitIsMonotoneAndCapped | internal/supervise/supervise.go:142-186 | without jitter the returned wait never shrinks, is never negative, and never passes a positive cap |
| Supervise.WaitIsBounded | internal/supervise/supervise.go:177-186 | with jitter the returned wait is within the clamped fraction of the delay, but for the cut to whole nanoseconds, and never negative |
| Supervise.JitterCanPassTheCap | internal/supervise/supervise.go:174-185 | a wait of 125 under a cap of 100 |
| Supervise.JitterFitsUnderTheCap | internal/supervise/supervise.go:174-186 | no roll takes the returned wait past the cap iff the widest jitter is at most one nanosecond above it |
| Supervise.RestartCounter.ObserveHealthy | internal/supervise/supervise.go:75-91 | accumulates healthy time between observations and resets the count at the window |
| Supervise.RestartCounter.ObserveUnhealthy | internal/supervise/supervise.go:96-100 | clears the accumulation and the anchor |
| Supervise.RestartCounter.RecordRestart | internal/supervise/supervise.go:105-109 | counts the attempt and re-arms the anchor |
| Supervise.CountsRestarts | internal/supervise/loop.go:115-119 | the count is the number of restarts since the last reset |
| Supervise.BudgetHolds | internal/supervise/loop.go:102-118 | between two resets an id is restarted at most Max times |
| Supervise.BackoffIsRespected | internal/supervise/loop.go:112-119 | two successive restarts of an id are at least the backoff drawn at the first apart |
| Supervise.SickTickRestartsIff | internal/supervise/loop.go:99-119 | a tick that finds an id unhealthy and desired running restarts it iff the policy is enabled, the budget is unlimited or not used up, and the last restart's backoff is over |
| Supervise.HealthEarnsAReset | internal/supervise/supervise.go:73-91 | healthy ticks that span the stable window do reset the count to 0 |
| Supervise.ResetIsEarned | internal/supervise/supervise.go:73-91 | a reset means a healthy tick a full window earlier since which nothing was sick while desired running and nothing was restarted |
| Supervise.ContinuousWithoutSkips | internal/supervise/supervise.go:73-91 | in a run without skipped ticks every reset ends a full window of uninterrupted health |
| Supervise.SkippedTickCounts | internal/supervise/loop.go:99-101 | under every policy, a skipped tick between two healthy ones a window apart still yields a reset |
| Supervise.ContinuousHealthIff | internal/supervise/loop.go:99-101 | that every reset ends a window of uninterrupted health holds in every run iff the loop has no Desired hook |
| Supervise.ReportsAreEarned | internal/supervise/loop.go:103-111 | between two exhaustion reports of an id there is a reset, with exactly Max restarts after the last one |
| Supervise.FirstReport | internal/supervise/loop.go:103-111 | the first report comes after exactly Max restarts |
| Supervise.UnlimitedNeverExhausts | internal/supervise/supervise.go:135-138 | an unlimited budget is never reported exhausted |
| Supervise.DisabledReportsAgain | internal/supervise/loop.go:92-111 | under a disabled policy, in any run, a sick tick after a report reports again iff a healthy tick came since |
| Supervise.ReportsCanRepeat | internal/supervise/loop.go:92-111 | every limited policy has a run with two reports |
| Supervise.ResetBetweenReportsIff | internal/supervise/loop.go:92-111 | that a reset lies between any two reports, in every run, holds iff the policy is enabled |
| Supervise.ReportedOnceIff | internal/supervise/loop.go:36-38 | that an id is reported at most once, in every run, holds iff the policy is enabled and unlimited |
| CrashLoop.Supervisor.Tick | internal/supervise/loop.go:84-121 | one tick takes every id through its own step and shows the hooks exactly that step's action, a restart only where the answer was unhealthy and desired running |
| CrashLoop.Supervisor.Process | internal/supervise/loop.go:91-119 | one id's part of a tick, and no other id's state changes |
| CrashLoop.TickContinuesEachRun | internal/supervise/loop.go:85-120 | a tick continues each id's own run with the answers about it |
| CrashLoop.IdsAreIndependent | internal/supervise/loop.go:62-67 | whatever the other ids do, an id's state is that of a run of its own |
| CrashLoop.LoopMakesTheRunsCalls | internal/supervise/loop.go:85-120 | and the calls the loop makes for it are those of that run, tick by tick |
| CrashLoop.LoopKeepsTheBudget | internal/supervise/loop.go:115-118 | in the loop, at most Max restart calls for an id between two resets of its counter |
| CrashLoop.LoopReportsAreEarned | internal/supervise/loop.go:103-111 | in the loop, a reset and then exactly Max restart calls between two exhaustion calls for an id |
| EventLog.Bus.constructor | internal/event/event.go:109-118 | an empty ring with a positive bound |
| EventLog.Bus.Append | internal/event/event.go:183-195 | numbers the event with its place and keeps exactly the last maxKeep events ever appended, each with its place as its number |
| EventLog.Bus.QuerySince | internal/event/event.go:242-270 | at most the limit, ascending, all matching and above the sequence number, and any match left out comes after a full answer |
| EventLog.Bus.Query | internal/event/event.go:272-303 | at most the limit, ascending, all matching, and any match left out comes before a full answer |
| EventLog.SqlLog.Append | internal/event/event.go:198-216 | refused for a taken id with nothing changed; otherwise the table holds exactly the newest maxKeep events ever accepted |
| EventLog.SqlLog.Sweep | internal/event/event.go:224-230 | the DELETE with its subselect |
| EventLog.SqlLog.QuerySince | internal/event/event.go:325-339 | the ascending statement answers as the ring does |
| EventLog.SqlLog.Query | internal/event/event.go:305-322 | the descending statement, turned round, answers as the ring does |
| EventLog.SweepKeepsNewest | internal/event/event.go:224-230 | deleting at or below the row at offset maxKeep keeps exactly the newest maxKeep rows |
| EventLog.RingIsTheNewest | internal/event/event.go:183-195 | after every Append sequence the ring is the newest maxKeep of the numbered history |
| EventLog.TableIsTheRing | internal/event/event.go:198-231 | and the table under its sweep holds the same events |
| EventLog.SameAnswers | internal/event/event.go:233-339 | so both backends answer every query with the same list, for every process filter and limit |
| EventLog.FirstMatches | internal/event/event.go:238-270 | a limited page is all the matches up to its last event |
| EventLog.PageIsAStretch | internal/event/event.go:238-270 | a page from a cursor is the matching history from the cursor, or from the evicted part, to the new cursor |
| EventLog.ExactlyOnceUnlessEvicted | internal/event/event.go:238-270 | for a consumer resuming from the last Seq, under any interleaving with appends: delivered events strictly increase, and of the matching ones passed exactly those not evicted before their page are delivered |
| EventLog.NothingMissedWithoutLag | internal/event/event.go:238-270 | a consumer that never lags more than maxKeep appends is delivered exactly the matching history, in order |
| WebhookDispatch.DeliverWithRetry | internal/daemon/webhook_dispatch.go:98-122 | one to three attempts, stopping at the first success or at shutdown and never earlier, with doubling waits |
| WebhookDispatch.Dispatcher.constructor | internal/daemon/webhook_dispatch.go:45 | the cursor starts at the newest event |
| WebhookDispatch.Dispatcher.LatestEventSeq | internal/daemon/webhook_dispatch.go:69-75 | the newest sequence number, or 0 for an empty log |
| WebhookDispatch.Dispatcher.Tick | internal/daemon/webhook_dispatch.go:53-63 | with hooks the cursor moves on by a hundred events, or to the newest, from the oldest one kept if it was outrun, and what it passes is dispatched; every new delivery was tried on the network: each answer is the network's, a retry follows a failure without shutdown, and it ends before the third attempt only on success or shutdown; without hooks the cursor jumps to the newest event and nothing is delivered |
| WebhookDispatch.Dispatcher.DispatchEvent | internal/daemon/webhook_dispatch.go:78-96 | one delivery for each hook whose filter matches, in order, each tried on the network as above |
| WebhookDispatch.Dispatcher.Deliver | internal/daemon/webhook_dispatch.go:95-122 | one delivery, whose answers are the network's to that pair, attempt by attempt |
| WebhookDispatch.Matches | internal/daemon/webhook_dispatch.go:90-94 | a hook without event kinds gets every event, another exactly the kinds it lists |
| WebhookDispatch.PageTakesTheNextHundred | internal/daemon/webhook_dispatch.go:58-61 | where the cursor stands after a page, in numbers of events |
| WebhookDispatch.LatestIsTheLength | internal/daemon/webhook_dispatch.go:69-75 | on a log that keeps anything, the newest number is the number of events ever appended |
| WebhookDispatch.RunAdds | internal/daemon/webhook_dispatch.go:49-65 | from any state, a run only dispatches events above the cursor and up to the new cursor, in order, each to distinct hooks |
| WebhookDispatch.EachPairAtMostOnce | internal/daemon/webhook_dispatch.go:36-66 | however hooks and events come and go: nothing at or below the startup cursor, no (hook, event) pair twice, increasing Seq per hook |
| WebhookDispatch.EveryMatchIsDispatched | internal/daemon/webhook_dispatch.go:49-65 | a hook registered at every tick gets every matching event the cursor passed, while the log is not outrun |
| WebhookDispatch.EveryPairWasAskedFor | internal/daemon/webhook_dispatch.go:89-95 | every dispatched pair belongs to a hook registered at some tick whose filter matches the event |
| Timestamps.TextOrderIsTimeOrder | internal/store/sqlite/sqlite.go:37-40 | for four-digit years, text order is time order and text equality is time equality |
| Timestamps.FiveDigitYearsSortEarly | internal/store/sqlite/sqlite.go:37-40 | beyond them the orders part: every instant of the year 10000 sorts before every one of 9999 |
| Timestamps.TextOrderHoldsIff | internal/store/sqlite/sqlite.go:37-40 | text order is time order for all instants up to a year iff that year is at most 9999 |
| Timestamps.TextTellsTheInstant | internal/store/sqlite/sqlite.go:475-477 | equal texts mean equal instants, whatever the year |
| Timestamps.ParseUndoesFmt | internal/store/sqlite/sqlite.go:450-457 | reading a written timestamp gives it back, exactly for the four-digit years |
| Timestamps.LayoutIsFixed | internal/store/sqlite/sqlite.go:37-40 | for four-digit years the text has 30 characters, the marks at fixed places and the calendar fields between them |
| Timestamps.StrippingBreaksTheOrder | internal/store/sqlite/sqlite.go:37-39 | with trailing zeros stripped, a whole second sorts after every later instant of that second |
| Timestamps.NextIsOneLater | internal/store/sqlite/sqlite.go:301-303 | adding a nanosecond carries correctly through every calendar unit, leap years included |
| Timestamps.FieldOrder | internal/store/sqlite/sqlite.go:40 | zero-padded to one width, numbers order as their digits do |
| CasStore.TokenAfter | internal/store/sqlite/sqlite.go:297-303 | the clock where it has passed the old token, otherwise the instant one nanosecond after that token |
| CasStore.Store.Create | internal/store/sqlite/sqlite.go:188-230 | written exactly when valid with an id that is fresh and a live name that is free, a conflict exactly when only the last two fail; what the row and the struct then hold; otherwise nothing changes |
| CasStore.Store.Insert | internal/store/sqlite/sqlite.go:207-219 | refused exactly for a taken id or a name another live row of the project has |
| CasStore.Store.UpdateWhere | internal/store/sqlite/sqlite.go:304-316 | affects one row exactly when id and token match and the live name is free |
| CasStore.Store.UpdateWithCAS | internal/store/sqlite/sqlite.go:287-330 | a well-formed save of an absent id is not found, one of another version or a taken name is a conflict, any other is written: that row alone gets the content and the next token, the struct the token; otherwise nothing changes |
| CasStore.SaveAnswersPlainly | internal/store/sqlite/sqlite.go:287-330 | which of not found, conflict and written a save gets |
| CasStore.SaveLeavesPlainly | internal/store/sqlite/sqlite.go:297-330 | and what it leaves in the table and in the struct |
| CasStore.WrittenReadsBack | internal/store/sqlite/sqlite.go:188-330 | what Create or a save wrote, Get reads back as the caller's struct, exactly for four-digit years |
| CasStore.Store.Update | internal/store/sqlite/sqlite.go:253-280 | not found exactly for a valid content of an absent id; written, whatever the token, unless the live name is taken |
| CasStore.Store.Get | internal/store/sqlite/sqlite.go:233-248 | the row read back, or none |
| CasStore.RunKeepsInv | internal/store/sqlite/sqlite.go:281-330 | in every run of creates, loads, edits and CAS saves: each row's versions form a chain, the row is the last of them, every writer's copy is some version plus its edits |
| CasStore.VersionsFollowEachOther | internal/store/sqlite/sqlite.go:281-330 | the persisted updated_at strictly increases and every version was computed from the one before it |
| CasStore.SaveWrittenIff | internal/store/sqlite/sqlite.go:281-330 | a save is written iff its copy is of the latest version and acceptable; otherwise nothing changes |
| CasStore.NoUpdateIsLost | internal/store/sqlite/sqlite.go:281-286 | the row is the created content with the edits of every successful save applied in order |
| CasStore.OthersConflict | internal/store/sqlite/sqlite.go:281-286 | once one writer saved, every other writer with a copy of the row gets a conflict, whatever happens in between, until it loads again |
| CasStore.SaveAfterUpdateWrittenIff | internal/store/sqlite/sqlite.go:250-280 | after a written Update an acceptable copy of any version is saved iff the clock stood at that copy's token |
| CasStore.UpdateCanReviveAStaleCopy | internal/store/sqlite/sqlite.go:250-280 | so an Update under a clock set back lets a stale copy overwrite it |
| Watch.Watcher.DirChanged | internal/watch/watch.go:283-302 | true iff the listing succeeded and some name is in one listing alone or has another mtime or size, decided by cardinality plus inclusion; the snapshot is replaced exactly then |
| Watch.Watcher.LookAt | internal/watch/watch.go:236-260 | one path: changed iff stat or directory entries differ; the snapshot then holds the new time and size, and the pending change starts now or goes on until now; a failed stat changes nothing |
| Watch.Watcher.Detect | internal/watch/watch.go:236-261 | the paths seen changed are exactly the changed ones, each once, in whatever order the map is walked |
| Watch.Watcher.EmitDue | internal/watch/watch.go:266-279 | sends only due paths; unless the channel was full none is kept that was quiet for the debounce or waited for the longest wait, while the consumer receives at any point |
| Watch.Watcher.Tick | internal/watch/watch.go:229-281 | the paths seen are exactly those with another time or size, or a changed directory entry; the channel gets one event at this time for each path sent; unless it was full, every path still pending was neither quiet for the debounce nor waited for the longest wait; nothing after Close |
| Watch.Watcher.Add | internal/watch/watch.go:125-149 | registers path and snapshot; a directory that cannot be listed is refused after its path was registered |
| Watch.Watcher.Receive | internal/watch/watch.go:117-119 | events are received in the order they were sent, none lost |
| Watch.BatchMeans | internal/watch/watch.go:249-256 | the batch kept for a path starts at the first and ends at the latest detection since its last event |
| Watch.NoChangeIsLost | internal/watch/watch.go:263-279 | after every run, a detected change is followed by an event for its path or is still pending |
| Watch.EventCoversAChange | internal/watch/watch.go:266-275 | every event covers a change not reported before, and is sent only after the quiet time since the latest or the longest wait since the first |
| Watch.PendingMeans | internal/watch/watch.go:249-256 | a path is pending iff it has a detection after its last event, and its entry holds that batch's times |

## Left out

- Group.FindCyclePath: roots are tried in any order, not in sorted order, so which of several cycles is named is not modelled.
- Group.Registry.Create: id generation and the id-prefix test are parameters; the deep copies of members and the List method are not modelled, since members are values here.
- ContainerManager.ReturnedCallsAreRight: the handle Start returns is read just after the lock is released; the model reads it inside the section, so a status changed in that instant is not modelled.
- LocalManager.StepKeepsInv: signals, process groups, pid reuse and job-object handles are not modelled; a kill is only an exit that may happen.
- Validation of start specs, the run spec, labels, sandbox wrapping, resource limits and log sinks inside Start: one step that may fail.
- LogRotation.LogDir.RotateNow: file modes, I/O errors and gzip's bytes; a file is its content and compressing relabels it.
- LogWriter.RotatingWriter.Write: I/O errors, including the chunk in flight that a failed write drops and a writer whose reopen failed.
- LogReader.ReadAllLines: read errors other than a missing file.
- LogGrep.Grep: pattern compilation, stream-name normalisation, the rendering of a line as text and the cap on the joined output; Tail and Errors are smaller loops over the same lines.
- Supervise.NextBackoff: overflow of a Duration and rounding of float64; an infinite or not-a-number multiplier has no counterpart in the reals.
- CrashLoop.Supervisor.Tick: ticks arrive as a sequence of answers; cancellation and the effect of a restart on later answers are part of those answers.
- EventLog.SqlLog.Append: the age sweep, message truncation, id and time stamping, and failing queries; the ring never refuses an id, the table does.
- WebhookDispatch.Dispatcher.Tick: queries succeed, the page is read from the ring (the table answers the same), and the payload is not modelled.
- WebhookDispatch.EveryMatchIsDispatched: needs that no more than maxKeep events were logged since the cursor; events evicted before a page are not dispatched, as for any consumer.
- Timestamps.TextOrderIsTimeOrder: stated for the four-digit years RFC 3339 has; `Timestamps.TextOrderHoldsIff` says that these are all it holds for.
- Timestamps.ParseUndoesFmt: ParseTime accepts only the store's own layout, not every RFC 3339 text; years of five digits are written but cannot be read back, as in the code.
- CasStore.Store.Create: column defaults (an empty runtime stored as local, a nil key list as an empty one), JSON encoding of the columns, and the time columns started_at and exited_at stand inside the opaque rest of the content.
- CasStore.RunKeepsInv: Delete and plain Update are not moves of the runs, since neither promises to advance the token; database errors other than uniqueness are not modelled.
- Watch.Watcher.Tick: the polling goroutine, the closing of the channel and path resolution; ticker times are after the zero time.
- gRPC and IPC transport, the command line, MCP adapters, configuration, secrets, SSRF and path policy, audit, session and profile registries: transport, text or policy rather than state machines.
