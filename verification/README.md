# Villa: the playback queue, the control stream and the house

A Dafny model of baresip-villa, a telephone world: a module of a SIP client plays sounds to callers by
priority and talks to a world server over TCP; the server knows the places callers can be at. The
project models the parts with state that outlives one call of a function, and proves what holds over
all their runs.

| file | about |
|---|---|
| `Molecule.dfy` | atoms, molecules, and positions in milliseconds |
| `Scheduling.dfy` | the priority queue of one call as a state machine over a map of queued molecules |
| `Ledger.dfy` | what every run of the queue keeps, whatever fails |
| `Playing.dfy` | who plays when starting an atom succeeds, and exactly when the discard command breaks it |
| `Progress.dfy` | the order in which atoms start |
| `Preemption.dfy` | interruption, waiting, end of file, who is reported, where loops resume |
| `Phase.dfy` | exactly when a loop that was interrupted comes back where it should |
| `Commands.dfy` | what each command changes and answers |
| `Requests.dfy` | what events record and answer, field by field |
| `Traps.dfy` | exactly which events divide by zero or leave the lists |
| `Failures.dfy` | what a failed start does, and exactly when the queue is still right after it |
| `Clock.dfy` | times over whole runs |
| `Drain.dfy` | what is heard when nothing more is enqueued |
| `VQueue.dfy` | the queue as six lists of objects, which refines the state machine |
| `Examples.dfy` | complete runs that show where the queue misbehaves |
| `Framing.dfy`, `JsonTcp.dfy` | CR LF frames of a stream, and the in-place receive buffer that finds them |
| `Elevator.dfy` | the stop list of the elevator |
| `Calls.dfy` | pending calls, sessions and the messages at their end |
| `Places.dfy` | the map of the house and who is where |

A queued molecule has a key, the number of molecules enqueued before it. A key stands for the identity
of the molecule; order of keys is order of enqueueing. `Scheduling` says which molecule is next as a
property of the set of queued molecules; `VQueue` finds it by scanning lists, and its methods are
proved to do what `Scheduling` says. Starting an atom is an input: each event carries what the start
returns, and the clock.

## What is not as one would expect

These are properties of the code, each with the exact condition or a complete run.

- Enqueueing a molecule without atoms above the active one interrupts that and starts it again
  (`Progress.RewriteExact`), at the time since its start time (`Commands.EmptyRepositions`). That is where
  it would be had it played on only under the conditions of `Phase.EmptyExact` and
  `Phase.EmptyLoopExact`. If both have the same token, discarding it silences the queue while molecules
  wait (`Playing.DiscardExact`, `Examples.DiscardStalls`).
- An interrupted molecule that is no restarting, muted or paused loop plays the atom again that it was
  interrupted in, from where that was last started (`Preemption.PreemptedResumes`).
- A paused loop does not always come back where it stopped, nor a muted one where it would be had it
  played on: the start time is set again each time the first atom starts, also at an offset. Both hold
  exactly for a loop in phase (`Phase.PausedLoopResumes`, `Phase.MutedLoopResumes`). A loop that began
  at its beginning is in phase (`Phase.BeginningInPhase`); one that has come back is so only in the
  cases of `Phase.PausedPhase` and `Phase.MutedPhase`, so that a second interruption can move it
  (`Examples.SecondPauseJumps`).
- The range command starts the active molecule again also if it does not clear it. One that is no loop by
  the clock starts its atom again, however long that has played (`Phase.RangePlain`). A muted loop is
  right exactly if it was in phase (`Phase.RangeMuted`). A paused one goes to where its last
  interruption would put it (`Phase.RangeMovesPaused`), which is right only as `Phase.RangePausedExact`
  and `Phase.PlayedApartInPhase` say; if it last stopped before it last started, the unsigned
  difference wraps around (`Preemption.PausedPlace`, `Examples.PausedLoopJumps`).
- At an end of file, a muted loop, or a paused one with a further atom, starts the same atom again, at its
  end, if the time since its start time is just the end of that atom (`Commands.LoopGoesOn`).
- A muted or paused loop without a length, be it of recordings or of empty files, can divide by zero, and
  a negative priority indexes outside the lists. `Traps.TrapExact` says exactly which events do
  either, and `Traps.EveryRun` which runs go through; `Examples.LoopedRecordingTraps` is one that does
  not.
- The highest priority cannot be cleared: `discard_range` excludes its upper end and refuses one above 5
  (`Commands.RangeLaw`).
- After an atom that does not start, the molecule goes on with the atom after the next one, or is done
  (`Failures.FailureSkips`, `Examples.FailureSkipsAtom`). It goes on with its next atom if and only if it
  is a loop that is placed there (`Failures.SkipExact`). A failed start does not make its molecule
  active, so that nothing plays or the wrong molecule counts as playing. `Failures.FailureExact` says,
  event by event, exactly when the right one is active all the same.
- A NUL byte in a frame holds up that frame and everything after it (`Framing.NulHoldsUp`,
  `Framing.NulExact`).
- A call that arrives under the id of a live call is both pending and live (`Calls.ReusedId`); over a
  run, pending and live calls are apart if and only if that does not happen (`Calls.DisjointExact`),
  and so whenever calls arrive under different ids (`Calls.EveryDistinctRun`).
- The concrete map connects the terrace north of two places, so one way back leads elsewhere
  (`Places.TerraceNotUndone`, `Places.ConnectExact`).
- Entering a place without leaving the last one puts a caller in two lists (`Places.EnterExact`).
- The elevator never moves: no run changes its floor (`Elevators.EveryRun`), as `arrived` changes neither
  the floor nor the stops; and the timer passes it an argument it does not take. The model has `arrived`
  as it is written, called without that argument.

## Model

| member | source | states |
|---|---|---|
| Molecules.TotalOfOne | src/villa.cpp:95-110 | a file has its length, a recording none, and no atoms have none |
| Molecules.TotalOfSum | src/villa.cpp:95-110 | the length of two lists of atoms one after the other is the sum of theirs |
| Molecules.PrefixIsTotal | src/villa.cpp:112-134 | the running sum after n atoms is the length of these n atoms |
| Molecules.PositionIs | src/villa.cpp:112-134 | a position is the length of the atoms before the cursor, and the offset of the file at it |
| Molecules.PositionLaw | src/villa.cpp:112-134 | a position inside the molecule is reached exactly, at the first atom that ends there or later, with an offset inside that atom and no other atom touched; a position past the end changes nothing |
| Molecules.CursorExact | src/villa.cpp:112-134 | the cursor is put at an atom if and only if the position is past all before that and not past its end |
| Molecules.RepositionFrame | src/villa.cpp:388-406 | repositioning touches only cursor and offsets, never ends a molecule that has atoms left, and leaves one that does not loop alone |
| Molecules.RepositionRevives | src/villa.cpp:388-406 | a looping molecule with restart, mute or pause has an atom to play once it is repositioned |
| Molecules.Molecule.Length | src/villa.cpp:95-110 | the loop sums the lengths of all atoms, as `TotalOfOne` and `TotalOfSum` say |
| Molecules.Molecule.SetPosition | src/villa.cpp:112-134 | the loop with its two running sums sets the position that `PositionLaw` is about |
| Molecules.Molecule.Relocate | src/villa.cpp:388-406 | places a looping molecule by restart, mute or pause, with the source's order of tests; reports the division by zero |
| Scheduling.Next | src/villa.cpp:180-194 | the next molecule has atoms and comes before every other that has; there is none only if no queued molecule has atoms |
| Scheduling.FewerLeft | src/villa.cpp:425-430 | each recursive call of schedule has fewer queued molecules, so it ends |
| Scheduling.Victim | src/villa.cpp:1035-1042 | the molecule discarded at a priority is the oldest there with the token |
| VQueues.VQueue.Next | src/villa.cpp:180-194 | scanning the lists from priority 5 down finds the molecule that is next |
| VQueues.VQueue.Discard | src/villa.cpp:157-178 | removes one molecule; reports it and leaves nothing active if it was active, stays silent if not |
| VQueues.VQueue.Schedule | src/villa.cpp:356-434 | leaves the lists, cursors, times, active molecule and messages in the state the state machine gives, with every list in the order of enqueueing |
| VQueues.VQueue.Admit | src/villa.cpp:436-450 | enqueues at the end of the list of its priority, and schedules if nothing plays or something of lower priority |
| VQueues.VQueue.Enqueue | src/villa.cpp:894-971 | the enqueue command: refuses priorities above 5, leaves the lists with a negative one, and otherwise admits the molecule as it came (`Requests.StepRecords`) and answers success |
| VQueues.VQueue.EndOfFile | src/villa.cpp:632-656 | an end of file stops the active molecule and schedules; without one it does nothing |
| VQueues.VQueue.DtmfBegin | src/villa.cpp:338-346 | a key ends the recording that is playing if it is to stop at keys |
| VQueues.VQueue.DiscardToken | src/villa.cpp:1019-1053 | the discard command over all six lists, with its answer and its rescheduling |
| VQueues.VQueue.DiscardRange | src/villa.cpp:973-1018 | the range command: refusals, silent clearing of the half-open range (`Commands.RangeLaw`), which leaves the lists if it begins below 0, and rescheduling |
| VQueues.EraseListed | src/villa.cpp:161-169 | erasing from a list keeps all lists in the order of enqueueing and complete |
| VQueues.PushListed | src/villa.cpp:437 | appending to a list keeps all lists in the order of enqueueing and complete |
| VQueues.MessagesExact | src/villa.cpp:456-469 | the messages sent are the tokens of the reported molecules that have one, one for each report, in the order of the reports |
| Ledger.ScheduleSound | src/villa.cpp:356-434 | schedule keeps the ledger, also when a start fails |
| Ledger.StepSound | src/villa.cpp:436-450 | every event keeps the ledger |
| Ledger.EveryRun | src/villa.cpp:157-178 | in every run, each enqueued molecule is queued, reported once or dropped once, and only one of these; reports of a priority are in the order of enqueueing; a molecule is queued and reported with its token, priority and mode and, but for offsets, with the atoms it was enqueued with, less those that failed; none finishes before its last atom, and no restarting, muted or paused loop finishes |
| Ledger.ReportedAtoms | src/villa.cpp:412-430 | a reported molecule is not queued any more, and its atoms are some of those it was enqueued with, in the same order |
| Ledger.ImmortalEnds | src/villa.cpp:388-430 | a restarting, muted or paused loop leaves the queue only by being discarded or cleared |
| Playing.ScheduleQuiet | src/villa.cpp:356-434 | after a schedule that starts an atom or finds none, the active molecule is the next one and every queued one with atoms has one left |
| Playing.DiscardLevelsEffect | src/villa.cpp:1033-1042 | the discard command removes the oldest molecule with the token at each priority; its result is "active" exactly if the active molecule is among them and none of them is above it |
| Playing.DiscardExact | src/villa.cpp:1033-1046 | after the discard command the active molecule is the next one if and only if the command does not hide the active molecule behind an empty one above it while others wait |
| Playing.RunQuiet | src/villa.cpp:356-450 | over every run whose starts succeed and whose discards do not stall, the active molecule is the next one |
| Playing.ScheduleDurable | src/villa.cpp:393-404 | schedule never divides by zero when clocked loops have a length |
| Playing.EveryBenignRun | src/villa.cpp:356-450 | every run of molecules with atoms (and a length, if clocked) whose starts succeed goes through; at its end the active molecule comes before all others, and it is absent only when nothing is queued |
| Progress.RewriteExact | src/villa.cpp:381-384 | the branch that rewrites the position of the playing molecule is reached if and only if a molecule without atoms is enqueued above it |
| Progress.ScheduleInStep | src/villa.cpp:372-431 | schedule keeps starts in step with cursors: each start is of the same atom again or the next |
| Progress.EveryStartInOrder | src/villa.cpp:372-431 | in every run of molecules with atoms whose starts succeed, a molecule that is no restarting, muted or paused loop starts its atoms from the first on, one after the other, and finishes only after its last |
| Preemption.Preempt | src/villa.cpp:436-450 | a molecule enqueued above the active one plays at once; the interrupted one is reported once and gone if it discards, and otherwise queued with only its stop time changed |
| Preemption.WaitingUnchanged | src/villa.cpp:356-450 | a molecule that waits through any run is exactly as it was |
| Preemption.PreemptedReturns | src/villa.cpp:366-406 | an interrupted molecule that does not discard waits through any events with only its stop time changed, and starts where that places it when it plays again |
| Preemption.PreemptedResumes | src/villa.cpp:366-371 | one that is no restarting, muted or paused loop starts again, after any run of waiting, the atom it was interrupted in, at the offset at which that was last started and not where it had got to, with nothing else of it changed but times |
| Preemption.EndOfFileLaw | src/villa.cpp:375-379 | one end of file starts the next atom of the active molecule, unless that is a restarting, muted or paused loop, or reports it and starts the next molecule where that is placed, and changes nothing else |
| Preemption.OneEndOfFile | src/villa.cpp:632-650 | one end of file removes no molecule but the active one and moves no waiting one that it does not start |
| Preemption.NothingFinishes | src/villa.cpp:366-384 | unless an atom has ended, schedule reports only the molecule it interrupts |
| Preemption.OnlyActiveReported | src/villa.cpp:157-178 | from a quiet state an event reports no molecule but the one that was active |
| Preemption.MutedPlace | src/villa.cpp:393-398 | a muted loop is placed at the time since its start, modulo its length |
| Preemption.PausedPlace | src/villa.cpp:399-405 | a paused loop is placed at the time from its start time to its stop time, modulo its length; if it stopped before it last started, at the difference wrapped around 64 bits |
| Preemption.BeginsAgain | src/villa.cpp:390-405 | a loop that restarts, or has not started or stopped yet, is placed at the beginning of its first atom |
| Preemption.MutedPosition | src/villa.cpp:393-398 | schedule starts a muted loop at the time since its start, also when it first removes others |
| Phase.LaunchTime | src/villa.cpp:419-421 | an event that starts a molecule sets its start time if it starts its first atom, and leaves one not later if it starts another |
| Phase.PausedExact | src/villa.cpp:399-405 | a paused loop that played from t0 to t1 is placed where it was at t1 if and only if its position at t0 was the time since its start time, modulo its length |
| Phase.MutedExact | src/villa.cpp:393-398 | a muted loop that played from t0 is placed at t2 where it would be had it played on, under the same condition and no other |
| Phase.PausedLoopResumes | src/villa.cpp:356-450 | over an interruption, any events while it waits and the event that brings it back, a paused loop comes back where it stopped if and only if it was in phase |
| Phase.MutedLoopResumes | src/villa.cpp:356-450 | the same for a muted loop and the place where it would be had it played on |
| Phase.PausedPhase | src/villa.cpp:399-421 | a paused loop that has come back is in phase if and only if it is at its beginning, or beyond its first atom after a pause that is a multiple of its length |
| Phase.MutedPhase | src/villa.cpp:393-421 | a muted loop that has come back is in phase if and only if it is at its beginning or beyond its first atom |
| Phase.EmptyExact | src/villa.cpp:381-384 | a molecule without atoms enqueued above the active one, which is no loop by the clock, leaves that where it would be had it played on if and only if its position at its last start was the time since its start time; past its end, only at once |
| Phase.EmptyLoopExact | src/villa.cpp:381-405 | the same for a muted or paused loop if and only if it was in phase |
| Phase.RangePlain | src/villa.cpp:1006-1015 | the range command starts the atom of an active molecule that it does not clear again where that last started; the place is right only at once |
| Phase.RangeMuted | src/villa.cpp:1006-1015 | it leaves a muted loop where it would be had it played on if and only if that was in phase |
| Phase.RangeMovesPaused | src/villa.cpp:1006-1015 | it puts an active paused loop where its last interruption would, or at its beginning, however long it has played since |
| Phase.RangePausedExact | src/villa.cpp:399-405 | that is where the loop would be had it played on if and only if what it had played differs from the time it is placed by by a multiple of its length |
| Phase.PlayedApartInPhase | src/villa.cpp:399-405 | for a loop in phase, if and only if the time since its last stop, or since its start if it never stopped, is a multiple of its length |
| Commands.EnqueueBehind | src/villa.cpp:436-449 | while a molecule plays, an enqueue command starts, reports or moves something if and only if it is accepted and above that molecule |
| Commands.EnqueueIdle | src/villa.cpp:439-446 | where nothing plays, a new molecule plays from its first atom and changes no other |
| Commands.EmptyRepositions | src/villa.cpp:381-384 | a molecule without atoms enqueued above the active one starts that again at the time since its start time, or, past its end, where its atom last started |
| Commands.EmptyRepositionsLoop | src/villa.cpp:381-405 | for a muted or paused loop, at that time modulo its length |
| Commands.DiscardLaw | src/villa.cpp:1033-1052 | the discard command removes a molecule if and only if it has the token and none enqueued before it at its priority has; it answers ENOENT exactly when no queued molecule has the token |
| Commands.DiscardedIsReported | src/villa.cpp:171-175 | when the discard command removes the active molecule, it reports it |
| Commands.LoopPlaysOn | src/villa.cpp:375-406 | at an end of file a restarting, muted or paused loop plays on and nothing else changes; one that only restarts goes to its next atom, and from the last to the first |
| Commands.LoopGoesOn | src/villa.cpp:375-406 | at an end of file, a muted or paused loop starts an atom if and only if the time since its start time, modulo its length, is past all before that atom and not past its end; after the last atom, one that restarts or pauses begins again |
| Commands.RangeLaw | src/villa.cpp:987-1017 | the range command leaves exactly the molecules whose priority is not from the first to below the second bound, reports nobody, starts what is next and moves nothing else; it refuses priorities above 5 without a change, and never removes priority 5 |
| Commands.KeyEndsRecording | src/villa.cpp:338-346 | a key at a recording that is to stop at keys acts as an end of file, but for the stop time, in every molecule that is not placed by that; anywhere else it changes nothing |
| Commands.KeyInPausedLoop | src/villa.cpp:338-346 | in a paused loop with a further atom, a key puts the loop where its last interruption would, or at its beginning |
| Requests.AnswerExact | src/villa.cpp:894-1053 | the answers: 22 for priorities above 5, 2 for a token that no queued molecule has, and 0 otherwise, also if a start fails |
| Requests.StepRecords | src/villa.cpp:908-971 | an accepted enqueue command adds one molecule, with the token, priority, mode and atoms of the command and neither started nor stopped; nothing else is ever added |
| Requests.EveryRunRecords | src/villa.cpp:908-971 | in every run, what was enqueued are the molecules of the accepted commands, in order |
| Requests.StartsWhenIdle | src/villa.cpp:935-971 | in an idle queue a new molecule starts at its first atom with the offset it came with, unless it is a muted or paused loop, which starts at its beginning |
| Requests.StartsAbove | src/villa.cpp:436-450 | so does one above the active molecule |
| Requests.NextAtomFails | src/villa.cpp:410-417 | if the next atom of the active molecule, which is no restarting, muted or paused loop, does not start, that atom is gone, the cursor is behind the one after it, the molecule is still active and nothing else has changed |
| Requests.FirstAtomFails | src/villa.cpp:410-417 | if the first atom of a new molecule does not start in an idle queue, the molecule is queued without it, with its cursor behind the next, and nothing is active |
| Traps.TrapExact | src/villa.cpp:356-450 | from a calm queue, an event divides by zero or leaves the lists if and only if it is fatal, a condition on the event and the queue before it, for each command, end of file and key, for the molecule at hand and for the one that plays after it |
| Traps.EveryRun | src/villa.cpp:393-404 | a run whose starts succeed goes through if and only if none of its events is fatal when it comes |
| Failures.FailureSkips | src/villa.cpp:412-431 | after a failed start a molecule that is no restarting, muted or paused loop starts the atom after the next one when it is scheduled again, or is reported done if there is none |
| Failures.FailedLoopGoesOn | src/villa.cpp:388-423 | such a loop starts where it is placed |
| Failures.SkipExact | src/villa.cpp:388-423 | the molecule goes on with the atom after the failed one if and only if it is a loop whose position is in that atom |
| Failures.StaleSkips | src/villa.cpp:375-431 | an end of file that finds the molecule still active skips one more atom |
| Failures.IdleFails | src/villa.cpp:410-417 | where nothing is active, nothing is after a failed start, which is right if and only if a single atom was left to play |
| Failures.FailureExact | src/villa.cpp:356-450 | when the start that it makes fails, an event leaves the right molecule active if and only if a condition on the queue before it holds, for each event and also for a molecule that is active then |
| Clock.RunPunctual | src/villa.cpp:419-421 | in every run by a clock that does not go back, no start or stop time is in the future |
| Clock.EveryMutedResume | src/villa.cpp:393-398 | after every such run, an event that resumes a muted loop places it at the time since its start modulo its length, without underflow |
| Drain.PlayOrderSorted | src/villa.cpp:180-194 | play order is by priority, then by enqueueing, and has every playable molecule |
| Drain.ScriptEnds | src/villa.cpp:425-430 | the molecules of the script end in play order |
| Drain.DrainStep | src/villa.cpp:372-431 | one end of file plays one cue of the script and no cue is lost or reordered |
| Drain.DrainAll | src/villa.cpp:356-434 | as many ends of file as atoms are left play exactly the script, report every molecule once and empty the queue |
| Examples.PausedLoopJumps | src/villa.cpp:399-405 | a run of four events after which a paused loop is not where it was |
| Examples.SecondPauseJumps | src/villa.cpp:399-421 | a run of five events after which a paused loop, stopped at 19 ms, is at 10 ms |
| Examples.FailureSkipsAtom | src/villa.cpp:410-417 | a run of two events in which the first of three atoms does not start and the third is the next to start |
| Examples.LoopedRecordingTraps | src/villa.cpp:393-398 | a run of two events that divides by zero |
| Examples.DiscardStalls | src/villa.cpp:1033-1046 | a run of four events after which nothing is active although a molecule waits |
| Framing.Scan | src/json_tcp.c:51 | finds the first CR LF that has no NUL before it, if there is one |
| Framing.ScanBytes | src/json_tcp.c:51 | the bytes searched for are 13 and 10, and the search stops at a 0 |
| Framing.WireBytes | src/json_tcp.c:116-130 | what is sent is each payload with the bytes 13 and 10 behind it |
| Framing.FramesOfSum | src/json_tcp.c:47-92 | receiving more gives the earlier frames, then those of the kept tail with the new bytes behind it |
| Framing.FramesAreWire | src/json_tcp.c:50-92 | a stream is its frames as sent and its tail; frames are clean, and the tail has no frame |
| Framing.FramesUnique | src/json_tcp.c:50-92 | no other clean frames and tail give that stream |
| Framing.RoundTrip | src/json_tcp.c:122-130 | what is sent is received with nothing left over if and only if no payload has CR LF or NUL |
| Framing.ChunkingIrrelevant | src/json_tcp.c:29-98 | however a stream is cut into receives, the frames are those of the whole stream and the buffer is its tail |
| Framing.ChunkedRoundTrip | src/json_tcp.c:116-137 | clean payloads come back in order whatever chunks they travel in |
| Framing.NulHoldsUp | src/json_tcp.c:51 | the frames delivered are those of splitting at every CR LF before the first that has a NUL, and nothing after them |
| Framing.NulExact | src/json_tcp.c:51 | the frames are those of splitting at every CR LF if and only if none of these has a NUL |
| JsonTcp.Strnstr | src/json_tcp.c:51 | the search in the buffer finds what `Framing.Scan` says |
| JsonTcp.DeliveredExact | src/json_tcp.c:60-79 | what is delivered are frames from the first on, all of which decode, up to the first that does not |
| JsonTcp.ReceiveLaw | src/json_tcp.c:47-92 | the rule by which one receive extends what was delivered, also up to a frame that does not decode |
| JsonTcp.Connection.Extract | src/json_tcp.c:51-84 | the loop delivers and counts the frames up to the first that does not decode and finds the tail |
| JsonTcp.Connection.Compact | src/json_tcp.c:86-92 | the unread bytes are moved to the beginning of the buffer |
| JsonTcp.Connection.Receive | src/json_tcp.c:29-98 | after any receives, what was delivered is the frames of the whole stream before the first that does not decode, the count adds that one, and the buffer is the tail |
| Elevators.EveryRun | actor-v3/elevator.py:19-50 | after every run the stops are the floors called, each once, and those ahead are in the order in which they are passed |
| Elevators.AheadInOrder | actor-v3/elevator.py:28-45 | if the first stop is above, the stops above are in rising order, and otherwise those below in falling order |
| Elevators.DirectionExact | actor-v3/elevator.py:23-50 | after every run the elevator rests exactly if no floor was called or it has just arrived; otherwise it goes up if its first stop is above, and down if not |
| Elevators.CallExact | actor-v3/elevator.py:28-45 | a floor is put before the first stop on whose way it is passed, or at the end, unless it is among the stops before that |
| Elevators.HeadingNeverFlips | actor-v3/elevator.py:23-45 | once there is a stop, the side of the first stop never changes |
| Elevators.FoundFirst | actor-v3/elevator.py:30-33 | a floor that is called already is found before the scan inserts it again |
| Elevators.RouteExact | actor-v3/elevator.py:28-45 | a call makes the route longer by the way from its last stop to the floor, and not at all if the floor is on the way or called already |
| Elevators.Elevator.Start | actor-v3/elevator.py:23-26 | a resting elevator with stops takes the direction of the first |
| Elevators.Elevator.Call | actor-v3/elevator.py:28-47 | the single scan inserts, finds or appends the floor as the specification says, and starts |
| Calls.EveryRun | src/villa.cpp:506-601 | in every run a call was closed once for each time it was answered, except for a live one; one never answered was never closed |
| Calls.EveryPending | src/villa.cpp:569-593 | after every run a call is pending if and only if, since an arrival or from the beginning, it was neither answered nor closed while no call of its id was live |
| Calls.RunCounts | src/villa.cpp:506-522 | over every run, a call is closed each time a live one ends, hung up each of these times and each time a pending one is hung up, and answered each time a pending one is answered successfully |
| Calls.EveryHangup | src/villa.cpp:838-854 | in every run, the hangups of a call beyond its closings are those of hangup commands that found it pending and not live |
| Calls.EveryMessage | src/villa.cpp:506-522 | in every run, each closing follows directly on its hangup with the same code; the id and code of each message are those of an event, the code being that of the hangup command, 500 for a lost connection and 200 otherwise |
| Calls.DisjointExact | src/villa.cpp:623-631 | no call is pending and live at once throughout a run if and only if no call arrives under an id that is live at that moment |
| Calls.EveryDistinctRun | src/villa.cpp:506-601 | in every run whose calls arrive under different ids, no call is ever pending and live at once, and a call is closed exactly once if it was answered and is not live any more, and otherwise never |
| Calls.ReusedId | src/villa.cpp:623-631 | a run of three events after which a call is pending and live |
| Calls.Session.Move | src/villa.h:219-232 | the call passes to the new session, and the old one has none |
| Calls.Session.Hangup | src/villa.cpp:506-522 | hangs up and reports once, and does nothing for a session without a call |
| Calls.Registry.Answer | src/villa.cpp:760-798 | an answered call becomes live through two moves that end no call; a second session of a live id is ended |
| Calls.Registry.Hangup | src/villa.cpp:838-854 | ends a live call with one message, hangs up a pending one without, in both cases with the code of the command (`EveryMessage`) |
| Calls.Registry.CallClosed | src/villa.cpp:569-593 | ends a live call with one message, forgets a pending one |
| Calls.Registry.Disconnected | src/villa.cpp:553-561 | ends every live call once, in some order |
| Places.MirrorExact | actor-v3/location.py:331-338 | the known directions are the eight of the compass, and the mirror of one is the way straight back |
| Places.ConnectExact | actor-v3/location.py:340-354 | connecting keeps the map symmetric if and only if both exits are free |
| Places.UndoneExact | actor-v3/location.py:331-354 | every walk is undone by the reversed mirrored walk if and only if the map is symmetric |
| Places.EveryMapUndone | actor-v3/location.py:331-354 | in every map built of free exits all walks are undone |
| Places.TerraceNotUndone | actor-v3/villa.py:362-375 | in the map of the house with all its connections, north and south again leads from the corridor to the salon |
| Places.Connect | actor-v3/location.py:340-354 | sets the exit and its reverse, or refuses an unknown direction and changes nothing |
| Places.EnterExact | actor-v3/location.py:122-131 | entering keeps everyone in exactly his list if and only if the caller was nowhere |
| Places.LeaveExact | actor-v3/location.py:133-149 | leaving takes the first mention of the caller out of the list and his data away, and nothing else; it raises AttributeError exactly if someone listed has no data, and otherwise ValueError exactly if the caller is not listed |
| Places.LeaveLaw | actor-v3/location.py:133-149 | where everyone is in exactly his list, leaving succeeds exactly for a caller who is there, and raises ValueError otherwise and never AttributeError |
| Places.MoveLaw | actor-v3/location.py:151-166 | a move succeeds exactly from where the caller is, and moves nobody else |
| Places.EveryRunConsistent | actor-v3/location.py:122-166 | in every run each caller is in exactly the list of the place he is at, once, or in none |
| Places.EnterPlace | actor-v3/location.py:122-131 | sets location and data and appends to the list |
| Places.LeavePlace | actor-v3/location.py:133-149 | removes the caller and his data, or raises and changes nothing |
| Places.MoveCaller | actor-v3/location.py:151-166 | leaves, then enters the destination; does not enter when leaving raises |

## Left out

- Addresses: the program keeps the active molecule by its address in a vector, reads it after the vector may have moved, and reports a removed molecule through the address it had, where another one may be by then. The model gives molecules identities and reports the one removed.
- Ledger.EveryRun: is what is proved of every run in which starting an atom fails; that the active molecule is the next one is false there, and `Failures.FailureExact` says when it holds after the first event whose start fails, but not after further ones.
- Clock: one reading per event, where the program may read it again while it schedules.
- Lengths: sums of lengths are unbounded, and only subtractions of times wrap around at 64 bits; the length of an atom does not change.
- Negative priorities: they index outside the lists; the model says that an event does so and ends the run there.
- Recordings that end by their timers: a recording that was interrupted keeps its timers, which then end an atom of another molecule.
- `m_dont_interrupt` and `m_dtmf_stop`: no branch of the scheduler reads them.
- Audio, SIP, timers, sockets and files: foreign calls; what they return is an input.
- JSON and the type checks of commands: whether a payload decodes is an input, and commands arrive with parameters of the right types.
- The buffer library: mbuf is not part of this repository; it is modelled as a growing array, with the overlapping move of compaction as an ascending copy, and memory never runs out. The buffer exists from the start.
- What the frame handler does with a frame, and its error value, which the receiver overwrites.
- Callers' sounds on moving, orientation timers and background sounds: they change no list.
- The caller iterator of a place: nothing in the repository assigns one, and its handling of removals does not fit its own description.
- Transitions as shared objects: a connection is the exit it sets; that reusing one transition for two connections would change the first is not modelled.
- The server's own framing (`data_received` appends to the tail it should replace), DTMF menus, mailboxes, the database and reconnecting.
