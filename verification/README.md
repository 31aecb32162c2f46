# A verified model of the operating-systems assignments

A Dafny 4.11 model of the parts of the repository in which something can go wrong between
functions, threads or machines, with proofs of what they promise. `dafny verify dfyconfig.toml`
checks all of it.

- **The pipeline of active objects** (`task5_designPattren`): four threads run one loop, each over its
  own blocking queue, pass every number on and close the chain with NULL.
  `ActiveObject.dfy` is the step relation: one step is one critical section of a queue or one read or
  write of `*num`, and a run is any sequence of actors. `ActiveObjectProtocol` and `ActiveObjectData`
  hold the inductive invariants, `ActiveObjectResults` and `ActiveObjectProgress` what follows,
  `SharedCell` the program that shares one variable between all pointers, `StPipeline` the concrete
  generator and stages, `PipelinePrints` standard output line by line, and `Race` the run in which the
  generator does not wait. The step relation has any number of stages, with any straight-line stage functions.
- **The queue under it**: `TaskQueue` is the linked list on the heap as the thread that holds the mutex
  sees it; `Monitor` is the mutex and condition variable in micro-steps, for any number of threads;
  `MonitorRuns` shows what such runs can achieve; `MonitorStage` maps these to the steps that the chain takes;
  `StageLoop` is the imperative code of `run`, the generator and the stages on such queues; `Prime` is
  the primality test.
- **The poll reactor** (`task4_DesignPattern_Reactor`): `ReactorTable` is removal by swapping in the last
  entry, as arithmetic on indices; `Reactor` is the class with its growing array, one pass and the main
  loop; `ReactorResults` is what passes and runs mean for clients and descriptors, and `ReactorFacts` says it
  in terms of the kernel's answers alone.
- **The Internet checksum** (`task3_making-chat-on-c`, RFC 1071): `Checksum` holds the two loops,
  `ChecksumTheory` what they compute and for which lengths, `Datagrams` the receiving loop that adds
  checksums up.
- **Byte streams** (`task3_making-chat-on-c`): `Transfer` holds the retry loops and the two ends of the
  pipe copy, `PipeCopy` the two processes with a bounded pipe between them.

How the steps of the chain follow the code: `Push` is `enqueue` (`task5_designPattren/queue.c:64-78`),
`Dequeue` is `dequeue` (`task5_designPattren/queue.c:89-106`), `AfterDequeue`, `ThreadStep` and `Hand` are
the loop of `run` (`task5_designPattren/activeobject.c:9-18`) with the generator's loop
(`task5_designPattren/st_pipeline.c:36-43`) unfolded in stage 0, `Execute` is one line of a stage function
(`task5_designPattren/st_pipeline.c:47-69`), and `MainStep` is the end of `main`
(`task5_designPattren/st_pipeline.c:95-104`).

Where the code does not do what it is meant to do, the model keeps the code and states the condition
under which it does. The condition is exact for batch removal in the reactor, `deleteQueue` on a
non-empty queue, the range of the 32-bit checksum and framing of data of odd length. It is exact, too, for the
single variable behind all pointers of the pipeline, and for when the reactor's NULL handlers and failed
sends end the program.

## Model

| member | source | states |
|---|---|---|
| `ActiveObjectProtocol.StepInv` | task5_designPattren/activeobject.c:5-20 | Every step of every thread keeps the protocol invariant: at each queue, taken tasks followed by queued tasks are what was received, that is a prefix of one fixed stream, a stage has received exactly what the stage before it has sent, and memory holds what the generator has stored. Holds with one cell per number and with one shared cell |
| `ActiveObjectProtocol.RunInv` | task5_designPattren/activeobject.c:5-20 | The protocol invariant holds after every schedule |
| `ActiveObjectProtocol.DequeueOK` | task5_designPattren/queue.c:81-107 | `dequeue` keeps a stage in order: it sleeps only on an empty queue, and otherwise the head of the queue is the next task of the stream |
| `ActiveObjectProtocol.HandStep` | task5_designPattren/activeobject.c:9-18 | Queueing at the next stage while the own thread moves on keeps the invariant, wakeup included |
| `ActiveObjectProtocol.CloseStep` | task5_designPattren/st_pipeline.c:43 | The generator queues NULL at its own stage only after its last number, and the invariant is kept |
| `ActiveObjectProtocol.MainStepInv` | task5_designPattren/st_pipeline.c:95-104 | Handing out the argument block, the joins and the `stop` calls keep the invariant |
| `ActiveObjectData.StepData` | task5_designPattren/activeobject.c:5-20 | With one cell per number, every step keeps the data invariant: each stage has shown exactly its sequential output up to the point its thread has reached, and each stored number has the value due at the place where it is |
| `ActiveObjectData.RunData` | task5_designPattren/activeobject.c:5-20 | The data invariant holds along every run, whatever the interleaving of the single reads and writes of `*num` |
| `ActiveObjectData.ExecuteStep` | task5_designPattren/st_pipeline.c:47-69 | One instruction of a stage function, interleaved anywhere, keeps the data invariant of every stage and every number |
| `ActiveObjectData.WorkingAlone` | task5_designPattren/activeobject.c:9-16 | A number that one stage works on is in the hands of no other stage and rests between no others |
| `ActiveObjectResults.ShownIsPrefix` | task5_designPattren/activeobject.c:5-20 | With a cell per number, in every reachable state the output of each stage is a prefix of its sequential output |
| `ActiveObjectResults.FinishedRun` | task5_designPattren/activeobject.c:5-20 | With a cell per number, every finished run has shown exactly the sequential output of every stage, and every number has its final value |
| `ActiveObjectResults.ScheduleIndependence` | task5_designPattren/activeobject.c:5-20 | With a cell per number, any two finished runs agree on the output of every stage and on memory |
| `ActiveObjectResults.OutputInTurn` | task5_designPattren/activeobject.c:9-16 | With a cell per number, on the one stream that all stages print on, in every run the lines of a stage for a number come before the lines of the next stage for it: wherever the stream is cut, if the next stage has shown more than its lines for the first i numbers, the stage has shown its lines for i+1 |
| `ActiveObjectResults.SentinelDiscipline` | task5_designPattren/activeobject.c:9-18 | In every run a queue receives NULL at most once and as the last of its stream, a stage function is never called with NULL or handed on with it, and a finished thread has received and read its whole stream |
| `ActiveObjectResults.DeleteOnlyIdleQueues` | task5_designPattren/activeobject.c:41-48 | Whenever `stop` deletes a queue, all queues are empty, no thread can move and none is asleep |
| `ActiveObjectProgress.DeadlockFree` | task5_designPattren/activeobject.c:9-18 | In every state that satisfies the invariant and is not finished, some step other than a spurious wakeup is enabled |
| `ActiveObjectProgress.FirstRunningStage` | task5_designPattren/activeobject.c:9-18 | The first stage whose thread is still running is never blocked |
| `ActiveObjectProgress.StepDecreases` | task5_designPattren/queue.c:91-94 | Every step but a spurious wakeup decreases a non-negative measure, and a spurious wakeup adds one to it |
| `ActiveObjectProgress.RunIsBounded` | task5_designPattren/activeobject.c:9-18 | The number of steps of any run is at most its initial measure plus its spurious wakeups |
| `ActiveObjectProgress.CanFinish` | task5_designPattren/activeobject.c:9-18 | From every state that satisfies the invariant the program can run to its end without spurious wakeups |
| `ActiveObjectProgress.EnabledExactly` | task5_designPattren/activeobject.c:9-18 | In every state that satisfies the invariant a thread can move if and only if it neither sleeps nor has ended, a thread can wake spuriously if and only if it sleeps, and then only goes back to its test, and `main` can move if and only if it has not returned and the thread it waits for, if any, has ended |
| `ActiveObjectProgress.MainInTurn` | task5_designPattren/st_pipeline.c:95-104 | In every finished run `main` has handed out the argument block once, then joined every thread once, in the order of the stages, then stopped every object once in that order, and done nothing else |
| `SharedCell.StepSimulates` | task5_designPattren/st_pipeline.c:36-42 | If the instruction a step executes, if any, works on the number stored last and the generator is still in `partD_a`, the step with one shared variable matches the step with a cell per number: same queues, program counters and output, and until the generator returns the variable holds what the newest cell holds; from then on it holds anything |
| `SharedCell.SharedRefinesPrivate` | task5_designPattren/st_pipeline.c:36-69 | A timely run, in which every executed instruction works on the number stored last before `partD_a` returns, has with one shared variable, step for step, the output, queues and program counters of the run with a cell per number; its logs are prefixes of the sequential ones, and complete at the end |
| `SharedCell.SharedOutputInTurn` | task5_designPattren/activeobject.c:9-16 | The order of the lines on the common stream for the single variable, in every timely run |
| `SharedCell.SharedIsRightExactly` | task5_designPattren/st_pipeline.c:36-69 | The exact condition for the single variable, which holds an arbitrary value once `partD_a` has returned: for stage functions that end by showing their number and a schedule that runs the program to its end, all stages show their sequential output for all values of the numbers if and only if the run is timely |
| `SharedCell.UntimelyIsWrong` | task5_designPattren/st_pipeline.c:36-69 | The converse for single inputs: a finished run that is not timely goes wrong for one of any two inputs that differ in one certain number only |
| `SharedCell.SameFromStart` | task5_designPattren/activeobject.c:5-20 | Control does not depend on the numbers or on whether the variable is shared: equally long inputs lead, schedule by schedule, to the same queues, program counters and numbers of lines, and timeliness is the same for all of them |
| `SharedCell.DisciplinedIsTimely` | task5_designPattren/st_pipeline.c:40-41 | A generator that touches its variable and returns only while the other stages are idle, the intent of its `sleep(1)`, makes every run timely |
| `SharedCell.SharedCanFinish` | task5_designPattren/st_pipeline.c:36-43 | Every disciplined run can be carried on, still disciplined, to its end, where every stage has shown exactly the sequential output |
| `SharedCell.DisciplinedMove` | task5_designPattren/st_pipeline.c:36-42 | While the generator has to wait, some other thread can move, so waiting never blocks the program |
| `SharedCell.NoDanglingPointer` | task5_designPattren/st_pipeline.c:28-44 | In a disciplined run no stage holds a pointer to the local variable of `partD_a` after that function has returned: only NULL is still queued |
| `StPipeline.PipelineOutput` | task5_designPattren/st_pipeline.c:28-69 | With a cell per number, for every size, every `rand` and every interleaving, the log of each stage is a prefix of its expected lines in the order of generation, and all of them at the end, when every number again has its generated value |
| `PipelinePrints.PrintedExactly` | task5_designPattren/st_pipeline.c:28-69 | Standard output in full, with a cell per number and every interleaving: every line of it is at exactly one of the places of `partD_b`, `partD_c` or `partD_d`, which show, for each n = `rand` % 900000 + 100000 in turn, n+11 with its verdict; n-2 with its verdict; n-2 with its verdict and then n. The verdict is whether no number from 2 below it divides it. Lines for a number come after those of the stage before for it, and a finished run has shown all lines and left every n in memory |
| `PipelinePrints.WrittenPrints` | task5_designPattren/st_pipeline.c:36-69 | The same standard output for the program as written, with its single `num`, in every timely run |
| `StPipeline.LinesAre` | task5_designPattren/st_pipeline.c:47-69 | For n in the range of the generator: the expected lines of the stages are n+11 with its verdict, n-2 with its verdict, and n-2 with its verdict followed by n, where the verdict is true if and only if no d from 2 below the number divides it |
| `StPipeline.ExpectedAt` | task5_designPattren/st_pipeline.c:36-69 | The expected output of a stage has one line for each number, two for stage 4, and those for the i-th number are at its i-th place |
| `StPipeline.SharedPipelineOutput` | task5_designPattren/st_pipeline.c:36-69 | The same output for the program as written, with its single `num` behind every pointer, for every timely run |
| `StPipeline.SharedOutputExactly` | task5_designPattren/st_pipeline.c:36-69 | The program as written, run to its end by some schedule, shows the expected lines of all three stages for whatever `rand` yields if and only if every instruction works on the number stored last, before `partD_a` returns |
| `Race.RaceLosesANumber` | task5_designPattren/st_pipeline.c:36-42 | For the program as written with size 2 and the numbers 100000 and 200000 a schedule of eight steps, without the wait, makes `partD_b` show 200011 first: the first number is never shown, and the output is no prefix of the expected one |
| `StPipeline.PipelineEnds` | task5_designPattren/st_pipeline.c:71-107 | Every run of the program can be completed, and no run makes more steps than its measure and its spurious wakeups allow |
| `StPipeline.RunIsShort` | task5_designPattren/st_pipeline.c:71-107 | No run of the program without spurious wakeups has more than 60 steps for each number and 90 besides |
| `StPipeline.SequentialIsExpected` | task5_designPattren/st_pipeline.c:47-69 | The stage functions composed along the chain show what the table of expected lines says |
| `StPipeline.EveryNumberIsSomewhere` | task5_designPattren/activeobject.c:9-16 | Every stored number can be located: it rests between two stages or is in the hands of one, and it rests nowhere else |
| `StPipeline.NumbersStayInRange` | task5_designPattren/st_pipeline.c:38-67 | With a cell per number, at every moment of every interleaving every number lies between 99900 and 1000100, so `int` arithmetic never overflows |
| `StPipeline.SharedNumberStaysInRange` | task5_designPattren/st_pipeline.c:38-67 | The same bounds for the single variable of the program as written, in every timely run and for as long as `partD_a` has not returned |
| `StageLoop.Func` | task5_designPattren/st_pipeline.c:47-69 | The stage functions on memory: the value left in the cell and the lines printed are those of the instruction lists of the chain |
| `StageLoop.RunLoop` | task5_designPattren/activeobject.c:5-20 | The loop of `run`, on a queue that may be empty at first and receives the rest of a NULL-closed stream in arbitrary portions while the loop runs: it empties its queue, leaves the next queue with all the tasks appended in order, NULL included, and leaves in memory and shows what the stage function does to each number in order |
| `StageLoop.Generate` | task5_designPattren/st_pipeline.c:28-44 | `run` with `flag` 1 around `partD_a`: the numbers are stored, the next queue holds a pointer to each followed by one NULL, the own queue is empty |
| `StageLoop.WorkOff` | task5_designPattren/activeobject.c:9-17 | Working off a queue in order takes every number from its arrival value at a stage to its arrival value at the next, and shows the sequential output |
| `StageLoop.RunPipeline` | task5_designPattren/st_pipeline.c:71-107 | The imperative program, its threads run one after the other, shows for each n = `rand` % 900000 + 100000 in turn, and for no other, n+11, n-2, and n-2 and n, the first line of each with the right verdict, and leaves every n in memory |
| `Prime.IsPrime` | task5_designPattren/st_pipeline.c:10-24 | Returns 1 exactly for the primes, over all `unsigned int` inputs |
| `Prime.NoOddDivisorUpToRoot` | task5_designPattren/st_pipeline.c:16-23 | A number without a divisor among 2 and the odd numbers up to its square root is prime |
| `TaskQueue.Queue.Enqueue` | task5_designPattren/queue.c:54-79 | Links a new last node: the contents grow by the new entry at the end and the list stays well formed; in memory `tail` is the new node, which the old `tail` leads to, and `head` changes only if it was null |
| `TaskQueue.Queue.TryDequeue` | task5_designPattren/queue.c:81-107 | On the empty queue, which is a null `head`, nothing changes and the caller has to wait; otherwise the oldest entry, the one at `head`, is unlinked and returned, and `tail` becomes null exactly with the last node |
| `TaskQueue.Queue.Acyclic` | task5_designPattren/queue.c:54-107 | Following `next` from `head` never meets a node twice |
| `TaskQueue.Queue.IsEmpty` | task5_designPattren/queue.c:109-121 | True exactly when nothing is queued |
| `TaskQueue.Queue.Delete` | task5_designPattren/queue.c:31-52 | The loop of `deleteQueue`, which moves on twice per round: it frees the nodes at even positions, reads through a null pointer exactly when their number is odd, and frees every node without a crash if and only if the queue is empty |
| `TaskQueue.FirstInFirstOut` | task5_designPattren/queue.c:54-107 | Over every history of calls, what was handed out followed by what is left equals what was there followed by what was put in |
| `TaskQueue.LastCall` | task5_designPattren/queue.c:54-107 | What the last call of a history does: a put adds its entry to what is left, a take hands out the first of what is left, and a take that finds nothing hands out nothing |
| `TaskQueue.HandsOutExactly` | task5_designPattren/queue.c:54-107 | A history hands out as many entries as it has takes if and only if at no moment the takes so far outnumber the puts so far and what was there; never more |
| `TaskQueue.Replay` | task5_designPattren/queue.c:54-107 | A history of calls on the linked queue hands out and leaves exactly what the history on a list does |
| `Monitor.StepKeepsInv` | task5_designPattren/queue.c:64-105 | Every lock, wait, wakeup, relock, link, signal and unlock step of any number of producers and consumers keeps the monitor invariant, with spurious wakeups, barging and signals that wake several threads |
| `Monitor.NoLostWakeup` | task5_designPattren/queue.c:64-105 | In every run, while a consumer sleeps, the entries are at most as many as the woken consumers that wait for the mutex or have just got it and will test again, one entry aside if the holder of the mutex is about to signal it or is a woken consumer about to unlink it; with the mutex free, at most as many as those that wait for the mutex |
| `Monitor.MutualExclusion` | task5_designPattren/queue.c:64-105 | At most one thread is inside the critical sections |
| `Monitor.FirstInFirstOut` | task5_designPattren/queue.c:64-105 | In every run of the micro-steps entries are linked in the order in which the mutex was granted to their producers, and entries taken followed by entries queued are the entries linked; at most the entry of the producer that holds the mutex is not yet linked |
| `Monitor.RestsOnlyWhenDone` | task5_designPattren/queue.c:64-105 | A reachable state has no step left that a thread can make alone if and only if every thread is outside or asleep; then the mutex is free and, if anyone sleeps, the queue is empty |
| `MonitorRuns.EnabledExactly` | task5_designPattren/queue.c:64-105 | In every state that satisfies the invariant a thread can start a call if and only if it is outside, wake spuriously if and only if it sleeps, and go on by itself if and only if it is in a call, awake, and the mutex is free if it needs the mutex |
| `MonitorRuns.AnyMayWake` | task5_designPattren/queue.c:77 | A signal may wake any set of sleepers, if there is one at least one, and wakes these and no others |
| `MonitorRuns.CanPut` | task5_designPattren/queue.c:64-78 | From every state that satisfies the invariant a thread outside can enqueue a new entry: some run ends with the mutex free, the thread outside, everything granted linked and the new entry the last |
| `MonitorRuns.ServesAll` | task5_designPattren/queue.c:64-105 | With two threads or more, for every sequence of entries some run links and takes all of them in order and ends every call, and some run does so while every entry is linked only after its consumer has fallen asleep |
| `MonitorStage.StepIsSeen` | task5_designPattren/queue.c:64-105 | With one consumer, every micro-step on mutex, condition variable and list is, for the chain of stages, nothing or one of its steps on the queue: `Push`, `Dequeue`, a spurious wakeup, or the consumer's return for its next task |
| `MonitorStage.RunIsSeen` | task5_designPattren/queue.c:64-105 | So is every run of micro-steps: the chain sees the same tasks queued and taken and the consumer asleep or about to look |
| `MonitorStage.ChainSeesMonitor` | task5_designPattren/queue.c:64-105 | The same from the start, against the initial stage of the chain |
| `ReactorTable.BatchRemovalExact` | task4_DesignPattern_Reactor/react_server.c:206-219 | For distinct entries and strictly increasing indices, the entries that are left after the ascending removal loop are those at the other indices if and only if no listed index below `fd_count-k`, say the i-th, has slot `fd_count-1-i` listed too |
| `ReactorTable.FinalSlots` | task4_DesignPattern_Reactor/react_server.c:206-219 | Closed form of the removal loop: slot `list[j]` ends up with the entry of slot `fd_count-1-j`, every other surviving slot keeps its own |
| `ReactorTable.CleanIsLow` | task4_DesignPattern_Reactor/react_server.c:206-219 | That condition in closed form: with h listed indices below `fd_count-k`, the last listed index is below `fd_count-h` |
| `ReactorTable.CleanCases` | task4_DesignPattern_Reactor/react_server.c:364-366 | The condition holds when all listed indices lie below `fd_count-k`, and when the list is exactly the last k slots |
| `ReactorTable.OneIsCleanTwoNeedNotBe` | task4_DesignPattern_Reactor/react_server.c:364-366 | One removal is always exact; with entries L, a, b, c and indices 1 and 3 the loop loses b and keeps c |
| `ReactorTable.RemoveKeepsDistinct` | task4_DesignPattern_Reactor/react_server.c:206-219 | No removal ever duplicates a descriptor, exact or not |
| `ReactorTable.RemoveKeepsFirst` | task4_DesignPattern_Reactor/react_server.c:206-219 | The listener keeps slot 0 whatever other slots are removed, as long as one entry is left |
| `Reactor.Table.AddFd` | task4_DesignPattern_Reactor/react_server.c:186-203 | Appends the descriptor, doubling the array when it is full: by how much size and copied slots grow, and that the peak is the greatest number of live entries; the size stays 5 times a power of two, at least the peak and, once grown, below twice the peak, and the slots copied by growth add up to the size minus 5 |
| `Reactor.Table.DelFromPfds` | task4_DesignPattern_Reactor/react_server.c:206-219 | Moves the last entry into the hole, and clears `running` exactly when one entry is left |
| `Reactor.Table.RemoveListed` | task4_DesignPattern_Reactor/react_server.c:364-366 | The in-place removal loop does what the removal function on sequences does, and stops the reactor exactly when it removed something and one entry is left |
| `Reactor.Table.SendToOthers` | task4_DesignPattern_Reactor/react_server.c:305-319 | The broadcast loop sends to every slot whose descriptor is neither the listener's nor the sender's, in table order, skips those that would block, and ends the program at the first send that fails, because the descriptor is closed or by itself |
| `Reactor.Table.HandleEvent` | task4_DesignPattern_Reactor/react_server.c:86-94 | Ends the program, by calling a NULL handler, exactly if an event is registered for the descriptor |
| `Reactor.Table.Serve` | task4_DesignPattern_Reactor/react_server.c:247-361 | The turn of a client's slot: its sends, its close and whether it goes on the removal list, or which send or which call of a handler ends the program |
| `Reactor.Table.Scan` | task4_DesignPattern_Reactor/react_server.c:246-362 | The loop over the slots produces exactly the sends, closes, open descriptors and removal list that the per-slot definitions prescribe, or stops at the first send that fails or handler that is called with exactly what was done before, and never writes past the removal list |
| `Reactor.Table.Pass` | task4_DesignPattern_Reactor/react_server.c:234-367 | One pass of the main loop: it ends the program when an accepted descriptor already has an event; otherwise the table it works on is the polled one plus the accepted connection, with distinct descriptors, and sends, closes, open descriptors, events, the new table and the `running` flag are determined, as is where a failed send or the call of a NULL handler ends it |
| `ReactorResults.PassDelivers` | task4_DesignPattern_Reactor/react_server.c:274-317 | In a pass that does not end the program each client gets, once each and in table order, exactly the messages of the other clients whose data was read and whose send did not block, every one of them while its descriptor was open; the listener gets nothing |
| `ReactorResults.BrokenPassDelivers` | task4_DesignPattern_Reactor/react_server.c:313-317 | In a pass that ends the program each client has got exactly what the slots before the last one had for it, and that slot's message if the send to it came before the end |
| `ReactorResults.ExitsExactly` | task4_DesignPattern_Reactor/react_server.c:313-356 | With the descriptors in the table open and an event for every client, the turns of the slots end the program if and only if some slot is closed, since its NULL handler is then called, or a message is passed on and a send fails by itself |
| `ReactorResults.RunDelivers` | task4_DesignPattern_Reactor/react_server.c:234-367 | Over a whole run of passes the messages sent are those of the passes, and every descriptor gets, pass by pass, exactly those due to it; a descriptor that is not in the table gets none |
| `ReactorResults.PassKeepsSound` | task4_DesignPattern_Reactor/react_server.c:346-366 | A pass that does not end the program closes no descriptor and keeps descriptors distinct and open, an event for every client, and no event for a closed descriptor |
| `ReactorResults.StartIsSound` | task4_DesignPattern_Reactor/react_server.c:386-405 | A new reactor starts in a world of that kind: the listener alone, open, and no event |
| `ReactorResults.RunKeepsOpen` | task4_DesignPattern_Reactor/react_server.c:234-367 | As long as the program runs, whatever errors `poll` reports, no descriptor is ever closed and the table holds open descriptors only, so that `accept` returns a descriptor that is not in the table simply because it returns none that is open |
| `ReactorResults.RunEndsExactly` | task4_DesignPattern_Reactor/react_server.c:234-367 | The pass that follows a run ends the program if and only if it closes a client's slot or a send fails by itself; when sends work, if and only if it closes a client's slot |
| `ReactorResults.OneStaysBehind` | task4_DesignPattern_Reactor/react_server.c:287-296 | When the first and the third of three clients hang up in one pass, the program goes on with the third still in the table and the second lost |
| `ReactorResults.PassRemoves` | task4_DesignPattern_Reactor/react_server.c:364-366 | A pass that does not end the program lists exactly the clients that hung up or whose data could not be read, and removes exactly those if and only if its list is clean, in particular when there is at most one |
| `ReactorFacts.PassTakesOver` | task4_DesignPattern_Reactor/react_server.c:234-272 | The table of a pass that goes on has the entries from before with what `poll` reports on their slots, and one more, with an event, if and only if `poll` reports the listener readable and `accept`, given the descriptors in use, returns one |
| `ReactorFacts.PassForwards` | task4_DesignPattern_Reactor/react_server.c:305-319 | Said of the kernel and the old table alone: for two different clients of a pass that goes on, exactly one message goes from the first to the second if `poll` reports the first readable, `recv` returns data and the `send` works, and none otherwise |
| `ReactorFacts.PassForwardsOnly` | task4_DesignPattern_Reactor/react_server.c:305-319 | Every message of a pass goes from a client in its table to another, so none goes to the listener or back to its sender |
| `ReactorFacts.PassForwardsInOrder` | task4_DesignPattern_Reactor/react_server.c:246-319 | The messages of a pass go out in the order of the slots they come from, and those from one slot in the order of the slots they go to |
| `ReactorFacts.BrokenPassForwards` | task4_DesignPattern_Reactor/react_server.c:305-319 | In a pass that ends the program the messages between two clients are the same, as far as they come before its end: those of earlier slots, and those of the slot of the failed send to earlier slots, or all of the slot whose handler was called |
| `ReactorFacts.PassLeaves` | task4_DesignPattern_Reactor/react_server.c:206-219 | A pass that goes on takes as many entries off as there are clients whose `recv` returned no data; the j-th of their slots, if it is left, has the entry of the j-th slot from the end, and every other slot that is left keeps its own. It closes nothing, and clears `running` if and only if it removed an entry and left one |
| `ReactorFacts.EndsExactly` | task4_DesignPattern_Reactor/react_server.c:234-367 | The pass that follows a run ends the program if and only if `poll` reports an error on a client whose read has not just failed, or a client's data was read and the `send` to another client fails by itself |
| `ReactorFacts.PassesAreLinked` | task4_DesignPattern_Reactor/react_server.c:222-368 | A run of passes is a chain of worlds from the first to the last in which each is the outcome of the pass from the one before |
| `Reactor.ListedIsDoomed` | task4_DesignPattern_Reactor/react_server.c:277-358 | A slot is on the removal list exactly when its read failed, its peer hung up, or poll reported an error on it |
| `Reactor.AfterPass` | task4_DesignPattern_Reactor/react_server.c:234-367 | After every pass the descriptors are again distinct, slot 0 is still the listener, and every client has an event |
| `Reactor.Table.Turn` | task4_DesignPattern_Reactor/react_server.c:234-367 | A pass keeps the state at the start of passes: listener in slot 0, distinct descriptors, an event for every client, 1 <= fd_count <= fd_size, and the listener alone exactly if the reactor has stopped or never accepted a client; the peak becomes the size of its table if that is greater; a pass that goes on stops the reactor if and only if it removed something and left the listener alone |
| `Reactor.Table.StartReactor` | task4_DesignPattern_Reactor/react_server.c:222-368 | For every sequence of passes and everything the kernel may report: each pass starts from what the one before left, the last one may end the program, the state at the start of passes holds at the end, and the loop stops only with the listener alone in the table after a pass over a table that had a client; the peak is the greatest table of the run or an earlier peak, and if the array grew it is less than twice as large as one of the tables; a second start does nothing |
| `InternetChecksum.ComputeChecksum` | task3_making-chat-on-c/server.c:37-51 | The loop with the 64-bit accumulator and its folding loop return the complement of the word sum modulo 65535, the sum wrapping at 2^64 |
| `InternetChecksum.CalculateChecksum` | task3_making-chat-on-c/prartb_2.c:24-49 | The loop with the signed 32-bit accumulator and the two-step fold, on the first `len` bytes, return the same, or overflow exactly when the word sum exceeds the range of `int`; 65535 for a negative `len` |
| `InternetChecksum.TwoStepFold` | task3_making-chat-on-c/prartb_2.c:43-46 | Within the range of `int` the two-step fold equals the full fold |
| `InternetChecksum.SumsAdd` | task3_making-chat-on-c/server.c:37-43 | Word sums of buffers of even length add up, a word being its first byte plus 256 times its second and an odd last byte a word by itself |
| `InternetChecksum.OnesComplement` | task3_making-chat-on-c/server.c:44-50 | The complements of the checksums of two buffers, the first of even length, add up with end-around carry to that of the concatenation; that of one word is the word, that of no data 0 (RFC 1071, section 1) |
| `ChecksumTheory.FoldIsModulo` | task3_making-chat-on-c/server.c:37-51 | With the buffer read as an integer whose first byte is its lowest base-256 digit, 65535 minus the checksum is congruent to it modulo 65535, and is 0 only for the integer 0 |
| `ChecksumTheory.AllOnesOnlyForZeros` | task3_making-chat-on-c/server.c:37-51 | The checksum is 65535 exactly for all-zero buffers |
| `ChecksumTheory.OrderOfWords` | task3_making-chat-on-c/server.c:40-43 | Permuting the 16-bit words keeps the checksum (RFC 1071, section 2) |
| `ChecksumTheory.ByteOrderIndependence` | task3_making-chat-on-c/server.c:40-43 | If one buffer of even length is another with the bytes of every word exchanged, so are their checksums (RFC 1071, section 2) |
| `ChecksumTheory.VersionsAgree` | task3_making-chat-on-c/prartb_2.c:24-49 | The 32-bit and the 64-bit version agree on every buffer of length n if and only if n <= 65537 |
| `ChecksumTheory.LongNeverWraps` | task3_making-chat-on-c/server.c:38-43 | The 64-bit accumulator stays in range for all contents exactly up to length 562958543486978 |
| `ChecksumTheory.TestDataOverflows` | task3_making-chat-on-c/prartb_2.c:412-416 | On n letters A, the client's test data, the 32-bit accumulator overflows if and only if n >= 257108; the 100 MB of the client are beyond that |
| `ChecksumTheory.FramingVerifies` | task3_making-chat-on-c/prartb_2.c:416-425 | Data followed by its checksum in machine order has checksum 0 if and only if its length is even or the two bytes of the checksum are equal; all-zero data included (RFC 1071, section 1) |
| `ChecksumTheory.FramingVerifiesInt` | task3_making-chat-on-c/prartb_2.c:416-425 | With the 32-bit version on both sides, framed data verifies if and only if its word sum, checksum included, is at most 2147483647 and its length is even or the two bytes of the checksum are equal; the version overflows exactly on greater word sums and otherwise returns the checksum |
| `ChecksumTheory.FramingRange` | task3_making-chat-on-c/prartb_2.c:416-425 | Framed data of up to 65535 bytes is in that range whatever its contents |
| `ChecksumTheory.LettersVerify` | task3_making-chat-on-c/prartb_2.c:412-425 | n letters A, for even n, verify with the 32-bit version if and only if n <= 257102 |
| `ChecksumTheory.ChunkedChecksum` | task3_making-chat-on-c/server.c:244-245 | The checksums of the chunks, those at odd offsets weighted by 256, add up modulo 65535 to the checksum of the concatenation (RFC 1071, section 2) |
| `ChecksumTheory.ChunksGrow` | task3_making-chat-on-c/server.c:244-245 | One more chunk adds its checksum to the running total, and to the weighted total its checksum, times 256 if the bytes before it are odd in number |
| `ChecksumTheory.EvenChunksTotal` | task3_making-chat-on-c/server.c:244-245 | If every chunk but the last has even length, the plain running total agrees modulo 65535 with the checksum of the concatenation |
| `Datagrams.Serve` | task3_making-chat-on-c/server.c:233-246 | The receive loop on arbitrary datagrams and a buffer with arbitrary initial contents: each is taken whole, or its first 1024 bytes; the loop counts exactly those before the first that reads "exit\n" up to the NUL in the buffer, where old contents or zeros follow it; the totals are the number of bytes and the sum of the checksums of those counted, which agrees modulo 65535 with the checksum of the whole if all but the last have even length |
| `Datagrams.ExitPayload` | task3_making-chat-on-c/server.c:240-242 | In a cleared buffer the loop ends exactly at a payload that reads "exit\n" as a C string |
| `Datagrams.TotalRange` | task3_making-chat-on-c/server.c:367-380 | The `int` total stays in range for n datagrams of any contents if and only if n <= 32768 |
| `Transfer.SendAll` | task3_making-chat-on-c/prartb_2.c:766-774 | For all positive short-write results the retry loop ends, sent + remaining is the total, and the stream holds the sent part in order and once; each call adds what `write` takes, up to the end of the buffer, and it stops short only at an error |
| `Transfer.SendWithChecksum` | task3_making-chat-on-c/prartb_2.c:654-674 | Data sent by retries and the checksum by one write: it fails if and only if the last of these calls does, with what the calls before have taken on the stream; otherwise the stream is the data and one or both bytes of the checksum, as the last call takes them; complete, with even length, it has checksum 0 |
| `Transfer.SendFramed` | task3_making-chat-on-c/prartb_2.c:750-774 | Data and checksum copied into one buffer arrive complete and in order if no write fails, and then have checksum 0 for even lengths |
| `Transfer.AllAccepted` | task3_making-chat-on-c/prartb_2.c:766-774 | Without an error as many calls as there are bytes always suffice |
| `Transfer.CopyOut` | task3_making-chat-on-c/client.c:387-398 | The chunk loop writes the file exactly once, in ceil(length/1024) chunks, also for empty files and multiples of 1024 |
| `Transfer.CopyIn` | task3_making-chat-on-c/server.c:562-565 | The receive loop writes out the stream however reads cut it, and its counter is the length |
| `PipeCopy.RoundTrip` | task3_making-chat-on-c/client.c:387-398 | In every state of client, bounded pipe and server, received bytes, bytes in the pipe, the rest of the chunk and the unread file make up the original file; at the end the received file is identical and the counter is its length |
| `PipeCopy.StepMovesPositions` | task3_making-chat-on-c/client.c:387-398 | Three positions in the file say it all: the client fetches 1024 bytes when all it has is delivered, up to the end, which it notices when fewer come; it delivers any portion the pipe has room for; the server receives any portion of what is delivered, up to 1024 bytes, and sees the end exactly when the client is gone and the pipe empty |
| `PipeCopy.SomeoneCanMove` | task3_making-chat-on-c/client.c:387-398 | Until the server has seen the end of the pipe, client or server can move, for every positive pipe capacity |
| `PipeCopy.CanFinish` | task3_making-chat-on-c/server.c:562-565 | From every state that satisfies this, the copy can be completed within its measure |
| `PipeCopy.RunIsBounded` | task3_making-chat-on-c/client.c:387-398 | No run makes more than 3 times the file length plus 3 steps |

## Left out

- SharedCell.DisciplinedIsTimely: that `sleep(1)` makes the generator wait until the other stages are idle is a matter of timing, which is not modelled.
- SharedCell.SharedIsRightExactly: says nothing about schedules that stop short of the end, whose late instructions may not have shown anything yet.
- StPipeline.NumbersStayInRange: with a cell per number; `SharedNumberStaysInRange` is about the single variable in timely runs. In others the additions of many numbers can pile up on it.
- SharedCell.SharedRefinesPrivate: the memory of a function that has returned is one value that is arbitrary and that later writes change; that it may change at any time makes no difference to timely runs.
- StPipeline.PipelineOutput: with a cell per number; `SharedPipelineOutput` and `SharedOutputExactly` are about the single variable.
- MonitorStage.RunIsSeen: one queue; that the queues of the chain have separate mutexes, so that their micro-steps commute, is not spelled out.
- ActiveObjectResults.SentinelDiscipline: "at most once" in every run, "exactly once" from the moment the thread has ended.
- StageLoop.RunLoop: the stage before is represented by the portions in which the rest of the stream arrives.
- StageLoop.RunPipeline: runs the threads one after the other on full queues; the interleavings are the subject of the step relation. The freed node of `dequeue` is simply no longer reachable.
- StageLoop.Generate: stores each number in a cell of its own; the single variable is the subject of `SharedCell`.
- TaskQueue.Queue.TryDequeue: the blocking wait is modelled in `Monitor` and in the step relation, not in the heap class.
- Reactor.Table.Pass: assumes that the listener never reports an error and that `accept` returns no descriptor in use, in the table or open; `RunKeepsOpen` says when the open ones suffice. Message text, the 256-byte buffers and the prefix "Client socket" are left out: a message is what `recv` delivered.
- Reactor.Table.AddFd: the slot keeps the poll result that happened to be there; nothing is assumed about it, so the pass that accepts a connection may act on it.
- Transfer.SendAll: `write` returns -1 or a positive number; a write that returns 0 for ever would keep the original in its loop.
- Transfer.CopyOut: blocking writes are complete; the error return of the client is left out.
- InternetChecksum.ComputeChecksum: reads words low byte first, as the machines the code is written for do.
- `flag` of stages 2 to 4 is never assigned in the code; it is taken to be 0.
- The second `pthread_join` in `stop`, after the joins in `main`, is taken to return at once.
- Thread creation, `sleep`, `srand` and the arguments of `main`: the generator takes an arbitrary sequence of `rand` values and an arbitrary size. Stage threads exist from the start.
- Signed overflow of the counters and of `fd_size`, allocation failure, and the paths that end in `exit` except that of a failed `send`. The call of a NULL handler is taken to end the program.
- `sqrt` in `isPrime` is floating point; the test is modelled as `i * i <= num`.
- Checksum placement that overwrites the last data word (`task3_making-chat-on-c/prartb_2.c:291`, `task3_making-chat-on-c/prartb_2.c:352`) or swaps the bytes of the appended word (`task3_making-chat-on-c/prartb_2.c:594-595`): the framing property does not hold there.
- Callers that pass a word count as the length (`task3_making-chat-on-c/prartb_2.c:582`, `task3_making-chat-on-c/prartb_2.c:640`, `task3_making-chat-on-c/prartb_2.c:750`) checksum half of their data; the properties are stated for the functions.
- Sockets, `mmap` transfers, address look-up, timing, printing, quiet mode, argument parsing, and the sample programs of the other directories.
