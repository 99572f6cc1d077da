# A verified model of bigmachine

Bigmachine lets a driver program start worker machines, upload itself to them, keep them alive and call
methods on them. This project models the parts of it where goroutines, processes or the network interleave,
and proves what holds in every interleaving. Nothing here executes bigmachine; Dafny checks the model.

Files, one module each:

- `machine.dfy`: the fields a `Machine` guards with its mutex, as a class whose methods are the locked sections.
- `lifecycle.dfy`, `lifecycle_theorems.dfy`, `lifecycle_calls.dfy`: the goroutines that share one machine (its loop, the OOM monitor,
  callers of `Wait` and of `Call`) as a step system over those locked sections, and the theorems over its runs.
- `lease.dfy`: the keepalive lease between the driver's loop and the worker's watchdog, in integer nanoseconds.
- `boot.dfy`: `retryCall`, service registration and the loop up to `Running`.
- `lease_budgets.dfy`, `lease_honoured.dfy`: which keepalive timeouts the lease affords; when a granted lease is kept.
- `client_cache.dfy`: the RPC client's connection handles under concurrent calls.
- `names.dfy`, `rpc.dfy`, `stream.dfy`: one RPC from end to end: its URL, its outcome, its streamed reply.
- `tee.dfy`, `tee_overlap.dfy`, `tee_serial.dfy`: the lossy write multiplexer; what holds however writes overlap,
  and what holds if they do not.
- `registry.dfy`: the table of machines by address.
- `stats.dfy`, `stats_calls.dfy`, `stats_counts.dfy`, `stats_maxima.dfy`: the statistics tree, what a call adds to it,
  its call counts and its maxima.
- `keepalive_times.dfy`, `volumes.dfy`: the ring of keepalive latencies; data volumes of an EC2 instance.
- `wrappers.dfy`: an option type.

A step system has a configuration, labels, `Enabled` and `Apply`; each locked section, each unlocked read and
each channel operation of the source is one label. A run is a sequence of configurations linked by enabled
steps. Theorems are stated over every run, or over every configuration that satisfies the proved invariant.

## Where the code and its comments disagree

The model follows the code.

- machine.go:52-53 says that machine states only increase. The OOM monitor is started before `Running` is
  stored, so a report can be overwritten: `LifecycleTheorems.StateCanFall` is such a run, and
  `LifecycleTheorems.MonotoneExactly` characterises the runs in which the comment is true.
- rpc/client.go:142-147 says that remote errors of kind Net are turned into kind Other. The code wraps every
  remote error in kind Remote instead, which serves the same purpose (`Rpc.NetMeansTransport`).
- internal/tee/writer.go:53-54 says that `Write` is asynchronous. Writes that are under way can come to wait for a
  full slot, and for ever, exactly if two of them are in a sink's callback or one that has taken its buffer meets a full
  slot (`TeeOverlap.BlocksExactly`). That never happens when writes do not overlap (`TeeSerial.NeverBlocks`);
  local.go:93-94 attaches two streams to one multiplexer, and then it can (`TeeOverlap.OverlappingWritesCanBlock`).

Other behaviour that a reader may not expect, each with its exact condition: a cancelled sink can get two more
buffers (`TeeOverlap.AtMostNMore`, `TeeOverlap.TwoAfterCancel`); the bootstrap can go on without having called
`Supervisor.Exec` (`Rpc.BootstrapVerdict`); the instance bound to a service name need not be the one whose `Init`
succeeded (`Boot.RegisterService`, `Boot.BoundNeedNotBeInitialised`); an error that a method returns with its reply
stream set is lost (`Rpc.StreamSetHidesError`, `Rpc.RemoteMeansMethodError`); a dotted service name, a name with a slash or
with a character that URL parsers interpret or reject, and a name of one or two dots do not get through
(`Names.NameRoundTrip`); calls that end at the same time can lose the maximum of a statistic
(`StatsMaxima.OverlapExactly`, `StatsMaxima.OverlapLosesMax`); a stale keepalive handler can shorten a lease that was
granted, and end the worker inside it (`LeaseHonoured.ExitsHonourExactly`, `LeaseHonoured.StaleHandlerKills`); and the
timeouts of the EC2 system, of the dumps of an unhealthy worker and of registering a service before the first keepalive
exceed the lease (`LeaseBudgets.TimeoutsExactly`, `LeaseBudgets.DeployedTimeouts`).

## Assumptions about libraries and the environment

- `retry.Wait` waits at least one second when it succeeds, never past its context's deadline, and fails once its
  context is done or would be done before the wait is over.
- An RPC returns by its context's deadline.
- The watchdog's checks are at most 30 seconds apart: its ticker fires on time, and the memory probe that follows a tick
  takes no time. Only the bounds on when a worker exits rest on this (`Lease.ExitsInTime`, `Lease.AbandonedWorkerDies`).
- A keepalive is accepted only while the retried call that sent it is under way. `LeaseBudgets` rests on this; `Lease` and
  `LeaseHonoured` take acceptances at any time, those of abandoned calls among them.
- `net/url` rejects a URL with an ASCII control character, as it does from Go 1.12 on; the server is mounted on an
  `http.ServeMux`, as in bigmachine.go:160-161, which redirects a request whose path is not clean, and a redirected POST is
  not dispatched.
- Requests to register a service may arrive in any order, also after their replies were given up; those under one name
  all come from the one retried call for it.
- `errors.E(kind, cause)` yields an error of that kind with the cause's severity; `errors.Is` looks at the outermost kind.
- `expvar.Map` operations and the reads and sets of an `expvar.Int` are atomic; `sync.Once` runs its function once.
- `bytes.Buffer.Next(n)` removes at most the buffer's length.
- A gob value either round-trips or fails to decode; a truncated one fails.
- A response body ends in a clean EOF only if it was delivered whole (section 8 of RFC 9112, section 8.1 of RFC 7540).

## Model

| member | source | states |
|---|---|---|
| MachineState.StoreSplitsChans | machine.go:309-321 | A store of a state neither loses nor duplicates a waiter's channel: the list splits into those released and those kept. |
| MachineState.KeptMember | machine.go:314-320 | Exactly the waiters for a higher state stay listed. |
| MachineState.StoreInOrder | machine.go:312-321 | Both parts keep the order of the list. |
| MachineState.Machine.StoreState | machine.go:309-329 | The locked half of setState: the whole new state, the channels to close in list order, the contexts cancelled. |
| MachineState.Machine.StoreError | machine.go:293-296 | The locked half of setError changes the error only. |
| MachineState.Machine.Wait | machine.go:222-232 | Closes the new channel at once exactly if the state is already reached, else lists it. |
| MachineState.Machine.Context | machine.go:536-546 | Registers the canceler exactly if the machine is not stopped. |
| MachineState.Machine.Release | machine.go:547-551 | Forgets the one canceler. |
| Lifecycle.RunInv | machine.go:222-333 | Every configuration of every run satisfies the invariant: phases, one place per channel, waiters above the state, what is known at each point of each Call. |
| Lifecycle.StepInv | machine.go:293-333 | Every step of every goroutine keeps the invariant; in particular each channel stays in exactly one place (listed, about to be closed, closed). |
| LifecycleTheorems.ListedUntilReached | machine.go:222-232 | A channel is listed exactly until the state has been high enough since `Wait` made it. |
| LifecycleTheorems.WaitersServed | machine.go:220-232 | No double close; listed waiters want more than the current state; with no setState under way, closed exactly if the wanted state was reached since registration. |
| LifecycleTheorems.NoLostWakeUp | machine.go:330-332 | The pending closes alone suffice to let every Call that waits for Running go on once the machine is there. |
| LifecycleTheorems.NoMissedCancellation | machine.go:322-328 | Stopped implies an error and no canceler left; a call's context is registered, cancelled or released, and cancelled if the machine stopped before the call returned; no context is cancelled unless the machine has stopped. |
| LifecycleTheorems.CallReports | machine.go:667-692 | At most two passes of the state switch; what the RPC returned is returned unless it is an error of the call's own context; Unavailable always carries a cause; a context error caused by the machine's stop is always reported as Unavailable, also with the OOM monitor racing the loop; a context error is returned only if the caller's own context is done. |
| LifecycleTheorems.CallGoesOn | machine.go:667-692 | In every run a Call has a step exactly unless it has returned, or waits for Running with its channel open and its caller's context not done. |
| LifecycleTheorems.LoopGoesOn | machine.go:335-443 | The loop has a step until it is finished and has closed its channels, the monitor from its start on; the loop may fail whenever it boots or serves. |
| LifecycleCalls.ErrIsLast | machine.go:293-296 | In every run the machine's error is the one of the last failure of the loop or OOM report, whichever was later. |
| LifecycleCalls.CallReturns | machine.go:667-692 | In every run, from its steps: a Call returns what its RPC returned, unless that is an error of its own context and the test that followed found the machine stopped; it is Unavailable exactly then or if the state switch found the machine stopped, with the error stored last when the call read it; it gives up only with its caller's context done. |
| LifecycleCalls.CallSent | machine.go:669-690 | In every run a Call waits only if a pass of its state switch found the machine below Running, and makes its RPC only if one found it Running. |
| LifecycleTheorems.OnlyDecrease | machine.go:432-443 | The one step that can lower the state is the store of Running over Stopped. |
| LifecycleTheorems.MonotoneOnceServed | machine.go:443 | From the store of Running on the state never falls, so Stopped is permanent. |
| LifecycleTheorems.RunningIsFloor | machine.go:335-443 | Once at Running or above, the state never falls below Running, in any run. |
| LifecycleTheorems.MonotoneExactly | machine.go:502-526 | A run's states never fall exactly if no OOM report is stored before the loop stores Running. |
| LifecycleTheorems.StateCanFall | machine.go:439-443 | A run in which the state falls from Stopped to Running. |
| Lease.Drive | machine.go:445-496 | The keepalive loop: the first acceptance at the given time, each next one after latency, pause and gap of the one before, where the pause lasts until half of the smaller of reply.Next and the period is over and, only if the worker is unhealthy, the dumps are; each asks for 5 minutes and has the clock reading and reply time of its own turn. |
| Lease.PauseIs | machine.go:464-490 | The pause is no shorter than the dumps, twice it plus the rounding reaches reply.Next or the period, and unless it is the dumps' it exceeds neither. |
| Lease.Watchdog | supervisor.go:409-426 | Exits at the first check strictly after the current deadline, and only then. |
| Lease.DeadlineIsLast | supervisor.go:413-419 | The current deadline is start plus 2 minutes or the last one received, unconditionally. |
| Lease.LeaseSafety | machine.go:445-496 | If the first acceptance falls into the initial lease and latency, pause and gap stay within reply.Next after each, no run reaches a watchdog exit, leases that shrink included. |
| Lease.LeaseExactly | supervisor.go:331-347 | For a chain of acceptances that condition is necessary too: all histories of checks around it survive exactly if it holds. |
| Lease.ExitsInTime | supervisor.go:416-426 | After its last acceptance a worker exits strictly after the deadline and within one 30s tick of it. |
| Lease.AbandonedWorkerDies | supervisor.go:409-426 | A worker whose driver gave up dies within 5m30s of the last accepted keepalive of the loop. |
| Lease.BudgetExactly | machine.go:464-488 | All keepalives within given bounds, with lost replies among them, are prompt exactly if what handler, latency and gap leave of the lease covers the dumps, and twice that, plus the rounding, covers the period or what the handler leaves of the lease. |
| Lease.DeploymentExactly | machine.go:445-496 | Composed: a deployment with those bounds, its first keepalive in the initial lease, never loses a worker to its watchdog, over all chains of acceptances and all histories of checks, exactly under that condition; also if only histories with checks at multiples of 30s after the start are taken. |
| Boot.RetryCall | machine.go:630-658 | Ends by start + overall + rpc timeout after at most overall/1s + 1 attempts; stops at the first attempt that succeeds, fails fatally or whose wait is cut short or would end too late; succeeds exactly if that one does; ends when that one returns, or within the overall timeout if a wait is cut short. |
| Boot.AttemptsSpaced | machine.go:630-658 | An attempt begins only after those before it have returned, and at least a second after each. |
| Boot.Server.Register | rpc/server.go:162-179 | A bound name keeps its instance; a new one is bound; the table always holds the first registration to arrive under each name. |
| Boot.RegisterService | supervisor.go:122-127 | For every order of arrival: with success the name is bound, a new binding is the instance of the first attempt to arrive, and it is the successful attempt's exactly if no other attempt's request arrived before that one's; no other binding changes, within 5m25s. |
| Boot.BoundNeedNotBeInitialised | supervisor.go:122-127 | A server on which a registration succeeds with its second attempt while the instance of the first, whose Init failed, is what is bound. |
| Boot.BringUp | machine.go:397-443 | For every ping and all registrations: a NoExec owner makes the retried calls in turn, each only after the one before has succeeded and when it has, and is Running exactly if all were made and the last succeeded, else Stopped; Running only with every service bound; within 12 minutes plus 5m25s per service. |
| LeaseBudgets.TimeoutsExactly | machine.go:445-496 | For all periods, timeouts, RPC timeouts, dump times and bounds on when the first keepalive comes, with lost replies, and keepalives accepted while their retried call is under way: a driver never loses a worker to its watchdog, over all chains of keepalives and all histories of checks, exactly if the first falls into the initial lease and what the overall and twice the RPC timeout leave of 5 minutes covers the dumps, and twice that, plus the rounding, the period or 5 minutes; that is as necessary with a ticker that is on time. |
| LeaseBudgets.DeployedTimeouts | local.go:195-200 | The local system's timeouts keep healthy workers alive whose first keepalive falls into the initial lease; not if registering a service before it takes the time it is allowed; not with the dumps of an unhealthy worker; the EC2 system's (ec2system/ec2machine.go:1083-1088) never do. |
| LeaseHonoured.HonouredExactly | supervisor.go:331-347 | For a chain of acceptances, late handlers among them: no check in any history finds the lease expired before every deadline received so far has passed, exactly if each acceptance leaves every earlier deadline where it was or later, or is prompt, or comes after it. |
| LeaseHonoured.ExitsHonourExactly | supervisor.go:416-426 | The same for the check at which the watchdog exits: exactly if this holds of each acceptance that no deadline already past keeps the worker from reaching. |
| LeaseHonoured.StaleHandlerKills | supervisor.go:338-341 | A history in which a late handler shortens a lease and the worker exits inside the longer one. |
| ClientCache.Client.GetClient | rpc/client.go:83-95 | Returns the current handle of the address or installs a new one; the whole new table. |
| ClientCache.Client.UpdateClientState | rpc/client.go:98-109 | The whole new table: evicts exactly a failed current handle, closes idle connections exactly on a defunct one. |
| ClientCache.DefunctForever | rpc/client.go:83-109 | A handle that is not current never is again and is never handed out. |
| ClientCache.FailedNeverReissued | rpc/client.go:97-109 | From the deferred update of a call that ended in error on, its handle is never handed out again; between the end of the call and its update it still can be. |
| ClientCache.EvictedOnlyByOwnFailure | rpc/client.go:101-104 | An address keeps its handle over a step exactly unless the step is the update of a failed call on that very handle. |
| ClientCache.HandlesAccounted | rpc/client.go:50-57 | One handle per address; the factory ran once if a call has posted on the handle and otherwise not at all; every defunct handle had idle connections closed at or after the end of each finished call on it. |
| ClientCache.IdleClosedExactly | rpc/client.go:105-108 | In every run a handle's idle connections are closed by exactly the updates of its own calls after which it is not current. |
| ClientCache.GetsCurrent | rpc/client.go:83-95 | The handle that a call gets is that of its address and current at that moment. |
| ClientCache.CallGoesOn | rpc/client.go:197-208 | A call that is not over has a step. |
| Names.NameRoundTrip | rpc/client.go:157 | For every plain, clean address path and slash-terminated prefix and all names, the server parses back the client's pair exactly if the service name has no dot, neither name has a slash, a `?`, a `#`, a `%` or a control character, and the two joined are not `.` or `..`. |
| Names.SplitJoin | rpc/server.go:191-196 | Splitting at the first dot undoes joining exactly if the left part has none. |
| Names.UnescapeDigits | rpc/client.go:157 | Decoding undoes percent-encoding, for all bytes and digits of either case. |
| Names.EscapeExactly | rpc/client.go:157 | Only two hexadecimal digits make an escape. |
| Names.TidyMeans | bigmachine.go:160-161 | A path is left alone by the mux exactly if no element is one or two dots and none but the last is empty. |
| Rpc.Dispatched | rpc/server.go:185-240 | The server dispatches the method the client named, and runs it exactly if it is known and the argument decodes. |
| Rpc.StatusMeans | rpc/server.go:185-315 | Every status of a response says exactly one thing: 405 no POST, 404 an unknown name, 400 no name or an undecodable argument, 590 a method error or panic, 500 a result that could not be encoded, 200 the rest; the body is a stream exactly if the method set one. |
| Rpc.NilMeansDone | rpc/client.go:201-259 | A value-reply call returns nil exactly if the method ran, returned no error and did not panic, and its reply was encoded, written and decoded. |
| Rpc.StreamMeansDone | rpc/client.go:212-220 | The same for stream replies. |
| Rpc.RemoteMeansMethodError | rpc/client.go:289-295 | Kind Remote exactly for every method error and panic that came through without a stream set; it carries the method's error and its severity, or a fatal one after a panic. |
| Rpc.NetMeansTransport | rpc/client.go:201-208 | Kind Net exactly for transport failures. |
| Rpc.RejectedMeansFatal | rpc/client.go:251-257 | A fatal Invalid error exactly for unencodable arguments and, of the answered calls, the undispatchable, undecodable and those whose result could not be encoded. |
| Rpc.GarbledMeansTemporary | rpc/client.go:289-293 | A temporary Invalid error exactly for answered calls whose method ran and whose error, or encoded value, did not come through. |
| Rpc.ContextMeansContext | rpc/client.go:201-208 | A context error exactly if the context ended the transport; every outcome is one of these kinds. |
| Rpc.StreamSetHidesError | rpc/server.go:275-299 | A method error or panic with the stream set arrives as a temporary Invalid error. |
| Rpc.ExecStops | machine.go:556-600 | exec's result is that of the last call it makes, or the local failure that kept it from the next, fatal for a missing image; whether Supervisor.Exec was called. |
| Rpc.BootstrapVerdict | machine.go:385-393 | The bootstrap goes on exactly on full success or a first failure in transport, never on a remote method's error; without Supervisor.Exec having been called exactly if an earlier call failed in transport. |
| Stream.CopyOut | rpc/server.go:275-299 | If a write fails, the chunks before it are sent and the trailer is its message; otherwise all that the method produced, with the message of the reader's error or an empty one. |
| Stream.FlattenJoins | rpc/server.go:290-297 | What is sent is the chunks one after another. |
| Stream.StreamReader.Read | rpc/client.go:265-274 | Hands on the body's bytes, at least one while there are any; at its end reports a clean EOF exactly if the body is whole and the trailer empty. |
| Stream.ReadAll | rpc/client.go:265-274 | The same for any split into reads; more reads than bytes get to the end. |
| Stream.Transfer | rpc/server.go:275-299 | End to end, over where writing fails and how the reader ends: the client gets all of what was sent that arrives; the end of a whole body is clean exactly if the trailer is missing or that message empty, else an error with it; that of a cut one never is; more reads than bytes reach it. |
| Tee.FilledKeepsNewest | internal/tee/writer.go:64-68 | Keeps the newest bytes, drops none without need, at most max(512 KiB, the write). |
| Tee.NextKeeps | internal/tee/writer.go:57-69 | After a write the slot holds the newest of the bytes it held and of the write: all of the write, and as many others as 512 KiB have room for. |
| Tee.Sink.Write | internal/tee/writer.go:55-71 | For writes that follow one another, the slot is what `Tee.NextKeeps` says. |
| Tee.WriteAll | internal/tee/writer.go:55-73 | The same for every sink; the length written is returned. |
| TeeOverlap.OneOwner | internal/tee/writer.go:42-69 | In every run, overlapping or not: slot, writers and consumer hold pairwise different buffers, no buffer is taken twice, and none of the slot's or the writers' was ever taken. |
| TeeOverlap.AtMostNMore | internal/tee/writer.go:31-49 | After cancel, however writes overlap, every continuation gives the consumer at most n more buffers exactly if slot and writes under way are no more than n, or the consumer has stopped. |
| TeeOverlap.TwoAfterCancel | internal/tee/writer.go:31-49 | A run with serialised writes in which a cancelled sink gets two more buffers. |
| TeeOverlap.BlocksExactly | internal/tee/writer.go:55-73 | From every configuration the writes under way can come to wait for a full slot, and can come to wait for ever, exactly if two are in the callback or one past its take meets a full slot. |
| TeeOverlap.StuckForever | internal/tee/writer.go:69 | A writer that waits for a full slot of a stopped sink waits in every continuation. |
| TeeOverlap.OverlappingWritesCanBlock | internal/tee/writer.go:55-73 | For all bytes written, two overlapping writes and a cancellation reach that from the start. |
| TeeOverlap.DetachedExactly | internal/tee/writer.go:21-51 | In every run a sink takes no new write exactly once it was cancelled or a copy to it failed; its consumer stops only then. |
| TeeOverlap.StepsExactly | internal/tee/writer.go:37-71 | A write has a step unless it waits for a full slot, the consumer if it copies or there is a buffer or a cancellation; a copy may fail after any number of bytes. |
| TeeSerial.NeverBlocks | internal/tee/writer.go:55-73 | With serialised writes no run gets to where a write can come to wait; a full slot means that no write has taken its buffer. |
| TeeSerial.SlotIsSuffix | internal/tee/writer.go:64-69 | With serialised writes the slot is a suffix of everything written, within the limit. |
| TeeSerial.EveryByteAccounted | internal/tee/writer.go:55-73 | With serialised writes every byte written is in exactly one place: buffered, taken by the consumer, or discarded on overflow. |
| TeeSerial.LossExactly | internal/tee/writer.go:64-68 | A write discards bytes exactly if it overflows a buffer that holds some, and what is left then fills the buffer. |
| TeeSerial.DeliveredInOrder | internal/tee/writer.go:37-49 | With serialised writes the sink gets disjoint intervals of the stream in order, each adjacent to the one before but for discarded bytes; all are whole unless a copy failed, and then only the last is cut short. |
| Registry.B.Dial | bigmachine.go:173-194 | Returns the entry, making it with one cleanup if there was none; never replaces one. |
| Registry.B.Start | bigmachine.go:233-256 | The whole new table: the machines before the first without services are inserted; ok exactly if there is none. |
| Registry.B.RunCleanup | bigmachine.go:184-190 | Deletes by address. |
| Registry.StartKeepsExactly | bigmachine.go:243-254 | A Start keeps the accounting exactly if it overwrites no dialled machine. |
| Registry.EntriesAccounted | bigmachine.go:173-194 | Over every interleaving with such Starts each entry is owned, or dialled with exactly one cleanup pending. |
| Registry.EntryChanges | bigmachine.go:173-256 | An entry goes away exactly by the cleanup of its own machine and is replaced only by a Start over an owned one. |
| Registry.CleanupCanRemoveOther | bigmachine.go:184-190 | Without the hypothesis a cleanup removes another machine. |
| Stats.CallsArePrograms | rpc/stats.go:64-91 | What Start and the function it returns do, for every address, method, time, size and outcome, reads a maximum only after creating its counter and adds nothing else to it. |
| StatsCalls.StartAdds | rpc/stats.go:65-68 | Start adds one to the count of the method, and of the machine's method if there is an address, and nothing else. |
| StatsCalls.DoneAdds | rpc/stats.go:70-90 | For all inputs, under every path and name: the time, the request and reply sizes if known, one error if the call failed, and nothing else. |
| StatsCalls.DoneRecords | rpc/stats.go:70-90 | For all inputs: the maxima recorded are the time, and the request and reply sizes if known, under their names. |
| Stats.TreeRefinesFlatMap | rpc/stats.go:27-51 | In every interleaving, the sets of maxima among it, one node per path and no lost increment: each counter that is no maximum is the sum of what was added under its path. |
| Stats.WalkGoesOn | rpc/stats.go:37-51 | No goroutine is ever stuck in Path or max. |
| StatsCounts.DoneCountsNothing | rpc/stats.go:70-90 | Whatever its outcome, what is recorded when a call is done touches no count, so that the next row covers the source's programs. |
| StatsCounts.CountsAgree | rpc/stats.go:64-68 | A method's count is the sum of its per-machine counts and the number of Starts between their two additions. |
| StatsMaxima.MaxRecIsMax | rpc/stats.go:93-101 | The largest recorded value bounds all recorded ones and is 0 or one of them. |
| StatsMaxima.MaxWhenSerial | rpc/stats.go:93-101 | In every run in which no goroutine reads a maximum while another is about to set it, the counter holds the largest recorded value once no set is outstanding. |
| StatsMaxima.MaxIsRecorded | rpc/stats.go:93-101 | In every run a maximum is 0 or a recorded value, and never above the largest. |
| StatsMaxima.OverlapExactly | rpc/stats.go:96-99 | From every reachable configuration, whatever else runs meanwhile: every order of the outstanding sets leaves the maximum of the counter and their values exactly if each of them sets that maximum. |
| StatsMaxima.OverlapLosesMax | rpc/stats.go:70-100 | For all times v < w: a run of two calls that end together and leave v although w was recorded. |
| KeepaliveTimes.ReplyTimes.Record | machine.go:459-463 | Appends to the history that the ring stands for. |
| KeepaliveTimes.ReplyTimes.Recent | machine.go:179-191 | The last min(count, 10) latencies: entry i is the one i before the newest of the full history. |
| Volumes.SlicesCover | ec2system/ec2machine.go:654-663 | Up to 8375: the fewest volumes of 335 that hold the data space; above: 25 of the largest equal size that does not exceed it. |
| Volumes.Attached | ec2system/ec2machine.go:415-429 | The attached names are distinct, with letters b to z. |
| Volumes.Formatted | ec2system/ec2machine.go:688-737 | The names formatted on a non-NVMe instance. |
| Volumes.FormattedIsAttached | ec2system/ec2machine.go:688-737 | They are exactly the attached devices. |

## Left out

- The worker's health probe and its period: health is an input of `Lease.Drive`.
- The watchdog's return when its context is done: a history of wake-ups simply ends.
- The tree of statistics and the goroutines' shared configurations are values that steps replace, so aliasing between Go objects is not modelled; the locked sections of `Machine`, `Client` and `B` are also given as classes.
- Timing of the exec path: uploading the binary has no timeout, so no bound holds for machines that exec.
- Names.NameRoundTrip: takes addresses and prefixes without `?`, `#`, `%` and control characters and with a clean path, because otherwise no name gets through as named, or what the server finds depends on the address alone.
- StatsMaxima.MaxWhenSerial: takes completions on a counter that follow one another, because overlapping ones can lose the maximum; `StatsMaxima.OverlapExactly` says when.
- StatsCounts.CountsAgree: takes Starts with an address, because a call without one is counted under its method only.
- TeeSerial.SlotIsSuffix: takes serialised writes, as do `TeeSerial.EveryByteAccounted`, `TeeSerial.LossExactly` and `TeeSerial.DeliveredInOrder`: with two writes in the callback the buffers hold interleaved parts of what was written.
- Registry.EntriesAccounted: takes Starts that do not reuse the address of a dialled machine, because the source relies on it (`Registry.StartKeepsExactly`).
- The order in which `Write` visits several sinks while sinks are attached and detached: each sink is modelled by itself.
- NVMe device names, root volumes and the rest of instance configuration.
- Method discovery by reflection, gob itself, TLS, certificates, SSH and AWS calls.
- HTTP pages, profiles, expvar publication, logging, log tailing and event emission.
- The exported `Machine.RetryCall`, `B.Shutdown`, `B.Machines`, fault injection, command-line tools and test systems: thin wrappers around what is modelled.
