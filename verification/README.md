# xray-speedlimit: a verified model

xray-speedlimit limits each user's bandwidth. A user's email hashes to a mark; a webhook writes that
mark onto the user's conntrack entry and queues the mark for a background worker, which creates the
mark's HTB class; a collector deletes classes that stay idle; and startup builds the kernel layout or
adopts the one an earlier process left. This project models those parts in Dafny and proves what they
keep, with the kernel as explicit state: a map of classes, a list of qdiscs and filters, and a conntrack
table. Every kernel command either succeeds or fails without effect, and nothing else touches the user
classes during a run.

- `Marks`: from hash sums to marks. Two sums share a mark exactly when they agree modulo Q * 65534, and
  marks and queues are hit evenly.
- `Protocol`, `Runs`, `Service`: provisioning as a concurrent protocol. `Protocol` is the state machine
  of handlers, worker, API callers and collector over the queued flags, the bounded channel, the store's
  lock, its record and the kernel, with its inductive invariant. `Runs` proves what holds over whole
  runs. `Service` is the code itself, written over the fields it shares; between any two atomic points it
  lets the others run, and all it may assume of them is that they ran the protocol. `Witnesses` gives
  runs from startup to the states in which natural claims fail.
- `IdleCollector`, `IdleTiming`: the collector's small map decides as if it remembered every look, and
  what its decisions mean for the traffic of a class.
- `RecentMarks`, `Users`, `Webhook`: the cache of marked connections against the history of all adds, the
  email table, and the webhook handler, which calls these, the store and the marker, with every other
  handler free to run in between.
- `Hex`, `Classes`, `Qdiscs`, `Steering`, `Interface`: class ids and listings, the two recognisers, the
  device and its commands, and the path of a packet over the layout they build.
- `Exchange`, `SocketPool`, `Conntrack`: a batch of updates and its unordered, noisy replies; the pool of
  sockets under any interleaving of calls; and what `SetMark` does to a table that others change too.
- `Startup`: from a device in any state to one that is set up, the rate bound, and the adoption that gives
  the protocol its first state.
- `EndToEnd`: the protocol's tc steps taken on the device, down to the class a queued user's packets reach.
- `Options`, `Counting`: small helpers.

## What does not hold

Some natural claims are false of this code. Each has its exact condition here, and an input for which it
fails.

- A rate set by hand can be overwritten by the worker. It survives every run without another call for
  that mark exactly when no provisioning of the mark was pending when it was set
  (`Runs.HandSetRateSurvivesIff`); `Witnesses.PutIsOverwritten` is a run in which it does not.
- `Set` can run twice for a mark. A mark that has a rate can come back into the channel exactly when some
  handler found no rate before the rate was recorded (`Runs.RequeuedIff`); the repeat changes nothing
  (`Runs.StepKeepsProvisioning`). `Witnesses.SetRunsTwice` is such a run.
- `Get` can report a mark whose class is gone, exactly while a Delete of that mark is between its tc
  command and the record (`Runs.GetMeansClassIff`); `Witnesses.GetWithoutClass` is a run to that point.
- Not every unfinished build is rejected on restart. From the moment the last queue's HTB is there the
  layout is accepted, so the two prefixes that lack only that queue's default class or classifier are
  taken for finished (`Interface.UnfinishedAcceptedIff`).
- The cache of marked connections is not exact when clock readings overtake each other. It is exact
  from a given moment on if and only if every overtaken add has expired (`RecentMarks.ExactIff`,
  `RecentMarks.MissesOvertaken`).
- A collected class need not have been silent for the whole idle period before its listing: the clock is
  read after listing. The guarantee holds exactly when listing takes no time (`IdleTiming.SilentForIdleIff`,
  `IdleTiming.SlowListing`), and otherwise falls short by at most the time it took
  (`IdleTiming.TriedMeansSilent`).
- `layoutMatches` decides by counting, and not every listing it accepts shows the layout
  (`Qdiscs.CanonicalIsNeeded`). An accepted listing does exactly when its HTB handles are distinct and
  printed the way tc prints them, and a listing of the layout is accepted exactly when they are distinct
  (`Qdiscs.CountingIsRightIff`).

## Model

| member | source | states |
|---|---|---|
| `Marks.SplitJoin` | internal/mark/mark.go:40-51 | Split takes apart what Join put together, Join puts together what Split took apart, and Split accepts exactly majors 1..queues with minors from 2 |
| `Marks.UserMarkIff` | internal/mark/mark.go:13-24 | the user marks of a queue are its 65534 minors 2 to 0xffff |
| `Marks.ForIs` | internal/mark/mark.go:29-37 | the mark of a sum in numbers: queue sum % queues + 1, minor 2 + (sum / queues) % 65534 |
| `Marks.JoinBits` | internal/mark/mark.go:40-42 | bit by bit, Join is major << 16 or minor |
| `Marks.MaskedIs` | internal/mark/mark.go:20-21 | bit by bit, the steering mask keeps of a mark its queue field, in its place, and nothing else |
| `Marks.WithinIff` | internal/tcshape/tcshape.go:306-306 | a value has no bit outside the mask exactly when it is a queue field in its place |
| `Marks.ForIsResidue` | internal/mark/mark.go:29-37 | every sum's mark is one Split accepts, and it stands for the sum's residue modulo queues * 65534 |
| `Marks.ResidueIsOnto` | internal/mark/mark.go:29-51 | every mark Split accepts is the mark of some in-range residue |
| `Marks.ResiduesAndMarksBijection` | internal/mark/mark.go:29-51 | residues below queues * 65534 and user marks correspond one to one, for every queue count |
| `Marks.SameMarkIff` | internal/mark/mark.go:29-37 | two emails share a mark if and only if their sums agree modulo queues * 65534 |
| `Marks.CountOfMark` | internal/mark/mark.go:29-37 | exactly how many of the 2^64 sums have a given mark |
| `Marks.MarksAreEven` | internal/mark/mark.go:29-37 | over all 64-bit sums, any two marks get equally many sums, give or take one |
| `Marks.QueuesAreEven` | internal/mark/mark.go:34-36 | over all 64-bit sums, any two TX queues get equally many sums, give or take one |
| `Protocol.StepKeepsLock` | internal/tcshape/store.go:41-61 | every step of anyone keeps the lock with exactly the goroutine that is inside Set or Delete |
| `Protocol.StepKeepsAgreement` | internal/tcshape/store.go:41-61 | every step, failing tc included, keeps record and kernel in agreement on all marks but the one between tc and record |
| `Protocol.LoadOrStoreKeepsFlags` | internal/webhook/webhook.go:103-105 | the handler that sets a flag becomes its only owner |
| `Protocol.TrySendKeepsFlags` | internal/webhook/webhook.go:106-108 | a successful send passes the flag's ownership from the handler to the channel |
| `Protocol.UndoKeepsFlags` | internal/webhook/webhook.go:108-110 | a handler that finds the channel full clears the flag it owns and no other's |
| `Protocol.WorkerKeepsFlags` | internal/webhook/webhook.go:115-122 | the worker takes ownership from the channel and gives it up only after Set returned |
| `Protocol.StepKeepsInv` | internal/webhook/webhook.go:99-122 | one step of any goroutine keeps the whole invariant: shape, flags, lock and agreement |
| `Runs.StoreMatchesKernel` | internal/tcshape/store.go:17-61 | in every reachable state each recorded rate is that of an existing class when the lock is free, and they differ only at the mark being changed when it is held; only user marks are recorded; classes without a record were left unadopted |
| `Runs.FlagsNeverLeak` | internal/webhook/webhook.go:58-122 | in every reachable state the flags are the disjoint union of channel, worker's mark and handlers' marks; the channel holds no mark twice and keeps to its capacity |
| `Runs.RunKeepsInv` | internal/webhook/webhook.go:99-122 | every run of every interleaving keeps the invariant |
| `Runs.WebhookQueues` | internal/webhook/webhook.go:93-111 | a webhook nobody interrupts queues a mark with no rate and no owner unless the channel is full, and otherwise leaves the whole state as it was; `Service.Service.QueueProvision` covers interrupted ones |
| `Runs.GetMeansClassIff` | internal/tcshape/store.go:53-67 | a mark Get reports has a class, except exactly while a Delete of it is between tc and the record |
| `Runs.StepDoesWork` | internal/webhook/webhook.go:99-122 | every step that starts nothing new lowers the measure |
| `Runs.NoDeadlock` | internal/webhook/webhook.go:99-122 | while there is work, some step that does it can be taken |
| `Runs.WorkDrains` | internal/webhook/webhook.go:99-122 | once webhooks and calls stop, every run ends within the measure's number of steps, and can end only with channel, flags and lock all clear |
| `Runs.StepKeepsProvisioning` | internal/webhook/webhook.go:113-122 | a queued mark stays queued until it has the per-user rate, and a provisioned one keeps it through repeated Sets |
| `Runs.RunKeepsProvisioning` | internal/webhook/webhook.go:113-122 | the same over whole runs in which no worker Set fails and no other call for the mark is made |
| `Runs.QueuedMarksAreProvisioned` | internal/webhook/webhook.go:113-122 | every mark queued at the start ends a drained run with the per-user rate in both store and kernel |
| `Runs.RunKeepsRate` | internal/webhook/webhook.go:99-122 | with nothing pending for a mark, its recorded rate stays over every run without a call for it |
| `Runs.Settle` | internal/webhook/webhook.go:115-122 | lock holder and worker alone can always empty the channel while the handlers stay where they are |
| `Runs.PendingCanOverwrite` | internal/webhook/webhook.go:99-122 | wherever provisioning of a mark is pending, some run without new calls sets its rate to the per-user one |
| `Runs.HandSetRateSurvivesIff` | internal/webhook/webhook.go:99-122 | a hand-set rate survives every run without another call for it if and only if no provisioning of the mark was pending |
| `Runs.RequeuedIff` | internal/webhook/webhook.go:99-111 | a mark that has a rate can be queued again, with no new call for it, if and only if a handler holds a stale Get |
| `Witnesses.PutIsOverwritten` | internal/webhook/webhook.go:99-122 | from every startup, a run: a webhook queues the mark, a PUT sets another rate, and without any further call the worker overwrites it |
| `Witnesses.SetRunsTwice` | internal/webhook/webhook.go:99-122 | from every startup, a run: a handler finds no rate, another webhook gets the mark provisioned, and the first brings it to the worker a second time, which changes nothing |
| `Witnesses.GetWithoutClass` | internal/tcshape/store.go:53-67 | from every startup, a run to a state in which Get answers true for a mark that has no class |
| `Service.OthersKeepOut` | internal/tcshape/store.go:18-22 | no run of the others moves a goroutine or receives for the worker, nor changes record or kernel while it holds the lock |
| `Service.Service.constructor` | internal/tcshape/store.go:31-36 | the process starts in an initial state of the protocol, with the classes not recorded as the unadopted ones |
| `Service.Service.Interfere` | internal/webhook/webhook.go:99-122 | anyone else may run for any time, and the caller learns only that some run of the protocol without it happened |
| `Service.Service.Yield` | internal/webhook/webhook.go:99-122 | what still holds after others ran, derived from that alone |
| `Service.Service.AwaitUnlocked` | internal/tcshape/store.go:42-43 | any run of the others may go by while waiting, and whoever holds the lock then gets to the end of its call, whatever tc answers |
| `Service.Service.RunTc` | internal/tcshape/tcshape.go:320-344 | one tc command under the lock, on a user mark's class only; a failure leaves the kernel as it was |
| `Service.Service.Change` | internal/tcshape/store.go:41-61 | kernel first, record only after success, both in one locked section |
| `Service.Service.Set` | internal/tcshape/store.go:41-49 | from the state in which the lock was taken, kernel and record both get the rate, or neither changes |
| `Service.Service.Delete` | internal/tcshape/store.go:53-61 | from the state in which the lock was taken, class and record both go, or neither does; a value that is no user mark touches no class |
| `Service.Service.Get` | internal/tcshape/store.go:63-67 | an unlocked read of the record at one moment |
| `Service.Service.LoadOrStore` | internal/webhook/webhook.go:103-105 | reports whether the flag was set in the state in which it was looked up, and adds exactly this flag to that state's |
| `Service.Service.TrySend` | internal/webhook/webhook.go:106-110 | sends exactly if there was room at that moment, by appending the mark, and otherwise leaves the channel alone |
| `Service.Service.Undo` | internal/webhook/webhook.go:109 | clears exactly the caller's flag, which was set, and no other |
| `Service.Service.QueueProvision` | internal/webhook/webhook.go:99-111 | under any interleaving: the mark had a rate when Get looked, or a flag when LoadOrStore looked, or was appended to a channel with room, or the channel was full and the flag is clear |
| `Service.Service.Receive` | internal/webhook/webhook.go:116 | the head of the channel, a user mark, moves to the worker |
| `Service.Service.ClearFlag` | internal/webhook/webhook.go:120 | clears exactly the worker's flag, which was set and whose mark is nowhere in the channel |
| `Service.Service.ProvisionNext` | internal/webhook/webhook.go:116-121 | the mark at the head is set under all interleavings, has the per-user rate in both places when its Set returns without error, and only then loses its flag; the rest of the channel keeps its order |
| `Service.Service.ProvisionLoop` | internal/webhook/webhook.go:115-122 | marks are received first in, first out, none lost, as many as rounds or waiting marks allow, and each whose tc succeeds is provisioned in the state in which its Set returned |
| `Startup.PerUserRate` | cmd/xray-speedlimit/main.go:109-121 | the rate is accepted exactly when the true product fits 32 bits, with no wrap-around at 64 |
| `Startup.RateIsInBytes` | cmd/xray-speedlimit/main.go:111-120 | accepted up to 34359 Mbit, and 8 times the rate is the asked number of bits |
| `Startup.ListedIsInKernel` | internal/tcshape/tcshape.go:365-399 | every user class a listing of the device shows is in the kernel, at a rate whose 32-bit cap is the one listed |
| `Startup.KernelIsListed` | internal/tcshape/tcshape.go:365-399 | every user class of the device is listed |
| `Startup.Adopt` | cmd/xray-speedlimit/main.go:133-140 | the store takes over every listed class at the per-user rate, or all if there is none, and no other |
| `Startup.AdoptedByTrueRate` | cmd/xray-speedlimit/main.go:123-140 | adoption goes by the kernel's true rates: the cap never makes another rate look like the per-user one |
| `Startup.AdoptAll` | cmd/xray-speedlimit/main.go:123-141 | the store starts with exactly the classes found at the per-user rate, or all if there is none, and the protocol in an initial state |
| `Startup.Start` | cmd/xray-speedlimit/main.go:95-145 | refused settings, a failed setup or a failed listing give no service; otherwise the device is set up, accepted layouts keep their classes, and the service's kernel is the device's user classes |
| `IdleCollector.StreakIsUnique` | internal/tcshape/gc.go:74-78 | a class has at most one longest suffix of looks with its count |
| `IdleCollector.StreakAfter` | internal/tcshape/gc.go:74-78 | a look with the same count continues a streak, any other starts one |
| `IdleCollector.IdleByEntry` | internal/tcshape/gc.go:74-81 | the map's entry decides idleness exactly as the whole history of looks does |
| `IdleCollector.LookIsRecorded` | internal/tcshape/gc.go:72-93 | one look keeps the map equal to what the history calls for, and tries exactly the idle classes |
| `IdleCollector.IdleCollector.constructor` | internal/tcshape/gc.go:46-58 | a new collector remembers nothing, so every class gets a fresh idle period |
| `IdleCollector.IdleCollector.Visit` | internal/tcshape/gc.go:72-88 | Delete is tried exactly when the count is unchanged for idle; only this class's entry can change |
| `IdleCollector.IdleCollector.Prune` | internal/tcshape/gc.go:89-93 | exactly the entries of classes no longer listed go |
| `IdleCollector.IdleCollector.VisitAll` | internal/tcshape/gc.go:70-88 | each listed class is decided by the map as it was before the look |
| `IdleCollector.IdleCollector.Collect` | internal/tcshape/gc.go:62-97 | after any run of looks the map holds exactly the undeleted classes of the last one with count and streak start; every look tried exactly the idle ones; a failed listing changes nothing |
| `IdleTiming.TriedMeansSilent` | internal/tcshape/gc.go:69-82 | a class tried for deletion sent nothing from idle before the clock reading until its listing, also when its mark had other classes before |
| `IdleTiming.StreakIsWithinLife` | internal/tcshape/gc.go:74-82 | a streak never reaches back to an earlier class of the same mark |
| `IdleTiming.SilentForIdleIff` | internal/tcshape/gc.go:63-82 | a whole idle period of silence before every listing that leads to a deletion is guaranteed if and only if listing takes no time |
| `IdleTiming.SteadyIsTried` | internal/tcshape/gc.go:74-82 | a class that shows one count, undeleted, for idle is tried |
| `IdleTiming.TriedInTime` | internal/tcshape/gc.go:69-88 | with looks at most g apart, a class whose counter stops at T, and which only a successful deletion ends, is tried between T and T + idle + 2g, plus the time one look takes |
| `IdleTiming.TicksAreApart` | cmd/xray-speedlimit/main.go:236-240 | looks are a quarter of idle apart, but never less than one minute nor more than ten |
| `IdleTiming.ScheduledInTime` | cmd/xray-speedlimit/main.go:157-167 | on the ticks run schedules, the class is tried within its idle period after it stopped sending, plus two minutes for idle under four, else plus half of idle and never over twenty minutes, plus three times what a look may take |
| `RecentMarks.FoundMeansAdded` | internal/webhook/recent.go:34-43 | a hit always has a recorded add younger than ttl behind it, in whatever order the clocks were read |
| `RecentMarks.SweepIsInvisible` | internal/webhook/recent.go:34-64 | with a clock not behind any add, a hit is exactly that the last add is younger than ttl, whatever was swept |
| `RecentMarks.ExactInOrder` | internal/webhook/recent.go:34-64 | with readings in lock order, a hit is exactly that some add is younger than ttl |
| `RecentMarks.ExactIff` | internal/webhook/recent.go:38-52 | in any order of readings, the cache is exact from now on if and only if every overtaken add has expired |
| `RecentMarks.CacheIsSmall` | internal/webhook/recent.go:47-63 | every entry is younger than 2 * ttl and there are no more than connections added in the last 2 * ttl |
| `RecentMarks.AddRemembers` | internal/webhook/recent.go:54-62 | an add, swept or not, keeps the cache equal to the last adds not yet expired |
| `RecentMarks.RecentMarks.Contains` | internal/webhook/recent.go:34-43 | the answer against the history of all adds, with and without ordered clocks |
| `RecentMarks.RecentMarks.Sweep` | internal/webhook/recent.go:58-62 | exactly the entries at least ttl old go |
| `RecentMarks.RecentMarks.Add` | internal/webhook/recent.go:47-64 | the history grows by this add, sweeps are at least ttl apart, and the size bound holds after every add |
| `Users.SeenRemembers` | internal/webhook/users.go:40-46 | seeing a user keeps the table equal to what the history of sightings and prunes calls for |
| `Users.PrunedRemembers` | internal/webhook/users.go:62-67 | so does pruning |
| `Users.Users.Mark` | internal/webhook/users.go:33-47 | 0 for no email; else the email's mark, the same whether the user was remembered, forgotten or new |
| `Users.Users.Prune` | internal/webhook/users.go:62-67 | exactly the emails last seen before the cutoff go |
| `Users.Users.Marks` | internal/webhook/users.go:50-58 | the remembered emails, each with its own mark |
| `Webhook.Handler.CachedWasMarked` | internal/webhook/webhook.go:163-173 | every cache entry has an earlier successful SetMark of its source, destination and mark behind it, which is in the table's history and put the mark on an entry of the connection |
| `Webhook.KeyIsCanonical` | internal/webhook/webhook.go:179-188 | an IPv4-mapped address gives the key of its IPv4 address, and to the marker a key means the address it came from |
| `Webhook.SubjectIs` | internal/webhook/webhook.go:131-157 | which events are handled, by their fields: network missing, empty or tcp; email, source and inboundLocal there; and the connection goes from source to inboundLocal, ports kept |
| `Webhook.WhatSetMarkDid` | internal/webhook/webhook.go:168-168 | a SetMark whose batch is sent adds and removes no entry and only puts the mark on entries of its connection, and on at least one if it succeeds |
| `Webhook.CallMarks` | internal/webhook/webhook.go:168-172 | a SetMark that can send puts the mark on exactly the tuples the kernel accepts, and succeeds exactly if every reply is read, none is an error other than errno 2, and an accepted tuple has an entry |
| `Webhook.CallFails` | internal/webhook/webhook.go:168-172 | the other cases by their outcome: no address, no local addresses, no tuple, no socket or no send, with no change |
| `Webhook.NewIsMarked` | internal/webhook/webhook.go:164-176 | a webhook that the cache does not stop, with a socket to be had, marks the connection's entries, and ends as marked exactly if that call succeeds |
| `Webhook.Handler.ServeHTTP` | internal/webhook/webhook.go:124-177 | under any interleaving: which events are ignored; queueProvision and its result before and whether or not the connection is marked; SetMark called, with its exact answer and change, exactly when not cached; cached exactly when SetMark succeeded; nothing else done by this handler |
| `Webhook.Handler.MarkOnce` | internal/webhook/webhook.go:163-176 | SetMark is called exactly when the cache does not hold the connection, its answer decides, and a failure is not cached, so it is tried again |
| `Webhook.Handler.Interfere` | internal/webhook/webhook.go:48-63 | other handlers, the worker and API callers may run for any time between two steps of a handler |
| `Hex.ParsePrint` | internal/tcshape/tcshape.go:91-91 | a number printed in hex and read back is itself if it is in range, and is refused if not |
| `Hex.PrintIs` | internal/tcshape/tcshape.go:73-91 | hex digits in their order, most significant first, read in either case |
| `Classes.ParseClasses` | internal/tcshape/tcshape.go:373-399 | the loop yields what the listing stands for, entry by entry and in order |
| `Classes.ColonOfShown` | internal/tcshape/tcshape.go:383-386 | a class id is cut at its own colon into the two numbers printed |
| `Classes.ParsedShown` | internal/tcshape/tcshape.go:373-399 | one device class is read back as the user class it is, or dropped if it is none |
| `Classes.ParsedListing` | internal/tcshape/tcshape.go:373-399 | a device's listing is read as exactly its user classes for this queue count, in order, rates capped at 32 bits |
| `Classes.ListingIsDistinct` | internal/tcshape/tcshape.go:364-371 | a listing never names a mark twice |
| `Classes.ClassIdRoundTrip` | internal/tcshape/tcshape.go:86-92 | exactly the user marks have a class id, and it reads back as the mark |
| `Classes.ClassIdsAreDistinct` | internal/tcshape/tcshape.go:82-92 | two marks never share a class id |
| `Qdiscs.HandleReadsBack` | internal/tcshape/tcshape.go:73-75 | a handle the builder prints is read back as its number |
| `Qdiscs.MqClassIs` | internal/tcshape/tcshape.go:77-80 | the mq class of a queue is 8000: and the queue's number in hex |
| `Qdiscs.InPlaceIff` | internal/tcshape/tcshape.go:164-168 | an HTB passes the check exactly when it is one the builder makes |
| `Qdiscs.CountedIff` | internal/tcshape/tcshape.go:159-172 | with all HTBs in place, there are as many as queues exactly when none is missing (pigeonhole) |
| `Qdiscs.MatchesIff` | internal/tcshape/tcshape.go:157-173 | for distinct canonical handles, a listing is accepted if and only if it shows the mq root and exactly the HTBs 1..queues on their own mq classes |
| `Qdiscs.CountingIsRightIff` | internal/tcshape/tcshape.go:157-173 | an accepted listing shows the layout if and only if its HTB handles are canonical and distinct, and a listing of the layout is accepted if and only if they are distinct |
| `Qdiscs.RepeatedIsRejected` | internal/tcshape/tcshape.go:169-172 | with no HTB missing, a repeated handle makes the count too large |
| `Qdiscs.LayoutMatches` | internal/tcshape/tcshape.go:157-173 | the loop decides exactly that |
| `Qdiscs.CanonicalIsNeeded` | internal/tcshape/tcshape.go:164-172 | a listing that is accepted though one queue's HTB is missing and another's is shown twice, in two spellings |
| `Steering.SteersFieldIff` | internal/tcshape/tcshape.go:300-313 | an entry passes for queue q exactly when it is the filter ensureSteering adds for q |
| `Steering.HitsIff` | internal/tcshape/tcshape.go:282-288 | by the kernel's match of mark and mask, bit by bit, the filter for q matches exactly the packets with queue field q |
| `Steering.EnoughIff` | internal/tcshape/tcshape.go:294-316 | different wanted entries are all the wanted ones exactly when there are enough |
| `Steering.SteeringMatches` | internal/tcshape/tcshape.go:294-317 | a listing is accepted if and only if, headers aside, it is some ordering of the filters ensureSteering adds, whose mask matches queue fields |
| `Steering.WantedSteer` | internal/tcshape/tcshape.go:282-288 | any accepted listing steers every 32-bit mark by its queue field, through exactly one filter, and other fields nowhere |
| `Steering.AcceptedSteersLikeBuilt` | internal/tcshape/tcshape.go:292-317 | any accepted listing steers every 32-bit mark like a freshly built one |
| `Steering.BuiltIsWanted` | internal/tcshape/tcshape.go:282-317 | what ensureSteering builds is accepted, with or without the kernel's header entry |
| `Interface.AnyPacket` | internal/tcshape/tcshape.go:6-21 | TX queue and class of a packet with any mark, on a complete layout |
| `Interface.PacketMarkIs` | internal/tcshape/tcshape.go:406-416 | with the rule, packets of marked connections carry the connection's mark; all others, and all without it, keep their own |
| `Interface.UnmarkedConnection` | internal/tcshape/tcshape.go:406-416 | a packet of an unmarked connection takes the queue and class it would without the rule |
| `Interface.ClassHangsOff` | internal/tcshape/tcshape.go:82-92 | a mark's class id is the handle of its parent HTB and then the minor, and its packets reach that HTB |
| `Interface.UserPacket` | internal/tcshape/tcshape.go:16-21 | exactly one steering filter matches a user's packet, which takes TX queue major-1 and there the user's class if it exists, else the default class |
| `Interface.UnmarkedPacket` | internal/tcshape/tcshape.go:20-21 | an unmarked packet stays on its queue and takes the default class there |
| `Interface.NoOtherPacket` | internal/tcshape/tcshape.go:6-21 | only packets with a user's own mark land in the user's class |
| `Interface.PartialAccepted` | internal/tcshape/tcshape.go:157-233 | a build stopped after any command is accepted for exactly one queue count, that of the HTBs it added |
| `Interface.ListingExists` | internal/tcshape/tcshape.go:143-153 | every device has a listing, so nothing said of listings is empty |
| `Interface.UnfinishedAcceptedIff` | internal/tcshape/tcshape.go:157-233 | prefixes of a build are accepted exactly from the last HTB on, and exactly two of those are not complete |
| `Interface.Interface.BuildLayout` | internal/tcshape/tcshape.go:207-233 | the device is always some prefix of the build from an emptied root, the whole of it exactly on success |
| `Interface.Interface.BuildQueue` | internal/tcshape/tcshape.go:218-231 | one queue's HTB, default class and classifier, or the prefix up to the first failure |
| `Interface.Interface.EnsureSteering` | internal/tcshape/tcshape.go:253-290 | success leaves exactly the wanted filters; filters at other priorities and all else stay; a second run does nothing |
| `Interface.Interface.AddSteering` | internal/tcshape/tcshape.go:282-289 | some first filters of a fresh set are added, all of them exactly on success |
| `Interface.Interface.EnsureRoot` | internal/tcshape/tcshape.go:192-205 | success leaves the nft rule and the wanted filters, without a layout also everything else with only default classes; a failure leaves a prefix of the build with steering untouched, or only steering changed |
| `Interface.Interface.Finish` | internal/tcshape/tcshape.go:198-204 | steering and then the nft rule, installed exactly on success; nothing else changes |
| `Interface.Interface.Setup` | cmd/xray-speedlimit/main.go:206-234 | an accepted device keeps every class it has; any other is rebuilt to a complete layout; it succeeds if no command fails |
| `Interface.Interface.SetRate` | internal/tcshape/tcshape.go:320-329 | only a user mark gets a class, everyone else's stays, the layout stays complete, and the user classes change as the protocol's tc step for Set says |
| `Interface.Interface.Remove` | internal/tcshape/tcshape.go:331-344 | only a user mark's class goes, one already gone counts as removed, default classes are never touched, and the user classes change as the protocol's tc step for Delete says |
| `EndToEnd.CommandIsTc` | internal/tcshape/tcshape.go:319-344 | a store's tc command on a complete device keeps it complete and changes its user classes as the protocol says |
| `EndToEnd.DrivenBacks` | internal/tcshape/tcshape.go:319-344 | so does every run, with every command that fails leaving the device as it was |
| `EndToEnd.QueuedUserIsShaped` | internal/tcshape/tcshape.go:6-21 | once a queued mark's provisioning has drained, every packet of a connection whose entry carries the mark goes through the mark's class, at the per-user rate, on the queue the mark names |
| `EndToEnd.OthersAreNotInIt` | internal/tcshape/tcshape.go:6-21 | in every run no packet without a user's mark goes through that user's class |
| `Exchange.Exchange` | internal/conntrack/netlink.go:78-113 | with distinct sequence numbers it succeeds exactly when some prefix of the replies answers every request before a failure; it reads the shortest such prefix and returns each request's first valid answer |
| `Exchange.ResultNegatesCode` | internal/conntrack/netlink.go:100-110 | each result plus the code of its request's first NLMSG_ERROR of at least four bytes is 0, but for the one 32-bit code that has no negative |
| `Exchange.Note` | internal/conntrack/netlink.go:100-110 | stray, repeated and short messages change nothing; the first valid reply to a request is noted once |
| `Exchange.Take` | internal/conntrack/netlink.go:100-110 | one datagram keeps pending equal to the number of unanswered requests |
| `Exchange.IndexOf` | internal/conntrack/netlink.go:79-84 | every request is found by its sequence number |
| `Exchange.PendingMeansUnanswered` | internal/conntrack/netlink.go:90-91 | the loop goes on exactly while some request has no valid reply |
| `Exchange.NoneUnansweredIff` | internal/conntrack/netlink.go:74-77 | nothing is left on the socket exactly when every request has its answer |
| `Exchange.ResultLeavesNone` | internal/conntrack/netlink.go:74-77 | a successful exchange leaves no unanswered request on the socket |
| `Exchange.OrderDoesNotMatter` | internal/conntrack/netlink.go:100-110 | replies that agree give a request the same answer in any order and number |
| `Exchange.SameResults` | internal/conntrack/netlink.go:78-113 | permuted replies give the same results |
| `SocketPool.StepKeepsInv` | internal/conntrack/netlink.go:56-72 | every step keeps each open socket in the pool or with one call, and pooled sockets free of unanswered requests |
| `SocketPool.RunKeepsInv` | internal/conntrack/conntrack.go:96-106 | so does every interleaving of calls |
| `SocketPool.NeverUsedAfterClose` | internal/conntrack/conntrack.go:96-106 | in every run a socket taken, used, pooled or closed is open, and has nothing unanswered when taken or used |
| `SocketPool.OpenIsBounded` | internal/conntrack/netlink.go:16-20 | at most eight sockets are open beyond those of running calls; with no call running at most eight |
| `SocketPool.PutPools` | internal/conntrack/netlink.go:16-20 | a socket put back stays open and joins the pool if fewer than eight are there, and is closed otherwise |
| `SocketPool.OthersKeepOut` | internal/conntrack/netlink.go:56-72 | no run of the other calls takes a call's socket from it |
| `SocketPool.Sockets.GetSocket` | internal/conntrack/netlink.go:55-63 | the oldest pooled socket, or a new one if there is none; fails exactly if the pool is empty and none can be opened |
| `SocketPool.Sockets.Exchanged` | internal/conntrack/netlink.go:74-78 | what an exchange leaves unanswered stays with its socket |
| `SocketPool.Sockets.PutSocket` | internal/conntrack/netlink.go:65-72 | back to the pool, or closed if the pool is full |
| `SocketPool.Sockets.Close` | internal/conntrack/conntrack.go:102-105 | a socket whose exchange failed is closed, never pooled |
| `Conntrack.CandidateDsts` | internal/conntrack/conntrack.go:153-168 | the destination itself in the source's family, or every local address of that family, in the kernel's form |
| `Conntrack.FamilyIs` | internal/conntrack/conntrack.go:179-187 | by length and bytes: four are IPv4, sixteen are IPv6 unless they map an IPv4 address, and any other length is refused |
| `Conntrack.UnspecifiedIff` | internal/conntrack/conntrack.go:54-56 | the unspecified addresses are 0.0.0.0, its mapped form and :: |
| `Conntrack.LooksUpOne` | internal/conntrack/conntrack.go:89-93 | a call from and to two addresses of one family looks up exactly their one tuple, and none if the families differ |
| `Conntrack.LooksUpLocal` | internal/conntrack/conntrack.go:82-93 | a call to an unspecified address looks up the tuples of exactly the local addresses in the source's family |
| `Conntrack.BatchMarks` | internal/conntrack/netlink.go:115-121 | a batch applied one request after another adds and removes no entry and marks exactly the existing tuples whose update succeeds |
| `Conntrack.ResultsAreAnswers` | internal/conntrack/conntrack.go:101-107 | the kernel answers with negated errnos; the results of a successful exchange are those errnos, request by request |
| `Conntrack.PlainRepliesWork` | internal/conntrack/netlink.go:85-112 | a kernel that answers each request once gives replies as assumed, and they are all read |
| `Conntrack.VerdictIs` | internal/conntrack/conntrack.go:107-124 | a call succeeds exactly when no answer is an error and some entry was marked; it reports a miss exactly when none was |
| `Conntrack.SucceedsIff` | internal/conntrack/conntrack.go:107-124 | barring errors other than a miss, a call succeeds if and only if one of its tuples has an entry whose update succeeds |
| `Conntrack.DoneMarks` | internal/conntrack/conntrack.go:107-124 | a successful call leaves the mark on at least one of the entries it looked up |
| `Conntrack.Marker.SetMark` | internal/conntrack/conntrack.go:71-125 | the exact outcome in every case, exactly this call's own change of the table, or none, and its own steps on the pool: take or open, one exchange, then put back exactly on success; all while other calls use the pool and change the table |
| `Conntrack.Marker.Send` | internal/conntrack/conntrack.go:95-115 | one socket per batch, put back exactly if its exchange succeeded and closed if not; fails for want of one only if the pool is empty and none opens |
| `Conntrack.Marker.Trade` | internal/conntrack/conntrack.go:101-107 | the table changes by the whole batch once it is sent, whether or not the replies arrive, and the results are the kernel's answers |
| `Conntrack.Marker.Tally` | internal/conntrack/conntrack.go:107-124 | counting stops at the first answer that is neither success nor a miss |
| `Conntrack.OfFamilyIs` | internal/conntrack/conntrack.go:161-168 | the wildcard's destinations are exactly the local addresses of the source's family |
| `Conntrack.CalledMarks` | internal/conntrack/conntrack.go:89-94 | what one call marks, by tuple |
| `Conntrack.OneByOneMarks` | internal/conntrack/conntrack.go:82-115 | a sequence of calls marks the union of what each marks, whichever tuples the kernel refuses |
| `Conntrack.WildcardIsEachAddress` | internal/conntrack/conntrack.go:54-66 | a wildcard call leaves the table as one exact call per local address in the source's family would, whichever tuples the kernel refuses (wildcards: section 2.5.2 of RFC 4291) |
| `Conntrack.MappedIsIPv4` | internal/conntrack/conntrack.go:179-187 | the IPv4-mapped form stands for the IPv4 address as source, destination and wildcard (section 2.5.5.2 of RFC 4291) |

## Left out

- Marks.Join: takes 16-bit halves only, which is all its callers pass.
- The FNV-1a hash is any function from email to a 64-bit sum; its body is not modelled.
- Interface.UserPacket: filters at other priorities play no part in the packet path.
- Steering.SteeringMatches: an entry's mark, mask and queue mapping are values or absent; decoding the listing's text, such as base-prefixed numbers, is not modelled.
- Runs.WebhookQueues: the exact effect is stated for a webhook nobody interrupts, because with others running the state it leaves is not a function of the one it began in.
- Startup.Start: the link-speed detection behind the default class rate, and the route and queue-count detection before it; the rate and the count are arguments.
- Conntrack.Marker.SetMark: the requests of one batch are applied without a change by others between them; changes by others before and after it are allowed.
- Service.Service.ProvisionLoop: a given number of rounds instead of an endless loop.
- IdleTiming.TriedMeansSilent: a class removed and created again between two looks that then shows the very count of the old one is the old one to the collector, and here.
- Helper methods split out of the source's loops (`Visit`, `Prune`, `VisitAll`, `BuildRoot`, `BuildQueues`, `BuildQueue`, `ClearSteering`, `AddSteering`, `Finish`, `Take`, `Note`, `AdoptAll`, the methods below `ServeHTTP`, `Send`, `SendOn`, `Trade`, `Return`, `Tally`) are part of the caller's body there.
- The base map's own lock: each of its operations is one atomic step of the protocol; `List` reads the same map and adds nothing.
- HTTP servers, JSON decoding, status texts, flags, shutdown and socket paths; of the API only its PUT and DELETE calls of the store.
- Running `tc`, `nft` and `ethtool`, and the netlink system calls, socket options and byte order; commands are data and replies are messages.
- Serialising conntrack requests: a request is a tuple, a mark and a sequence number.
- HTB token-bucket timing, burst sizing and throughput: kernel behaviour; the burst formula alone would be an easy member.
- Parsing addresses: any function from text to an address and port.
- Caching of the host's address list: the list is an argument.
- The widths of byte counters, sequence numbers and times: they do not wrap within a run.
- Reuse of a closed socket's number: sockets are told apart by identity.
- Other tools changing classes or filters during a run.
