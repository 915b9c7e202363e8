# A verified model of the embedded Linux exercises

The repository is a course of small C programs. This project models the ones with hard behaviour and proves,
for all inputs and all interleavings, what they guarantee:

- **The restaurant** (`10-ipc-sem`): two trays of slots in shared memory, each with the semaphores `mutex`,
  `full` and `empty`; chefs, customers, a customer that alternates between the trays, and a parent that counts
  the slots without a lock. `Tray.dfy` cuts `add_item` and `remove_item` into single accesses, `Restaurant.dfy`
  interleaves any number of processes over trays of any size, `RestaurantInvariant.dfy` holds the counting
  invariant and `RestaurantTheorems.dfy` the results. `SharedBuffer.dfy` is the same routines as code over an
  array, tied to the accesses.
- **The pthread exercises** (`04-thread`): `HandOff.dfy` (condition variable), `RaceCounter.dfy` (mutex-guarded
  counter with thread creation and join), `RwLock.dfy` (read-write lock). `ThreadBodies.dfy` has the thread
  bodies as code, each tied to the uninterrupted steps of its thread.
- **The peer table of the chat application** (`mock-prj-01`): `PeerTable.dfy` and `PeerTableProofs.dfy` state
  what the critical sections do to the slots and prove that the slots refine a bounded map from ids to
  connections; `ChatApp.dfy` is the code over `Peer` records in an array.
- **The character device** (`13-char-device`), **the GPIO drivers** (`14`, `15`, `16`) and **the in-place string
  routines** (`01-general-knowleague`): `CharDevice.dfy`, `GpioCommands.dfy`, `GpioDrivers.dfy`, `StringUtils.dfy`.

`Counting.dfy` holds sums over sequences, the tool behind every "number of processes that ..." argument.

## How it is modelled

A concurrent program is a state, a function `Step(state, actor)` that performs one access of one actor, and
`Exec`, which runs a sequence of actors. An actor that is blocked (in `sem_wait`, in `pthread_mutex_lock`, in the
wait set) does not move when it is scheduled, so a sequence of actors is an arbitrary interleaving and a theorem
about all sequences is a theorem about all runs. Every semaphore operation, lock, slot comparison, slot write,
load, store, signal and wait is a step of its own. Delays, random numbers and scheduling are the choice of the
sequence; the values the hand-off producer draws are a parameter. Sequential code keeps its own form: a class
for each structure that is updated in place, an array for each buffer, a loop for each loop.

The peer table is only touched under one mutex after set-up, so there a run is a sequence of whole critical
sections in any order.

Some fields only record history and are never read by a step: the production index and the count of overwritten
values in `HandOff.State`, and the completed increments and the printed lines in `RwLock.State`.

Where the code and its own text disagree, the code is followed:

- `04-thread/condition-var/README.md` shows every produced value being received. The producer does not wait for
  the consumer, so a value can be stored over (`HandOff.OnlyLastDelivered`). Full delivery is guaranteed exactly
  if there is at most one value (`HandOff.DeliveryGuaranteed`); the last value always arrives
  (`HandOff.LastDelivered`).
- A handler of the chat application is meant to end its own entry. Its peer can hang up before the entry is
  registered; the entry then stays active on a closed descriptor, whose number the kernel gives to the next peer,
  and that peer's handler ends the wrong entry (`PeerTableProofs.StaleEntry`). `SocketsStayDistinct`,
  `HangUpExact` and `HandlerEndsItsOwnEntry` give the exact conditions.
- `14-gpio-device-driver/mgpio.c:84` announces a trim. The pointer `strim` returns is dropped, so only trailing
  white space goes (`GpioCommands.LeadingSpaceRejected`).

## Model

| member | source | states |
|---|---|---|
| `RestaurantInvariant.InitInv` | 10-ipc-sem/main.c:198-210 | the initial semaphores and slots satisfy the counting invariant for any tray size and any crew |
| `RestaurantInvariant.StepInv` | 10-ipc-sem/main.c:58-99 | every single access of any process, and every read of the status scan, keeps the token counts, the slot contents and what each scanning process has established |
| `RestaurantInvariant.ScanHasTarget` | 10-ipc-sem/main.c:63-93 | under the invariant a process at the loop head has not run past the last slot |
| `RestaurantTheorems.TokensConserved` | 10-ipc-sem/main.c:58-99 | in every reachable state `empty`, `full` and the tokens in flight add up to the tray size, occupied slots are `full` plus chefs that wrote plus customers that have not cleared, and `mutex` plus processes inside is 1 |
| `RestaurantTheorems.MutualExclusion` | 10-ipc-sem/main.c:60-72 | two processes inside the critical section of a tray are the same process |
| `RestaurantTheorems.ScanNeverFallsThrough` | 10-ipc-sem/main.c:63-93 | a scanning chef always has an EMPTY slot ahead and a scanning customer a dish of its type, so neither loop ends without its break |
| `RestaurantTheorems.TouchIsFirstFit` | 10-ipc-sem/main.c:64-91 | the slot written was EMPTY, the slot cleared held the wanted dish, and it is the lowest such slot |
| `RestaurantTheorems.StepRefinesCounter` | 10-ipc-sem/main.c:65-90 | one access is a step of an atomic counter in 0..C: up below C at the slot write, down above 0 at the slot clear, otherwise still |
| `RestaurantTheorems.RunRefinesCounter` | 10-ipc-sem/main.c:58-99 | the occupancies along any interleaved run are a run of that counter |
| `RestaurantTheorems.DishesBalance` | 10-ipc-sem/main.c:62-93 | dishes written less dishes cleared are the occupied slots, in every run |
| `RestaurantTheorems.WhoMovesDishes` | 10-ipc-sem/main.c:107-180 | in every reachable state a tray gains a dish only by a step of a chef of that tray and loses one only by a step of a customer of that tray or of the alternating one |
| `RestaurantTheorems.WhatWorkersWaitFor` | 10-ipc-sem/main.c:59-86 | a chef between calls is blocked iff `empty` is 0, a customer iff `full` is 0, and a process with its token iff `mutex` is 0; nothing else blocks |
| `RestaurantTheorems.DishesInPlace` | 10-ipc-sem/main.c:115-177 | a slot of the vegan tray is EMPTY or VEGAN, a slot of the other tray EMPTY or NON_VEGAN |
| `RestaurantTheorems.FirstFitHighWater` | 10-ipc-sem/main.c:63-93 | every occupied slot lies below the greatest occupancy the run has reached |
| `RestaurantTheorems.ScanInvariant` | 10-ipc-sem/main.c:42-45 | at every point of the unlocked scan each count is within the writes and clears since the scan began of the slots read so far |
| `RestaurantTheorems.StatusScanError` | 10-ipc-sem/main.c:40-47 | whenever the parent's step prints, each count exceeds the true occupancy by at most the clears during the scan and falls short by at most the writes; with neither it is exact |
| `RestaurantTheorems.StatusLineEveryRound` | 10-ipc-sem/main.c:40-47 | in any interleaving the parent's steps are 2C+2 for each line printed plus its progress in the current round, which is less: every (2C+2)nd step prints, and no other |
| `RestaurantTheorems.NoDeadlock` | 10-ipc-sem/main.c:58-180 | in every reachable state of both trays each tray with its own chef and customer has a process at it that is not blocked |
| `RestaurantTheorems.WaitingIsStill` | 10-ipc-sem/main.c:59-86 | not being blocked means that the next access really changes the state |
| `RestaurantTheorems.WorkMovesDishes` | 10-ipc-sem/main.c:58-180 | no livelock at either tray: N processes make at most N(2C+5) accesses at a tray plus 2C+4 for each slot write or clear at that same tray, in any interleaving and whatever happens at the other |
| `RestaurantTheorems.TrayCanBeServed` | 10-ipc-sem/main.c:58-180 | from every reachable state a tray with its own chef and customer gets a write or clear within N(2C+5)+1 accesses of processes at that tray alone |
| `RestaurantTheorems.AlternatingCustomer` | 10-ipc-sem/main.c:172-180 | the alternating customer has taken as many vegan as non-vegan dishes, or one vegan dish more, exactly according to where it stands |
| `RestaurantTheorems.CallInTheRestaurant` | 10-ipc-sem/main.c:58-180 | an uninterrupted call of a chef has on the whole restaurant exactly the effect of add_item on its tray, one of a customer that of remove_item, and the alternating customer then turns to the other tray |
| `RestaurantTheorems.ShippedProgram` | 10-ipc-sem/main.c:190-245 | two chefs, three customers, trays of ten: at most ten dishes, none lost or invented, never stuck; each tray filled by its one chef only and emptied by its two customers only |
| `SharedBuffers.CallIsItsAccesses` | 10-ipc-sem/main.c:58-99 | an undisturbed call equals its accesses one after another, k+6 of them when the slot found is k, and one that does not return ends where it is blocked |
| `SharedBuffers.AnnounceIsLast` | 10-ipc-sem/main.c:72-98 | an undisturbed call that returns makes its last `sem_post` exactly once, at the end |
| `SharedBuffers.SharedBuffer.constructor` | 10-ipc-sem/main.c:198-210 | all slots EMPTY, `mutex` 1, `full` 0, `empty` the size |
| `SharedBuffers.SharedBuffer.OverwriteFirst` | 10-ipc-sem/main.c:63-68 | exactly the first matching slot changes; nothing does if none matches |
| `SharedBuffers.SharedBuffer.AddItem` | 10-ipc-sem/main.c:58-74 | the whole new structure: the call waits at `empty` if that is 0, with its token taken at `mutex` if that is 0, and otherwise fills exactly the first EMPTY slot and moves one token from `empty` to `full` |
| `SharedBuffers.SharedBuffer.RemoveItem` | 10-ipc-sem/main.c:84-99 | likewise: the first slot of the type cleared and one token moved from `full` to `empty` |
| `SharedBuffers.PrintBufferState` | 10-ipc-sem/main.c:40-47 | an undisturbed scan counts both trays exactly |
| `HandOff.RunInv` | 04-thread/condition-var/main.c:24-66 | lock ownership, loop counters and the accounts of produced, consumed and overwritten values hold after any steps of either thread and any spurious wake-ups |
| `HandOff.Exclusion` | 04-thread/condition-var/main.c:28-62 | the two threads are never between lock and unlock at the same time |
| `HandOff.NoLostWakeUp` | 04-thread/condition-var/main.c:28-57 | a consumer asleep while `data_ready` is set is woken by the very next step of the producer, which still holds the mutex |
| `HandOff.EveryValueAccountedFor` | 04-thread/condition-var/main.c:28-62 | with the mutex free, produced = consumed + overwritten + 1 if a value is on offer |
| `HandOff.ConsumedInOrder` | 04-thread/condition-var/main.c:52-62 | printed values are produced values at strictly increasing production indices, spurious wake-ups or not |
| `HandOff.Outcome` | 04-thread/condition-var/main.c:24-66 | a run that cannot go on has n minus (overwritten values) printed; the consumer finished iff nothing was overwritten, and then the printed sequence is the produced one; otherwise it sleeps for ever |
| `HandOff.LastDelivered` | 04-thread/condition-var/main.c:24-66 | in every run that cannot go on the last value produced has been printed, and last |
| `HandOff.DeliveryGuaranteed` | 04-thread/condition-var/main.c:24-66 | every run that cannot go on has delivered everything if and only if there is at most one value |
| `HandOff.EnabledMoves` | 04-thread/condition-var/main.c:24-66 | a thread counts as able to go on exactly when its next step changes the state |
| `HandOff.OnlyLastDelivered` | 04-thread/condition-var/main.c:24-66 | for every n above 1 there is a run in which only the last value is delivered and the consumer hangs |
| `HandOff.RunsAreBounded` | 04-thread/condition-var/main.c:24-66 | a run makes at most 44n + 8 steps and 6 for each spurious wake-up, so it reaches one of the two outcomes |
| `RaceCounter.RunInv` | 04-thread/race-condition/main.c:23-56 | the counter is the number of stores completed and a loaded value is current, in every interleaving of the threads and main |
| `RaceCounter.PrintedValue` | 04-thread/race-condition/main.c:39-60 | what main prints after the joins is exactly threads times increments |
| `RaceCounter.CounterInRange` | 04-thread/race-condition/main.c:23-30 | the counter stays between 0 and that product |
| `RaceCounter.ShippedCounter` | 04-thread/race-condition/main.c:5-60 | 3 threads of 1000000: no 32-bit overflow, 3000000 printed |
| `RaceCounter.EnabledMoves` | 04-thread/race-condition/main.c:23-56 | likewise for the counter threads and main |
| `RaceCounter.FailedCreation` | 04-thread/race-condition/main.c:46-49 | a thread creation that fails ends the process: no step after it changes anything |
| `RaceCounter.NeverStuck` | 04-thread/race-condition/main.c:23-56 | until main has printed or exited some thread can step |
| `RaceCounter.WorkPlusLeft` | 04-thread/race-condition/main.c:23-56 | steps made and steps left always add up to 4NK + 2N + 2 |
| `RaceCounter.RunLength` | 04-thread/race-condition/main.c:23-60 | a run makes at most that many steps and has printed iff it made exactly that many |
| `RwLock.RunInv` | 04-thread/r-w-lock/main.c:21-51 | lock counts, values loaded and both logs stay consistent in every interleaving of any readers and writers |
| `RwLock.Exclusion` | 04-thread/r-w-lock/main.c:24-47 | a writer inside excludes every other reader and writer |
| `RwLock.NoLostIncrement` | 04-thread/r-w-lock/main.c:41-51 | `resource` is the number of completed increments, and with no writer inside all of them have been printed |
| `RwLock.Output` | 04-thread/r-w-lock/main.c:25-46 | every reader line shows the increments completed at that moment, over time never fewer; the writers' lines are 1, 2, 3, ... |
| `RwLock.EnabledMoves` | 04-thread/r-w-lock/main.c:21-51 | likewise for readers and writers |
| `RwLock.NoDeadlock` | 04-thread/r-w-lock/main.c:21-51 | with at least one thread, some thread can step |
| `ThreadBodies.SharedCounter.IncrementCounter` | 04-thread/race-condition/main.c:23-30 | alone, the body with its lock calls returns iff it has nothing to do or the mutex is free, and leaves counter and mutex as the 4K steps of its thread do: K added, the mutex free again; otherwise it blocks at once, as the thread does |
| `ThreadBodies.ThreadAlone` | 04-thread/race-condition/main.c:23-30 | k uninterrupted rounds of a thread are 4k steps that add k and leave the mutex free |
| `ThreadBodies.HandOffCell.Producer` | 04-thread/condition-var/main.c:24-37 | alone, whatever the consumer is at, the body leaves value, flag, mutex and wait set as the 5n steps of the producer do, or blocks at the first lock |
| `ThreadBodies.HandOffCell.Consumer` | 04-thread/condition-var/main.c:50-66 | alone, with any number of spurious wake-ups, the body prints the value on offer if there is one and ends where the steps of the consumer end: returned, blocked or asleep |
| `HandOff.WokenInVain` | 04-thread/condition-var/main.c:55-57 | a spurious wake-up takes a sleeping consumer out of the wait set; with nothing ready it goes back to sleep with nothing changed |
| `HandOff.ProducerRound` | 04-thread/condition-var/main.c:28-34 | an uninterrupted round puts the next value on offer, wakes a sleeping consumer, frees the mutex and overwrites a value that was still on offer |
| `HandOff.ProducerAlone` | 04-thread/condition-var/main.c:24-37 | k uninterrupted rounds leave the k-th value on offer and k-1 overwritten |
| `HandOff.ConsumerRound` | 04-thread/condition-var/main.c:52-62 | an uninterrupted round prints the value on offer, clears the flag and frees the mutex |
| `ThreadBodies.Resource.Reader` | 04-thread/r-w-lock/main.c:21-30 | alone, so many rounds print the current value so many times and leave resource and lock as three steps of the reader each do; refused iff a writer is inside |
| `ThreadBodies.Resource.Writer` | 04-thread/r-w-lock/main.c:41-50 | alone, the rounds print the next values in order and leave resource and lock as five steps of the writer each do; refused iff anybody is inside |
| `ThreadBodies.WriterRound` | 04-thread/r-w-lock/main.c:43-47 | five uninterrupted steps of a writer add one, print the new value and free the lock |
| `PeerTableProofs.ServeRefines` | mock-prj-01/chatapp.c:100-374 | every critical section does to the slots what its operation does to a map from ids to connections, with the same result; add fails iff the map has MAX_PEERS entries or the ids are used up; only Stop clears `running`, and a poll reports it |
| `PeerTableProofs.RunRefines` | mock-prj-01/chatapp.c:38-374 | so does every run from set-up, in any order of requests, and the map never exceeds MAX_PEERS |
| `PeerTableProofs.RunningUntilStop` | mock-prj-01/chatapp.c:100-131 | over any run the application is running iff no Stop was served, and each poll of the listener is told exactly whether one was served before it |
| `PeerTableProofs.AddTakesLowestSlot` | mock-prj-01/chatapp.c:244-251 | an accepted add fills the lowest inactive slot and changes no other |
| `PeerTableProofs.FirstIsLookup` | mock-prj-01/chatapp.c:340-369 | the first active slot with an id is the map's entry for it, and there is none iff the map has none |
| `PeerTableProofs.RowsAreTheBook` | mock-prj-01/chatapp.c:321-326 | the listing has one row for each connection in the map |
| `PeerTableProofs.ClosingsAreTheBook` | mock-prj-01/chatapp.c:107-115 | the sweep closes each socket, cancelling its thread, as often as the map has connections with that socket and thread, and nothing else |
| `PeerTableProofs.InSlotOrder` | mock-prj-01/chatapp.c:107-326 | what an active slot contributes to the listing, and to the sweep, stands right after what the active slots below it contribute |
| `PeerTableProofs.FullMeansNoFreeSlot` | mock-prj-01/chatapp.c:244-251 | the scan for an inactive slot fails iff the map is full |
| `PeerTableProofs.RunValid` | mock-prj-01/chatapp.c:237-254 | in every run active ids are distinct, positive and below `next_peer_id`, which is at most INT_MAX |
| `PeerTableProofs.IdsInOrder` | mock-prj-01/chatapp.c:237-254 | the k-th successful add of a run returns k, and `next_peer_id` never exceeds INT_MAX |
| `PeerTableProofs.IdsNeverReused` | mock-prj-01/chatapp.c:239-247 | an id that was handed out and is gone is never found again by any later send or disconnect |
| `PeerTableProofs.Conservation` | mock-prj-01/chatapp.c:107-374 | successful adds less deactivations are the active entries |
| `PeerTableProofs.SocketsStayDistinct` | mock-prj-01/chatapp.c:244-251 | active sockets are pairwise distinct after every prefix of a run if and only if every accepted add named a socket no active entry had |
| `PeerTableProofs.StaleEntry` | mock-prj-01/chatapp.c:164-205 | for every descriptor, a run in which two active entries share it, and in which the second peer's hang-up removes the first peer's entry and leaves its own |
| `PeerTableProofs.HangUpExact` | mock-prj-01/chatapp.c:197-204 | in any valid table a hang-up removes exactly entry id of that socket iff no lower slot is active on the socket; with id gone it does nothing iff no slot is |
| `PeerTableProofs.HandlerEndsItsOwnEntry` | mock-prj-01/chatapp.c:197-204 | the same for the handler of any added entry after any run: the entry still has the handler's socket, and it is the one removed iff no lower slot is active on that socket |
| `PeerTableProofs.HandlerWithOwnSocket` | mock-prj-01/chatapp.c:197-204 | if the socket was unused when the entry was added and not added again, the handler removes its own id and no other, or nothing if it is gone |
| `PeerTableProofs.EntryKept` | mock-prj-01/peer.c:39-47 | while an id is in the map its socket, address, port and thread do not change |
| `ChatApps.Peer.Init` | mock-prj-01/peer.c:17-24 | the vacant record |
| `ChatApps.Peer.Set` | mock-prj-01/peer.c:39-47 | all fields stored, the address cut to 15 characters, the record active |
| `ChatApps.ChatApp.constructor` | mock-prj-01/chatapp.c:38-47 | ten vacant records, next id 1, running |
| `ChatApps.ChatApp.AddPeer` | mock-prj-01/chatapp.c:237-254 | new table and returned id are those of the abstract request, -1 when it is refused |
| `ChatApps.ChatApp.DisconnectPeer` | mock-prj-01/chatapp.c:359-374 | likewise, with the socket closed and the thread cancelled |
| `ChatApps.ChatApp.HangUpPeer` | mock-prj-01/chatapp.c:197-204 | likewise, for the first active entry on the handler's socket |
| `ChatApps.ChatApp.SendMessage` | mock-prj-01/chatapp.c:338-350 | 0 and the socket of that id, or -1 |
| `ChatApps.ChatApp.ListPeers` | mock-prj-01/chatapp.c:319-328 | the rows of the abstract listing |
| `ChatApps.ChatApp.KeepRunning` | mock-prj-01/chatapp.c:127-131 | the listener reads the flag and changes nothing |
| `ChatApps.ChatApp.StopRunning` | mock-prj-01/chatapp.c:100-102 | `running` is cleared and nothing else changes |
| `ChatApps.ChatApp.SweepPeers` | mock-prj-01/chatapp.c:107-115 | every active socket closed and its thread cancelled once, in slot order, and every entry inactive |
| `CharDevice.ReadsAreContiguous` | 13-char-device/char-device-driver/mydevice.c:29-45 | from any position, reads of any lengths, some of them faulting, deliver the next bytes without gap or repetition |
| `CharDevice.ReadsYieldPrefix` | 13-char-device/char-device-driver/mydevice.c:29-45 | from the start they yield the first min(sum of lengths, message length) bytes |
| `CharDevice.ReadReturns` | 13-char-device/char-device-driver/mydevice.c:29-45 | the number returned is the bytes delivered and the bytes the position moves, less than asked for only up to the end of the message; 0 at the end; -14 only for a failed copy |
| `CharDevice.ResubmittedWrite` | 13-char-device/char-device-driver/mydevice.c:47-59 | the pieces that resubmitting the unaccepted tail hands over are all n bytes in order, ceil(n/255) of them, each of 255 bytes but the last, none empty |
| `CharDevice.WriteFully` | 13-char-device/char-device-driver/mydevice.c:47-59 | a caller that calls the driver's write until nothing is left finds exactly those pieces in the kernel buffer, one per call |
| `CharDevice.OpenFile.MyRead` | 13-char-device/char-device-driver/mydevice.c:29-45 | result, bytes and new position of one read; the result is the number of bytes delivered, and a fault moves nothing |
| `CharDevice.OpenFile.MyWrite` | 13-char-device/char-device-driver/mydevice.c:47-59 | at most 255 bytes are accepted and their number returned; they and a terminator are in the buffer, the rest of it is untouched; when the copy faults -14, and the buffer is untouched from the accepted length on |
| `GpioCommands.ParsersAgree` | 14-gpio-device-driver/mgpio.c:76-100 | every input the register driver accepts is accepted by the other two drivers with the same level |
| `GpioCommands.RegisterAcceptsPaddedWords` | 14-gpio-device-driver/mgpio.c:76-96 | the register driver accepts exactly a command word followed by white space up to the terminator of its 15-byte copy |
| `GpioCommands.IntegerAcceptsPrefixes` | 15-gpio-integer/mgpio.c:44-69 | the integer driver accepts exactly the inputs that begin with a command word in any case |
| `GpioCommands.DescriptorAcceptsPrefixes` | 16-gpio-descriptor/mgpio_desc.c:79-91 | the descriptor driver accepts those and exactly the inputs that begin with the level's digit |
| `GpioCommands.CommandWords` | 15-gpio-integer/mgpio.c:57-61 | beginning with a command word means the letters o, n or o, f, f, each capital or small |
| `GpioCommands.AcceptedCounts` | 16-gpio-descriptor/mgpio_desc.c:81-98 | an accepted write reports all its bytes in the register and integer drivers, and at most 7 in the descriptor driver |
| `GpioCommands.RefusedVerdicts` | 14-gpio-device-driver/mgpio.c:80-99 | what is not accepted is -EINVAL, except that the register and descriptor drivers return 0 for the empty write |
| `GpioCommands.WhiteSpace` | 14-gpio-device-driver/mgpio.c:84-84 | the kernel's white space is the C library's and the no-break space; the integer driver trims it except vertical tab and form feed |
| `GpioCommands.LowerIsSettled` | 14-gpio-device-driver/mgpio.c:86-86 | lowering changes the capital letters of Latin-1 and nothing else, moves them by 32, and lowering again changes nothing |
| `GpioCommands.LeadingSpaceRejected` | 14-gpio-device-driver/mgpio.c:84-86 | leading white space makes all three drivers refuse |
| `GpioCommands.TextAfterWord` | 15-gpio-integer/mgpio.c:57-65 | any text after the word, within the register driver's copy, makes that driver refuse what the integer driver accepts |
| `GpioCommands.DigitsOnlyForDescriptor` | 16-gpio-descriptor/mgpio_desc.c:86-89 | every input that begins with 0 or 1 is refused by the other two drivers and accepted by the descriptor driver at that level |
| `GpioCommands.SamePins` | 14-gpio-device-driver/mgpio.c:88-103 | over any sequence of writes that the register driver accepts the three pins are equal |
| `GpioCommands.LastAcceptedWins` | 16-gpio-descriptor/mgpio_desc.c:93-96 | after any sequence of writes the pin has the level of the last one accepted, or its old level |
| `GpioCommands.ShowParseRoundTrip` | 15-gpio-integer/mgpio.c:75-85 | what is read is the word and a line feed; writing it back is accepted whole by every driver and sets the level that was shown |
| `GpioDrivers.RegisterDriver.AsOutput` | 14-gpio-device-driver/mgpio.c:45-51 | the three select bits of GPIO27 become 001 and no other bit changes |
| `GpioDrivers.WhereGpio27Is` | 14-gpio-device-driver/mgpio.c:22-51 | the masks are bit 27 of the latch and the three bits of pin 27 in the select register of pins 20 to 29 |
| `GpioDrivers.DrivenLevel` | 14-gpio-device-driver/mgpio.c:53-61 | GPIO27 takes the level, the other 31 lines keep theirs |
| `GpioDrivers.LowerInPlace` | 14-gpio-device-driver/mgpio.c:86-86 | the string in the buffer is lowered, its length kept |
| `GpioDrivers.RegisterDriver.Write` | 14-gpio-device-driver/mgpio.c:73-104 | verdict of the parse function; if accepted, all bytes are reported and GPIO27 has the level, otherwise the latch is untouched |
| `GpioDrivers.TrimLine` | 15-gpio-integer/mgpio.c:51-53 | the trailing line space is cut off and the buffer terminated there |
| `GpioDrivers.IntegerDriver.Write` | 15-gpio-integer/mgpio.c:41-73 | verdict of the parse function; pin and reported state stay equal |
| `GpioDrivers.IntegerDriver.Read` | 15-gpio-integer/mgpio.c:75-85 | the word of the current level at position 0 if it fits, otherwise end of file or an error |
| `GpioDrivers.DescriptorDriver.Write` | 16-gpio-descriptor/mgpio_desc.c:76-99 | verdict of the parse function and the line set accordingly |
| `StringUtils.StrReverse` | 01-general-knowleague/src/bstrutils.c:13-21 | the string is reversed in place, everything from the terminator on is untouched, null is ignored |
| `StringUtils.StrTrim` | 01-general-knowleague/src/bstrutils.c:29-46 | the array holds the trimmed string, everything after its terminator is untouched, null is ignored |
| `StringUtils.Trimmed` | 01-general-knowleague/src/bstrutils.c:29-46 | the result is the substring between the first and the last non-space character |
| `StringUtils.TrimUnique` | 01-general-knowleague/src/bstrutils.c:32-38 | there is at most one such substring, and it is empty exactly for blank strings |
| `StringUtils.TrimIdempotent` | 01-general-knowleague/src/bstrutils.c:29-46 | trimming twice is trimming once |
| `StringUtils.TrimCommutesWithReverse` | 01-general-knowleague/src/bstrutils.c:13-46 | trimming and reversing can be exchanged |
| `StringUtils.ReverseInvolution` | 01-general-knowleague/src/bstrutils.c:13-21 | reversing twice is the identity |

## Left out

- The processes and threads that interleave are step functions on values: a method cannot be interrupted. The same routines appear as code only without interference, tied to the steps of one thread.
- ThreadBodies.HandOffCell.Consumer: after the given number of spurious wake-ups it returns asleep, because a method that sleeps for ever has no result.
- ThreadBodies.Resource.Reader: makes a given number of rounds of the endless loop, and so does ThreadBodies.Resource.Writer.
- CharDevice.OpenFile.MyWrite: when the copy faults, nothing is promised about the part of the buffer that may have been stored.
- SharedBuffers.SharedBuffer.AddItem: returns where it would wait instead of waiting, because a method that blocks has no result.
- StatusScanError: takes each slot read and write to be one indivisible access in program order; the C program gives the compiler and the processor more freedom in the unlocked scan.
- HandOff.Outcome: says nothing about a consumer that is woken spuriously for ever; `RunsAreBounded` counts those wake-ups.
- RwLock.NoDeadlock: fairness between readers and writers is the library's choice and is not modelled.
- RwLock.NoLostIncrement: `resource` is a mathematical integer; the endless program overflows a 32-bit int after 2147483647 increments.
- StringUtils.StrTrim: the int indices of the C code limit the string to 2147483647 characters; the model has no limit.
- Chat sockets: connecting, accepting, closing (a handler closes its socket twice), what cancelling a thread does, `listen_thread`'s loop and shutting down in time.
- `mock-prj-01/commands.c`, `main.c`, `utils.c`: terminal input and calls into the table modelled here.
- `str_to_int`: `strtol` and a narrowing cast.
- `mgpio_read` of the descriptor driver and its `state` field, which that function changes without the lock.
- Module set-up and removal of the drivers; the kernel functions `strim`, `tolower`, `strncasecmp` appear with the behaviour of the kernel's library.
- The other exercises (processes, signals, sockets, message queues, pipes, shared memory, file status): thin layers over system calls.
- Printing, sleeping, random numbers and dish names.
