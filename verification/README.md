# Verified model of the game server's core

This project models, in Dafny 4.11, the self-contained logic of a C++ game server and proves what that logic keeps. `dafny verify dfyconfig.toml` checks all of it.

| part | files |
|---|---|
| node files: writer, recursive parser, in-place unescape, three-block cache | `Bytes`, `NodeFormat`, `NodeRoundTrip`, `FileLoader`, `NodeFiles` |
| containers: the containment forest, cached weights, the breadth-first iterator, depots | `Forest`, `Containers`, `ContainerWeights`, `ContainerIterators`, `ContainerQueries`, `ContainerRuns` |
| the walk cache a creature shifts along with itself | `WalkCache` |
| conditions: damage schedules and their delivery, speed and skill effects, the database image | `DamageSchedule`, `DamageDelivery`, `EffectLedger`, `PropStreams`, `ConditionImage`, `ConditionSerial` |
| the task dispatcher | `Dispatcher`, `TaskLists` |
| closing a connection | `ConnectionProtocol`, `Connections` |
| combat areas | `AreaShapes`, `CombatAreas` |
| house rent | `RentRules`, `Houses` |

Objects that the server updates in place are classes here, loops are loops, and each method is proved against a function or a predicate over plain values; lemmas about those say what the server promises. The dispatcher and the connection are transition systems whose runs are all interleavings; the code between lock and unlock (`TaskLists`, `Connections`) is proved to make exactly the steps of its system. Ghost parameters such as `S` (the items of the world) or `speed0` (the modifier without conditions) only serve the proofs.

## What turned out differently from what one would expect

- **Node types.** The writer escapes the type byte, the parser reads it raw. A document comes back exactly when every type is below 0xFD, or is 0xFD with properties whose first byte other than 0xFD is plain (`NodeRoundTrip.RoundTrip`, `NodeRoundTrip.SpecialTypeIsLost`).
- **Cached reads past the end.** The loop of a cached `readBytes` ends if and only if the range lies inside the file (`FileLoader.ReadingEnds`). Nothing asks for more: only `getProps` calls it (`src/fileloader.cpp:242`), and the spans of parsed nodes lie inside the file (`NodeFormat.ParserMeetsGrammar`).
- **Stack removal.** The unsigned subtraction in `__removeThing` is the ordinary one exactly up to 2^31 above the stack, or where the cut to 16 bits gives 0 (`Containers.RemainingIs`). Moving and removing items asks `__queryRemove` first, which refuses more than the stack holds.
- **Damage total.** The total meets the amount exactly when the amount is at least start(start+1)/2 (`DamageSchedule.GenerateDamageList`).
- **Damage ticks.** After loading they are the sum of the intervals exactly when the count never rests at -1 on the way (`ConditionImage.TicksAreTheSum`).
- **Dispatcher.** `shutdown` does not notify. Once it has gone through, and unless the wait returns by itself, the worker can sleep for good exactly when at that moment it is between its look at the state and its wait, or is asleep with no notification on its way (`Dispatcher.LosesTheWorker`). From everywhere else it leaves its loop after at most six more steps of its own (`Dispatcher.NeverAbandoned`, `Dispatcher.LeavesItsLoop`). `stop` after `shutdown` hides TERMINATED from the worker (`Dispatcher.StopHidesShutdown`).
- **Connection.** The packet limit calls `closeConnection` without a request, which does nothing, and no further read is started (`ConnectionProtocol.FloodersStay`, `ConnectionProtocol.IdleForGood`); the branch for slow clients cannot be reached (`ConnectionProtocol.SlowClientsStay`); a close request refused by the dispatcher is lost for good (`ConnectionProtocol.NeverServed`). `onStop` leaves a null socket that `closeSocket` does not expect; `ConnectionProtocol.MissingSocket` says which handlers reach it if they run after `onStop`.
- **Mirrored areas.** The centre formulas exchange rows and columns, so mirrored and flipped areas are right exactly for square matrices (`AreaShapes.MirrorIsRightIfSquare`, `AreaShapes.FlipIsRightIfSquare`).
- **House auctions.** The winner's last-warning time is not set. Exactly when an owner can lose a house for unpaid rent is `RentRules.CanBeLost`, and how long he is safe after acquiring it is `RentRules.Grace`, by `RentRules.LostExactlyAfterGrace`. A buyer has limit + 1 days. The winner of a free house has as much or more exactly when rent is taken on the spot, namely the rent period and limit days (`RentRules.FreeAuctionGrace`); a winner warned on the spot has limit days (`RentRules.LostEarly`). The winner of a house that was not free has only the days of the warnings its old owner had left (`RentRules.OwnedAuctionGrace`, `RentRules.NoGraceAfterOwner`).

## Model

| member | source | states |
|---|---|---|
| Bytes.EscapeRoundTrip | src/fileloader.h:119-145 | escaped bytes are clean (no unescaped bracket, no dangling escape) and unescape to the original |
| Bytes.EscapesWhatItMust | src/fileloader.h:119-145 | the writer escapes exactly the bytes that the reader cannot take bare |
| Bytes.CleanIsScanned | src/fileloader.cpp:139-224 | the span between two brackets is determined: the scan stops at a bracket after a clean run and nowhere else |
| NodeFormat.ParserMeetsGrammar | src/fileloader.cpp:126-228 | on arbitrary bytes the parser succeeds with a tree if and only if the tree tiles the file: disjoint clean property spans, children inside parents, siblings in order |
| NodeFormat.ParseIsSound | src/fileloader.cpp:126-228 | every successful parse, from any offset, is such a tiling up to where the cursor is left |
| NodeFormat.ParseIsComplete | src/fileloader.cpp:126-228 | every tiling is found by the parser, so the tree is unique |
| NodeRoundTrip.RoundTrip | src/fileloader.cpp:126-305 | what startNode, setProps and endNode write is read back with all types, shapes and property bytes if and only if every node survives the raw type byte; then the layout is the expected one |
| NodeRoundTrip.PlainTypesReadBack | src/fileloader.cpp:285-305 | every document whose types are below 0xFD is read back |
| NodeRoundTrip.SpecialTypeIsLost | src/fileloader.cpp:294-299 | concrete nodes of type 0xFE and 0xFD that do not come back, and one of type 0xFD that does |
| NodeRoundTrip.ByteForByte | src/fileloader.cpp:285-305 | the bytes of a small file with a child, a sibling and an escaped property |
| FileLoader.CacheSizes | src/fileloader.cpp:101 | the cache block size for every file size; between 491520 and 655360 bytes it is 24576, which is no power of two |
| FileLoader.BasePos | src/fileloader.cpp:477-494 | the block base lies at or before the position and less than one block away, whatever the block size |
| FileLoader.BasePosIs | src/fileloader.cpp:477-494 | for sizes that are powers of two it is the multiple of the size at or before the position |
| FileLoader.FileLoader.LoadCacheBlock | src/fileloader.cpp:496-545 | which slot is replaced (first empty, first distant, else the first) and that it then holds exactly the file's bytes from the base |
| FileLoader.FileLoader.GetCacheBlock | src/fileloader.cpp:477-494 | the slot returned holds the block of the position |
| FileLoader.FileLoader.ReadByte | src/fileloader.cpp:334-368 | in both modes the next byte of the file, failing exactly at its end; a cached loader that never sought reports a cache error |
| FileLoader.FileLoader.ReadBytes | src/fileloader.cpp:370-413 | in both modes the requested range and the position behind it; the loop over overlapping blocks terminates inside the file |
| FileLoader.FileLoader.SafeSeek | src/fileloader.cpp:432-450 | the position in both modes |
| FileLoader.FileLoader.SafeTell | src/fileloader.cpp:452-475 | the offset of the byte read last, in both modes |
| FileLoader.ReadingAdvances | src/fileloader.cpp:376-400 | a turn of the cached read loop makes progress if and only if the position is before the end of the file |
| FileLoader.ReadingEnds | src/fileloader.cpp:376-400 | the loop of a cached read reaches its end if and only if the range lies inside the file |
| FileLoader.UnescapeInPlace | src/fileloader.cpp:244-263 | the two-index loop leaves exactly the unescaped bytes in front and never reads behind its span |
| FileLoader.FileLoader.GetProps | src/fileloader.cpp:230-270 | the unescaped bytes of the node's span, in a buffer that grows by one step |
| FileLoader.FileLoader.ParseNode | src/fileloader.cpp:126-228 | terminates despite the step back; succeeds exactly when the file parses, in both modes, and the linked nodes spell out that parse |
| FileLoader.FileLoader.ReadNode | src/fileloader.cpp:130-226 | one turn of the loop over siblings: its outcome and the node it fills in |
| FileLoader.FileLoader.OpenFile | src/fileloader.cpp:53-124 | version check, choice of mode and cache size; opens exactly the files the grammar accepts |
| NodeFiles.NodeWriter.WriteData | src/fileloader.h:119-145 | the bytes appended are the data, escaped if asked |
| NodeFiles.NodeWriter.StartNode | src/fileloader.cpp:294-299 | a bare start bracket and the escaped type |
| NodeFiles.WriteDoc | src/fileloader.cpp:285-305 | writing a document node by node gives its encoding |
| NodeFiles.SaveAndLoad | src/fileloader.cpp:53-305 | writer, parser, links and getProps end to end: the document is returned, cached or not, if and only if it is faithful |
| NodeFiles.Perform | src/fileloader.cpp:334-545 | every in-file run of readByte, readBytes, safeSeek and safeTell shows what the plain file shows, whatever is cached |
| Forest.AttachKeepsForest | src/container.cpp:283-294 | linking a loose node below a place keeps the links acyclic if and only if the node is not at or above the place |
| Forest.BelowAfterAttach | src/container.cpp:464-501 | linking a loose node adds it and everything below it to what stands below each level above |
| Forest.BelowAfterMove | src/container.cpp:267-304 | a move within a subtree keeps the count of what stands below its top |
| Containers.Item.UpdateItemWeight | src/container.cpp:122-127 | exactly the containers from here to the top change, each by the difference; terminates |
| Containers.PushBalances | src/container.cpp:122-127 | if one container is off by a difference, pushing that difference up balances every level |
| Containers.Item.AddThing | src/container.cpp:464-501 | the item goes in front if the index is below the size, or, without a size, at most the number of items and below 255; otherwise nothing changes; weights stay exact everywhere |
| Containers.Item.InternalAddThing | src/container.cpp:754-786 | the item goes in front, whatever the index; weights stay exact everywhere |
| Containers.Item.LoadItem | src/container.cpp:93-120 | loading appends the child and pushes its weight up |
| Containers.Item.UpdateThing | src/container.cpp:503-538 | new type, and count for countable types only; nothing if the item is elsewhere; weights stay exact |
| Containers.Item.RemoveThing | src/container.cpp:588-649 | part of a stack or the whole item: the new count or the new list, and exact weights |
| Containers.Item.ReplaceThing | src/container.cpp:540-586 | the loose item takes the place at the index, the other one is let go; nothing beyond the end |
| Containers.RemainingIs | src/container.cpp:617-623 | what is left of a stack is the difference floored at 0 if and only if the count is at most 2^31 above the stack or the 16-bit cut gives 0 |
| Containers.OwnWeightIs | src/item.cpp:757-763 | a stack of k weighs k times as much as one |
| ContainerWeights.WorldWeights | src/container.cpp:122-132 | every cached weight, at every level, is the recursive sum over the contents |
| ContainerIterators.ContainerIterator.Next | src/container.cpp:878-899 | one step hands out the current item and keeps queue and cursor at the front of a breadth-first walk |
| ContainerIterators.Walkthrough | src/container.cpp:794-899 | the iterator hands out every item held at any depth exactly once, level by level, and ends |
| ContainerIterators.GetItemHoldingCount | src/container.cpp:174-181 | the number of items held at all depths |
| ContainerIterators.IsHoldingItem | src/container.cpp:183-192 | exactly the descendant relation |
| ContainerQueries.GetTopParent | src/thing.cpp:28-46 | the one place at the top of the climb; the climb ends |
| ContainerQueries.StandsAbove | src/container.cpp:283-294 | the guard loop finds the item above the container if and only if it is there |
| ContainerQueries.QueryAdd | src/depot.cpp:42-68 | accepted if and only if the depot has room for the item and everything it holds, or for one more piece of a stack, or is asked without limit, and the container accepts; a depot without room answers that it is full |
| ContainerQueries.ContainerQueryAdd | src/container.cpp:267-304 | accepted if and only if the thing is an item one can pick up, is not the container or above it, finds room, and the top of the climb agrees; which error each obstacle gives; a container at its size or without one refuses whoever does not waive the limit or name a place, and below its size never answers that there is not enough room |
| ContainerRuns.BelowAfterAdd | src/depot.cpp:42-68 | how an accepted add changes the number of items below a depot, whether the item came from inside or not |
| ContainerRuns.DepotAfterAdd | src/depot.cpp:42-68 | an add of a whole item that the depot's check accepts leaves the depot within its limit, wherever the item came from |
| ContainerRuns.RoomIsExact | src/depot.cpp:42-68 | the depot's check counts right: there is room for an item, wherever it is, if and only if the move leaves the depot within its limit |
| ContainerRuns.DepotAfterSplit | src/depot.cpp:42-68 | part of a stack: where the check was asked about another count than the stack's, the new piece leaves every depot within its limit |
| ContainerRuns.PutItem | src/container.cpp:267-304 | query, removal and add together: done exactly when accepted; then the item is in front of the target's list and out of every other, the others in their order, with exact weights, depots within their limits and containers within their sizes; nothing at all when refused |
| ContainerRuns.SplitItem | src/game.cpp:1546-1628 | the same for part of a stack: the stack loses what the piece has, in count and in weight |
| ContainerRuns.TakeItem | src/container.cpp:588-649 | what a removal leaves in every list and of the stack; depots stay within their limits and containers within their sizes |
| ContainerRuns.Run | src/container.cpp:459-787 | over every run of puts, splits, direct and internal adds, removals, updates, replacements and loads: weights exact, no container inside itself; depots within their limits and containers within their sizes while every add has been asked for |
| WalkCache.Creature.UpdateTileCache | src/creature.cpp:384-396 | one cell by its offset, nothing out of range |
| WalkCache.Creature.UpdateMapCache | src/creature.cpp:354-371 | a full refresh agrees with the world wherever there is a tile |
| WalkCache.Creature.GetWalkCache | src/creature.cpp:411-447 | 0 on other floors, 1 for the own place, 2 out of range, else the world's answer |
| WalkCache.Creature.MoveRows | src/creature.cpp:563-588 | after the row shift and refresh the fresh row is right for the new position, the other rows for the old column |
| WalkCache.Creature.MoveColumns | src/creature.cpp:590-633 | with starty and endy guarding the fresh row, the column shift and refresh leave only the place left and the place entered open |
| WalkCache.Creature.OnOwnMove | src/creature.cpp:556-642 | after a step in any of eight directions, a change of floor or a teleport the window agrees with recomputation |
| WalkCache.Creature.OnOtherMove | src/creature.cpp:644-652 | after another creature's move too |
| WalkCache.Follow | src/creature.cpp:354-652 | after every run of own moves, other moves and tile changes the window agrees with the world as it is |
| DamageSchedule.CloserIs | src/condition.cpp:1268-1272 | the comparison of the two quotients, solved for the sum |
| DamageSchedule.GenerateDamageList | src/condition.cpp:1255-1274 | terminates; the list never rises, holds exactly the values 1 to start, and each value is dealt until another one would not bring the sum so far closer to its share of the amount; the total lies between the amount and the amount plus start(start+1)/2, meeting the amount if and only if the amount is at least start(start+1)/2 |
| DamageSchedule.OneSchedule | src/condition.cpp:1255-1274 | order, range and shares determine the list: there is only one schedule for an amount and a start |
| DamageDelivery.ConditionDamage.Init | src/condition.cpp:1051-1075 | the start value chosen, a schedule queued with one interval per value, and the end that many intervals from now |
| DamageDelivery.ConditionDamage.StartCondition | src/condition.cpp:1077-1087 | unless delayed the first planned value is dealt at once; it and the rest are the plan, which for a generated list is a damage schedule of the drawn amount; when it succeeds and when it ends |
| DamageDelivery.ConditionDamage.ExecuteCondition | src/condition.cpp:1089-1128 | when a value is due; where no field matches it is popped and the end stays; in a matching field it stays on the list with its time reset and the end moves on by the interval |
| DamageDelivery.Deliver | src/condition.cpp:1089-1147 | over every run the popped values followed by the rest are the initial list; while no field matches and the condition has an end or stands in other fields, exactly the popped values are dealt and the end stays; while every tick is spent in a matching field nothing is popped, the ticks stay and the end moves on by the time gone by |
| DamageDelivery.Suffer | src/condition.cpp:1051-1147 | from the start on: what is popped, beginning with the value dealt at once, and what is left are the generated schedule, in order; without a matching field just the popped values are dealt |
| DamageDelivery.TotalDealt | src/condition.cpp:1255-1274 | a schedule that is used up has dealt at least the amount, at most start(start+1)/2 more, and just the amount if and only if that is at least start(start+1)/2 |
| EffectLedger.Creature.StartCondition | src/condition.cpp:1403-1414 | a speed condition adds its delta or the one drawn, an attribute condition its points and percentages; the modifiers grow by exactly what the started condition accounts for |
| EffectLedger.Creature.EndCondition | src/condition.cpp:493-524 | the modifiers shrink by exactly what the condition accounts for |
| EffectLedger.Creature.Merge | src/condition.cpp:1422-1450 | the listed condition takes over the new terms or keeps its own, and the modifiers follow |
| EffectLedger.MergeEnds | src/condition.cpp:349-370 | whose terms a merge leaves: an endless condition stays endless, an attribute condition ends at the later of the two ends, a speed condition at the new one |
| EffectLedger.Creature.AddCondition | src/creature.cpp:1344-1366 | merge with the condition of the same key, or start and append, or nothing; the resulting list and an exact ledger |
| EffectLedger.NewIsListed | src/creature.cpp:1344-1366 | a condition of a new key that starts is listed, with its ticks, its end so many milliseconds from now, and its effect with the draw and the percentages |
| EffectLedger.Creature.OnAddCondition | src/creature.cpp:1149-1166 | haste and paralysis drive each other out |
| EffectLedger.RivalsGo | src/creature.cpp:1149-1166 | exactly when a listed condition goes after a new haste or paralysis: it is of the rival type, not suppressed, and some rival of the default sub-id is running |
| EffectLedger.Creature.HasCondition | src/creature.cpp:1491-1507 | true if and only if such a condition is listed, still running if asked, and not suppressed |
| EffectLedger.Creature.RemoveMatching | src/creature.cpp:1380-1416 | exactly the matching conditions go, in place, and their effects with them |
| EffectLedger.Creature.ExecuteConditions | src/creature.cpp:1472-1489 | a speed or attribute condition is still listed after a round if and only if it has no end or its end is not before now, one of another class if and only if it says so; what goes takes its effect along |
| EffectLedger.LastingAre | src/condition.cpp:168-181 | which conditions are left after a round, as they were but for the round's changes |
| EffectLedger.RoundEnds | src/condition.cpp:168-181 | round by round: what stays keeps its effect and its end, and its ticks run down to 0 |
| EffectLedger.Creature.Outlast | src/creature.cpp:1472-1489 | over every run without a merge, a rival or a removal of its own, a condition with an end is there if and only if no round has come after its end |
| EffectLedger.Creature.AddAndWait | src/creature.cpp:1344-1489 | added at t with n ticks under a new key, it is there after rounds at times that do not go back if and only if the last of them came no later than t + n |
| EffectLedger.Creature.Run | src/creature.cpp:1344-1489 | over every run: one condition per type, id and sub-id; speed and every skill equal their base plus the sums over the list |
| EffectLedger.Creature.RunAndStrip | src/creature.cpp:1442-1459 | after any run, removing all conditions gives back the initial speed and skills |
| PropStreams.I32Back | src/fileloader.h:187-196 | a 32-bit image is little-endian two's complement and reads back, negative numbers included |
| PropStreams.PropWriteStream.AddType | src/fileloader.h:301-311 | appends the image; the buffer grows enough and keeps what is written |
| PropStreams.PropStream.GetType | src/fileloader.h:187-196 | the next bytes if there are enough, otherwise no movement |
| ConditionImage.LoadTakesAll | src/condition.cpp:58-69 | the read loop takes in every attribute that was written for its class |
| ConditionImage.DetailsBack | src/condition.cpp:372-421 | for every class, its attributes read into a fresh condition restore it |
| ConditionImage.SpeedBack | src/condition.cpp:1320-1401 | outfits, speed and formula come back |
| ConditionImage.DamageBack | src/condition.cpp:923-998 | the list comes back in order and the ticks are recounted from it |
| ConditionImage.HeaderBack | src/condition.cpp:236-275 | the five base attributes are read in order and pick the class |
| ConditionImage.ImageBytes | src/condition.cpp:131-151 | the image of a condition byte for byte: each attribute's code and number, class by class |
| ConditionImage.ListBytes | src/condition.cpp:977-998 | the bytes of the values in a list: skills and stats, intervals, outfits |
| ConditionImage.KnownIsABit | src/condition.h:30-57 | the types createCondition knows are the single bits from 1 to 2^23 |
| ConditionImage.RoundTrip | src/condition.cpp:58-151 | createCondition and unserialize on what serialize wrote, with or without END, restore the condition and consume exactly its bytes |
| ConditionImage.TicksAreTheSum | src/condition.cpp:956-968 | the restored ticks are the sum of the intervals if and only if the count is never stopped at -1 |
| ConditionImage.TicksCanStick | src/condition.cpp:956-968 | a concrete list whose sum is 4 and whose restored ticks are -1 |
| ConditionImage.UsualTicks | src/condition.cpp:956-968 | with intervals that are not negative they always are |
| ConditionImage.SaveThenLoad | src/iologindata.cpp:437-447 | for every list of conditions, the loader's loop over the saver's column gives back the stored ones in order |
| ConditionImage.RestoredAre | src/iologindata.cpp:839-850 | exactly the conditions with ticks left and no combat id, and the game-master mark, come back |
| ConditionSerial.Condition.Serialize | src/condition.cpp:131-151 | the bytes appended are the condition's image, class by class |
| ConditionSerial.Condition.UnserializeProp | src/condition.cpp:71-129 | one attribute: taken if the class knows it and the bytes are there, otherwise nothing changes |
| ConditionSerial.Condition.Unserialize | src/condition.cpp:58-69 | on arbitrary bytes, what the loop takes, where it stops and with which answer |
| ConditionSerial.CreateCondition | src/condition.cpp:236-275 | on arbitrary bytes, NULL exactly when the header is not in order or the type unknown |
| ConditionSerial.SaveAndLoad | src/iologindata.cpp:839-850 | saver and loader end to end on objects: the stored conditions come back restored, in order |
| Dispatcher.SafeKept | src/dispatcher.cpp:27-131 | every step of every thread keeps mutual exclusion, conservation, order, the wakeup guarantee and the shutdown guarantee |
| Dispatcher.ExactlyOnce | src/dispatcher.cpp:76-115 | in every interleaving each accepted task is either taken exactly once or waiting exactly once, and nothing else is taken |
| Dispatcher.TakenInOrder | src/dispatcher.cpp:76-97 | of two tasks added at the back the later is taken only after the earlier |
| Dispatcher.AddedInPlace | src/dispatcher.cpp:76-97 | a task added at the front is taken before every task that waits at that moment, one added at the back after every one of them, whatever is added later |
| Dispatcher.NeverForgotten | src/dispatcher.cpp:76-97 | a sleeping worker with tasks waiting always has a notification on its way |
| Dispatcher.NeverStuck | src/dispatcher.cpp:27-74 | with a task waiting and no termination some thread can go on |
| Dispatcher.HistoryKept | src/dispatcher.cpp:76-97 | over every run, nothing accepted or taken is revised, and nothing is accepted after the first stop or shutdown |
| Dispatcher.EmptyAfterShutdown | src/dispatcher.cpp:117-131 | once a shutdown has gone through, the list stays empty and nothing is accepted or taken any more |
| Dispatcher.AbandonedForGood | src/dispatcher.cpp:124-131 | a worker asleep after a shutdown with no notification pending stays asleep over every run in which the wait does not return by itself |
| Dispatcher.CanBeAbandoned | src/dispatcher.cpp:124-131 | a run that gets there |
| Dispatcher.LosesTheWorker | src/dispatcher.cpp:36-52 | after a shutdown, with no stop under way, some run without a spurious wakeup abandons the worker if and only if it is past its look at the state and before its wait, or asleep with no notification pending |
| Dispatcher.NeverAbandoned | src/dispatcher.cpp:36-74 | from every other position the worker is never abandoned and makes six more steps at most, over every run without another stop |
| Dispatcher.OutInTheEnd | src/dispatcher.cpp:36-74 | and until it is out some thread can go on without outside help |
| Dispatcher.LeavesItsLoop | src/dispatcher.cpp:36-74 | left alone, it leaves its loop |
| Dispatcher.StopHidesShutdown | src/dispatcher.cpp:117-122 | after stop the worker no longer exits until somebody shuts down again |
| TaskLists.TaskList.Add | src/dispatcher.cpp:76-97 | the locked part of addTask is the step of the system: front or back of the list while running, nothing otherwise, and a signal exactly when a running list was empty |
| TaskLists.TaskList.Take | src/dispatcher.cpp:40-52 | the locked part of the worker likewise: the first task, unless there is none or the dispatcher is terminated |
| TaskLists.TaskList.Stop | src/dispatcher.cpp:117-122 | the locked part of stop is the step of the system |
| TaskLists.TaskList.Shutdown | src/dispatcher.cpp:99-131 | state and flush are steps of the system; everything that waited is taken, in order |
| TaskLists.FlushTakesAll | src/dispatcher.cpp:99-115 | the flush takes everything that waits, in order |
| ConnectionProtocol.SoundKept | src/connection.cpp:92-661 | every event keeps a connection sound, and deletes it only unreferenced, once and as a closed one |
| ConnectionProtocol.AlwaysSound | src/connection.cpp:188-314 | over all runs: one close task at most and only in REQUEST_CLOSE, one deletion at most and only when CLOSED, one write in flight at most, the write counter 0 or 1 |
| ConnectionProtocol.NoWayBack | src/connection.cpp:92-104 | CLOSED is for ever, and OPEN never comes back |
| ConnectionProtocol.StaysOpen | src/connection.cpp:300-661 | exactly which events an open connection survives; every other one makes it ask to be closed, through one task if the dispatcher takes it |
| ConnectionProtocol.SlowClientsStay | src/connection.cpp:502-506 | the forced close of slow clients makes no difference |
| ConnectionProtocol.FloodersStay | src/connection.cpp:364-370 | going over the packet limit changes nothing but that no read is started |
| ConnectionProtocol.IdleForGood | src/connection.cpp:348-401 | once no read is outstanding, none is started again |
| ConnectionProtocol.CloseOfOpen | src/connection.cpp:188-218 | a request on an open connection leads to CLOSED in one task exactly when no write is under way |
| ConnectionProtocol.CloseAfterWrite | src/connection.cpp:555-579 | otherwise the end of the write leads there exactly when the socket was open or the write failed |
| ConnectionProtocol.RefusedRequest | src/connection.cpp:92-104 | a request whose task is refused is never served |
| ConnectionProtocol.NeverServed | src/connection.cpp:92-104 | a connection stays in REQUEST_CLOSE over every run if and only if its task is not with the dispatcher |
| ConnectionProtocol.FailedStartSilences | src/connection.cpp:519-541 | after a write that could not start, nothing is sent any more |
| ConnectionProtocol.SilencedForGood | src/connection.cpp:519-541 | an open connection never has a write in flight, over every run, if and only if a write is counted that was never started |
| ConnectionProtocol.MissingSocket | src/connection.cpp:220-296 | after onStop exactly the end of a write in flight, and timeouts with something pending or an error, get to closeSocket, which then has no socket |
| ConnectionProtocol.WriteOutlivesSocket | src/connection.cpp:220-296 | a run in which a write is still in flight after onStop |
| Connections.Connection.HandleAll | src/connection.cpp:92-661 | any run of events on the object is a run of the protocol: one close task, one deletion and one write at most, no way out of CLOSED or back to OPEN |
| AreaShapes.RotationFits | src/combat.cpp:1215-1229 | with the centre inside, no rotated cell leaves the square output |
| AreaShapes.RotationOffsets | src/combat.cpp:1188-1231 | a rotated area hits exactly the rotated offsets, as many as before |
| AreaShapes.MirrorIsRightIfSquare | src/combat.cpp:1166-1176 | a mirrored area hits the mirrored offsets if and only if rows equal columns or nothing is hit |
| AreaShapes.MirrorGoesWrong | src/combat.cpp:1166-1176 | a matrix of one row and two columns that is mirrored to the wrong place |
| AreaShapes.FlipIsRightIfSquare | src/combat.cpp:1177-1187 | a flipped area likewise |
| AreaShapes.FourthCorner | src/combat.cpp:1366-1371 | the south-east area is the north-west one turned half round if and only if the input is square or hits nothing |
| AreaShapes.CenterInside | src/combat.cpp:1234-1257 | unless nothing is drawn the centre is inside, marked or not |
| AreaShapes.BeamOffsets | src/combat.cpp:1282-1310 | setupArea(length, spread) hits exactly the rows of a beam before the caster, symmetric about the centre |
| AreaShapes.ReachGrows | src/combat.cpp:1282-1310 | no row of a beam is empty, and none is wider nearer the caster |
| AreaShapes.BeamCenter | src/combat.cpp:1282-1310 | exactly one number of a beam marks the centre, the middle one of the last row |
| CombatAreas.Rotate | src/combat.cpp:1188-1231 | the loops write only inside and leave the rotated shape |
| CombatAreas.MirrorInto | src/combat.cpp:1166-1176 | the loops leave the mirrored shape with the source's centre |
| CombatAreas.FlipInto | src/combat.cpp:1177-1187 | the loops leave the flipped shape with the source's centre |
| CombatAreas.CreateArea | src/combat.cpp:1234-1257 | number by number: 1 and 3 are hits, 2 and 3 mark the centre, and the last mark counts |
| CombatAreas.CombatArea.SetupArea | src/combat.cpp:1259-1280 | the four areas are the drawn one and its three rotations |
| CombatAreas.CombatArea.SetupExtArea | src/combat.cpp:1348-1374 | the four diagonal areas; nothing for an empty list |
| CombatAreas.CombatArea.GetArea | src/combat.h:214-244 | which of the eight areas an offset picks, diagonals only if they are set up |
| CombatAreas.AttackTurns | src/combat.cpp:1259-1280 | turning a target on an axis a quarter round turns the cells hit a quarter round, whatever the area |
| CombatAreas.CombatArea.GetList | src/combat.cpp:1111-1150 | the places hit and clear, each exactly once, of the area picked |
| CombatAreas.DrawBeam | src/combat.cpp:1282-1310 | the list the loops push is the beam |
| CombatAreas.SetupBeam | src/combat.cpp:1282-1310 | in each direction the beam's offsets, turned |
| CombatAreas.Strike | src/combat.cpp:1111-1150 | a beam goes away from the attacker: exactly the clear places from the target on, less than the length farther out, and to either side as far as one cell for each full spread |
| RentRules.FairKept | src/house.cpp:786-954 | every event at a time not before the last keeps charges spaced, warnings limited and paced |
| RentRules.ChargesApart | src/house.cpp:786-834 | over every run, any two charges of one ownership are a rent period apart, whoever asks for them |
| RentRules.WarningsLimited | src/house.cpp:877-944 | over every run, warnings never exceed the period's limit, and a free house has none |
| RentRules.NotBeforeTime | src/house.cpp:877-944 | after any history a house is taken for unpaid rent only after all warnings and not before the earliest time for its owner, however he acquired it; so no sooner than limit + 1 days after a purchase, limit days after an auction of a free house |
| RentRules.EarliestNeverFalls | src/house.cpp:786-954 | no payment, no attempt to collect and no refused change of owner brings the earliest loss nearer |
| RentRules.CanBeLost | src/house.cpp:786-954 | as things stand, the owner can lose the house for unpaid rent at a given time if and only if rent is asked for at all and the time is not before the last of now, the end of the paid time and a day after the last warning, plus a day for each warning left |
| RentRules.LostExactlyAfterGrace | src/house.cpp:105-141 | after any history, a house bought or won can be lost for unpaid rent exactly from the end of the grace on, which is spelled out for a purchase and for each outcome of an auction |
| RentRules.FreeAuctionGrace | src/iomapserialize.cpp:87-88 | the winner of a free house has a buyer's grace if and only if rent is taken on the spot, and at least limit days |
| RentRules.OwnedAuctionGrace | src/iomapserialize.cpp:87-88 | the winner of any house has a day for each warning left, and one more if rent is taken on the spot |
| RentRules.LostOnTime | src/house.cpp:877-944 | the first bound is reached |
| RentRules.LostEarly | src/iomapserialize.cpp:87-88 | the second bound is reached |
| RentRules.NoGraceAfterOwner | src/iomapserialize.cpp:87-88 | a house won from an owner is lost on the spot if and only if his warnings were used up |
| RentRules.WarningsStay | src/house.cpp:877-944 | over every run of payments and collections the owner survives, warnings only grow: paying takes none back |
| Houses.House.SetOwnerEx | src/house.cpp:105-141 | owner, warnings, paid-until and last warning after a change of owner |
| Houses.Landlord.PayRent | src/house.cpp:786-834 | when the rent is settled, until when it is paid then, and that exactly rent and bid leave the player, from the bank if that has enough, else from the depot |
| Houses.Landlord.PayHouse | src/house.cpp:836-954 | which of the outcomes a call has, branch by branch, and what it leaves; exactly when the house is lost, and exactly when the rent counts as paid |

## Left out

- Node files: files over 2 GB, failing writes and seeks, memory management (`clearNet`), and reading properties of one node while another thread does the same.
- FileLoader.FileLoader.SafeSeek: positions beyond the end of the file are not modelled.
- FileLoader.FileLoader.LoadCacheBlock: positions beyond the end of the file, where the source may give up after changing the block's base.
- FileLoader.FileLoader.GetCacheBlock: the same positions.
- FileLoader.FileLoader.ReadBytes: a cached read that reaches past the end is excluded, because the loop would not end; `FileLoader.ReadingEnds` says exactly when.
- FileLoader.FileLoader.GetProps: spans longer than the buffer after one growth step are excluded, as the source writes past its buffer there.
- NodeFiles.SaveAndLoad: the same bound on spans holds for the documents that are read back.
- FileLoader.FileLoader.ParseNode: the body of the loop is split into `ReadNode`, `ParseBody` and `LinkNext`.
- Containers: weights are integers instead of doubles; `Container::clone`, which does not add weights, decay, autostacking in `__queryDestination` and `__queryMaxCount`; client notifications.
- ContainerQueries.QueryAdd: the answer of a creature who carries the outermost container is a parameter, and tiles are not cylinders here.
- ContainerRuns.Run: direct adds, swaps and loads of items that are held, or of a container into its own contents, are skipped, as their callers never issue them.
- ContainerRuns.SplitItem: the part that goes into an existing stack of the target is an update, not a new piece; `__queryMaxCount`, which may lower the count, is left out.
- WalkCache.Creature.UpdateTileCache: a tile's own answer is an uninterpreted function of the world; cells without a tile are left as they are, and agreement is claimed only where there are tiles.
- DamageSchedule.GenerateDamageList: quotients are exact instead of floats.
- DamageDelivery.ConditionDamage.ExecuteCondition: dealing the damage is a parameter; a death in the middle of a tick is not modelled.
- EffectLedger.Creature.Merge: conditions are values owned by the list, so aliasing is not captured; conditions without speed or skill effects (damage, light, outfits, regeneration, soul) answer through parameters.
- EffectLedger.Creature.ExecuteConditions: callbacks that add or remove conditions while the list is being walked are not modelled; percentage bonuses and random speeds are arbitrary integers.
- ConditionImage.RoundTrip: fields that are not written (damage limits, internal tick counters, percentages) are not part of the value; ticks that overflow wrap in two's complement.
- ConditionSerial.Condition.UnserializeProp: an eighth skill or sixth stat, which the source writes past its arrays, is refused here.
- Strings in property streams (`getString`, `addString`), which conditions do not use.
- Dispatcher: a task that calls `addTask` from inside `flush`, which would lock a mutex twice; expired tasks are taken but not run; memory ordering of the atomic state.
- Connections.Connection.ParsePacket: checksums, protocols and encryption; what a protocol does while it handles a packet may come as events of its own before the next read.
- ConnectionProtocol.AlwaysSound: timers may fire at any time, also after they have been cancelled, and handlers may run in any order; what `closeSocket` does to a socket that is gone is not modelled beyond `ConnectionProtocol.MissingSocket`, and counts as a closed socket.
- CombatAreas.CombatArea.GetList: coordinates do not wrap at 16 bits; floors, and tiles created on the way, are left out.
- CombatAreas.Rotate: quarter turns are exact instead of going through sine and cosine.
- CombatAreas.CreateArea: lists whose length is no multiple of the row count are excluded, as the source writes past its matrix there.
- CombatAreas.CombatArea.SetupArea: the same lists.
- CombatAreas.CombatArea.SetupExtArea: the same lists.
- CombatAreas.DrawBeam: lengths below 1 and negative spreads.
- CombatAreas.SetupBeam: the same lengths and spreads.
- `setupArea(radius)`, a fixed table, and `MATRIXOPERATION_COPY`, which nothing uses.
- Houses.Landlord.PayHouse: letters, access lists, cleaning and the database; times do not wrap at 32 bits; the lookups of town, guild, name and player are parameters.
- Lua, SQL, configuration, chat, bans, guilds, beds and administration.
