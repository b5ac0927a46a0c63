# A verified model of the game server's state machines

This project models the self-contained data structures and state machines of an Open Tibia game server, and proves what they keep. One file per component:

- `node_format.dfy`, `block_cache.dfy`, `file_loader.dfy`: node files. The format and its parser as functions, the arithmetic of the read cache, and the loader as an object with its file, its three cache blocks and its buffer.
- `items.dfy`, `containers.dfy`, `forest_runs.dfy`, `moves.dfy`, `placements.dfy`, `odd_cases.dfy`: the forest of items with parent pointers and cached weights, the container operations on the objects and whole runs of them, the moves, adds and removals built on them, where things end up, and concrete worlds in which these surprise.
- `iteration.dfy`, `worths.dfy`, `money.dfy`, `payment.dfy`: the breadth-first walk over contents, what the coins in containers are worth, and counting, paying and paying out money.
- `walk_cache.dfy`: the window of walkable squares that follows a creature.
- `trade.dfy`: trades between players.
- `decay_wheel.dfy`, `creature_wheel.dfy`, `dispatcher.dfy`: the schedulers.
- `damage_list.dfy`, `speed_ledger.dfy`, `condition_stream.dfy`, `condition_io.dfy`: conditions.
- `combat_areas.dfy`: combat areas and their turns.
- `sequences.dfy`, `basics.dfy`: sums, lists without repetition and other small notions that several of the others use.

Objects whose methods update their fields are classes here, too. Their invariants are stated on values (a snapshot map of the objects, the lists of a wheel, the seats of the players), the lemmas are about these values, and the methods are proved to change the objects as the lemmas say. Answers of parts that are not modelled (scripts, clocks, random numbers, distances) are parameters that may be anything. Arithmetic is unbounded except where a width matters, which is then written out: the 16 bits of a coin stack's size, the 8 bits of a stack's count, the 32 bits of matrix centres and of serialized words.

Where the code does not do what one would expect, the model follows the code, and the exact condition is proved:

- A node whose type is one of the three special bytes is written escaped but read without undoing it. `NodeFormat.RoundTripIff` says which forests survive.
- The size of a coin stack is computed in 16 bits, so 65536 coins of one denomination come out short (`Money.MintedExact`, `Money.GreedyExact`; in the concrete case `Money.GreedyShort`).
- With FLAG_NOLIMIT and an index beyond the capacity, the new stack of a partial move is created but never placed (`Moves.Lost`; in the concrete case `OddCases.LostMove`); without the flag nothing is lost.
- `internalMoveItem` reports success when nothing fits, exactly when `Moves.StaysSilent` says so: a place is named in a full container and no stack with room stands there (`OddCases.SilentMove`).
- `internalAddItem` gets stuck half-way, with a remainder, exactly when `Moves.Stuck` holds: stacking is off, the stack named is too small for all pieces, and no slot is free (`OddCases.StuckAdd`).
- `internalAddItem` exceeds a capacity without FLAG_NOLIMIT exactly when `Moves.Overfills` holds: a new stack goes into a full container, for which stacking must be off and an index named (`OddCases.OverfilledAdd`).
- When money is removed, the change for the last stack comes out short exactly if it needs some denomination 65536 times. The change follows from the stacks before the call (`Payment.ChangeDue`, `Payment.RemoveMoney`; in the concrete case `OddCases.ShortChange`).
- A cached read that reaches beyond the file starts in one of three ways. In the file, or at the base of a block behind it, the loop never ends (`FileLoaders.FileLoader.ReadForEver`). Inside a block behind the end that is not loaded, it is refused (`FileLoaders.FileLoader.ReadCachedBytes`). Inside such a block that is loaded, a subtraction wraps around (`FileLoaders.FileLoader.OffsetInside`), and the source copies bytes that are not in the file.
- An item added at the index of a bag is refused if the container around that bag is full, even if the bag has room (`Placements.AddSingle`).
- A move to a full container uses the room of one stack only, even if others have room, too (`Placements.MoveToFull`).
- A seek behind the end that is refused has filled a slot all the same, so it succeeds when repeated, exactly if all slots were in use (`FileLoaders.FileLoader.SafeSeek`).
- A player may accept a trade before there is a counter-offer, and then gives his item for whatever the other offers later. The terms carried out are those accepted exactly if there was an offer to accept (`Trade.Informed`, `Trade.DealInforms`; in the concrete case `Trade.AcceptedUnseen`).
- An accepted trade carries out the second move without looking at its result, so one player may get both items (`Trade.AcceptedUnseen`), and a denied one leaves both players in the accepted state (`Trade.Game.PlayerAcceptTrade`).
- Haste and paralysis are together on a creature after an add exactly if they would be and the one to be driven out is suppressed (`SpeedLedger.SettledExcludes`; in the concrete case `SpeedLedger.BothAtOnce`).

## Model

| member | source | states |
|---|---|---|
| NodeFormat.RoundTripIff | src/fileloader.cpp:111-209 | a written forest of nodes is read back with its types, shape and property bytes if and only if every node type is no start or end byte, and is the escape byte only in front of properties that begin with escape bytes followed by an ordinary byte |
| NodeFormat.RoundTrip | src/fileloader.cpp:111-282 | every forest whose node types are below 0xFD is read back exactly, and the parse ends at the end of the file |
| NodeFormat.SpecialTypeIsLost | src/fileloader.cpp:111-209 | the concrete node that does not come back: its type is the start byte |
| NodeFormat.ParseEncode | src/fileloader.cpp:111-209 | wherever a surviving forest stands in a file, in front of the end or of the parent's end byte, parsing yields it and stops right behind it |
| NodeFormat.ParseEncodeFails | src/fileloader.cpp:111-209 | a forest that does not survive never comes back, wherever it stands |
| NodeFormat.EncodeLayout | src/fileloader.cpp:262-282 | the bytes of a node, its properties, children and siblings each lie at their place |
| NodeFormat.UnescapeEscape | src/fileloader.h:126-148 | unescaping inverts the escaping of writeData for all bytes, and escaped data never ends inside an escape |
| NodeFormat.FileEnds | src/fileloader.cpp:104-282 | every file that nodes were written to begins with four zero bytes and 0xFE and ends with 0xFF |
| NodeFormat.SampleBytes | src/fileloader.h:111-148 | a node of type 1 with the properties FD 07 FE and a child of type 2 is, byte for byte, 00 00 00 00 FE 01 FD FD 07 FD FE FE 02 FF FF, and these bytes parse into it |
| NodeFormat.BrokenFiles | src/fileloader.cpp:111-209 | concrete files that are refused: cut off inside a node or behind an escape byte, or with a byte between two nodes |
| NodeFormat.ParseNodeSound | src/fileloader.cpp:111-209 | whatever the bytes, a finished parse describes property ranges inside the file that end on escape boundaries |
| BlockCache.CacheSizes | src/fileloader.cpp:87-92 | the four cache sizes openFile can choose, and for which files it is 24576 |
| BlockCache.BitAndMask | src/fileloader.cpp:446-464 | a mask with k low one bits keeps the remainder by 2^k and masks the rest |
| BlockCache.PowerOfTwoBase | src/fileloader.cpp:466-512 | for a power of two the block base is the multiple of the size below the position |
| BlockCache.OddSizeBase | src/fileloader.cpp:466-512 | for 24576 the bases are 0 or 8192 above a multiple of 32768, so that blocks overlap |
| FileLoaders.FileLoader.LoadCacheBlock | src/fileloader.cpp:466-512 | the chosen slot then holds the file from the block base on, whichever slot is evicted; it fails exactly for positions behind the end of the file and inside the block, and then leaves the slot loaded if all slots were in use |
| FileLoaders.FileLoader.GetCacheBlock | src/fileloader.cpp:446-464 | a slot whose block belongs to the position, or none exactly if the position lies behind the end and inside a block that is not loaded |
| FileLoaders.FileLoader.ReadByte | src/fileloader.cpp:313-346 | with or without cache: the file's byte at the logical position, which moves by one, or failure at the end |
| FileLoaders.FileLoader.ReadBytes | src/fileloader.cpp:348-389 | with or without cache: a request within the file fills the buffer with just those bytes of the file, one that starts where no block can be had is refused, and without cache any request reaching beyond the file is |
| FileLoaders.FileLoader.ReadCachedBytes | src/fileloader.cpp:348-376 | the loop over blocks terminates for requests within the file and gives the bytes of the file across block borders; for a request that starts behind the end in a block that is not loaded it fails |
| FileLoaders.FileLoader.ReadFromBlock | src/fileloader.cpp:353-374 | one round of the loop: when it is refused, what it copies, and that it copies nothing exactly when nothing remains or the file has ended |
| FileLoaders.FileLoader.ReadForEver | src/fileloader.cpp:353-374 | a cached request that reaches beyond the file and is not refused: after any number of rounds something remains, so the loop is never left |
| FileLoaders.FileLoader.OffsetInside | src/fileloader.cpp:364 | the subtraction `size - m_cache_offset` wraps around exactly for a position behind the end of the file and inside its block |
| FileLoaders.FileLoader.SafeSeek | src/fileloader.cpp:406-422 | the logical position is the one asked for; refused exactly behind the end in a block that is not loaded, and when the same seek is repeated it succeeds if and only if all slots were in use |
| FileLoaders.FileLoader.SafeTell | src/fileloader.cpp:424-444 | gives the logical position |
| FileLoaders.Replay | src/fileloader.cpp:313-444 | over every sequence of accesses within the file the cached loader answers exactly as the plain file does |
| FileLoaders.FileLoader.ScanNode | src/fileloader.cpp:111-209 | the inner loop links the children it meets and computes what the format says of these bytes |
| FileLoaders.FileLoader.ParseNode | src/fileloader.cpp:111-209 | the nested loops, with the seek back after two end bytes, build a structure that represents just the parse of the bytes |
| FileLoaders.FileLoader.GetProps | src/fileloader.cpp:211-248 | gives the unescaped property bytes of the node |
| FileLoaders.FileLoader.UnescapeBuffer | src/fileloader.cpp:211-248 | the in-place loop leaves the unescaped bytes at the front of the buffer |
| FileLoaders.FileLoader.WriteData | src/fileloader.h:126-148 | appends the data, escaped if asked for |
| FileLoaders.FileLoader.WriteForest | src/fileloader.cpp:262-282 | the calls of startNode, setProps and endNode append the encoding of the forest, whose bytes FileEnds and SampleBytes pin |
| FileLoaders.StoreAndLoad | src/fileloader.cpp:51-282 | writing a forest into a file and reading it, with any cache, succeeds with the same forest just when the forest survives; the file begins with four zero bytes and 0xFE and ends with 0xFF, and the bytes of the sample node are given |
| FileLoaders.LoadSample | src/fileloader.cpp:51-209 | the loader reads fifteen given bytes into the node and the child they stand for |
| ItemForest.PropagateWeighed | src/container.cpp:124-130 | adding a difference to a container and everything around it restores the sums that were off by it |
| ItemForest.PropagateTotals | src/container.cpp:124-130 | the propagation adds the difference once to the container and to each around it, and to no other |
| ItemForest.AddedSound | src/container.cpp:436-456 | after an add: parent pointers and lists agree, no cycle, every weight the sum of the children's weights |
| ItemForest.RemovedSound | src/container.cpp:503-535 | the same after a removal |
| ItemForest.RestackedSound | src/container.cpp:458-479 | the same after a change of a stack |
| ItemForest.ReplacedSound | src/container.cpp:481-501 | the same after a replacement |
| Containers.Game.UpdateItemWeight | src/container.cpp:124-130 | the recursion over the parents is the propagation, and nothing else changes |
| Containers.Game.AddThing | src/container.cpp:436-456 | the item is in front of the list with the container as its parent, or, beyond the capacity, nothing happens; the container and everything around it grow by the weight of the id times the count for a stack, by the weight of the id for a single item, and by that and the contents for a container; no other cached weight changes |
| Containers.Game.UpdateThing | src/container.cpp:458-479 | a listed item gets its new id and count; for a stack of the same kind the container and everything around it change by the weight of the id times the difference of the counts |
| Containers.Game.RemoveThing | src/container.cpp:503-535 | a part of a stack is taken off its count, a whole item leaves the list and loses its parent; the container and everything around it lose the weight of the id times the pieces taken, or the weight of the single item |
| Containers.Game.ReplaceThing | src/game.cpp:2502-2516 | the new item stands where the replaced one stood, which has no parent any more; the container and everything around it change by the difference of their weights |
| Containers.StackWeighs | src/item.cpp:745-751 | a stack weighs the weight of its id times its count, any other item the weight of its id |
| Containers.Game.QueryAdd | src/container.cpp:250-289 | the answer; in particular an item is refused exactly if the container is it or lies in it |
| Containers.Game.IsAround | src/container.cpp:250-289 | the loop over the parents finds an item just when it is around the container |
| Containers.Game.QueryMaxCount | src/container.cpp:291-338 | free slots times a hundred plus the free places on equal stacks, and when that is too little |
| Containers.Game.CountRoom | src/container.cpp:291-338 | the loop over the list sums up the free places of all stacks the item can join |
| Containers.Game.QueryDestination | src/container.cpp:362-429 | the container, index and stack an item goes to, as Destination gives them, which DestinationIsTarget, StackResolved and DestinationStacks pin |
| Containers.Game.DestinationIsTarget | src/container.cpp:362-409 | index 254 leads to the container around, an index within the capacity that names a container of the list leads into that, and every other index to the container itself |
| Containers.Game.DestinationStacks | src/container.cpp:411-428 | unless stacking is off, a stack with room is named whenever there is one |
| ForestRuns.Run | src/container.cpp:250-535 | over every run of adds, updates, removals and replacements behind their queries: an item is in a list exactly if the list's owner is its parent, nothing contains itself, and every cached weight is the sum over the list of weight times count for stacks, weight for single items, and the cached weights of the containers in it |
| ForestRuns.Plainly | src/container.cpp:124-535 | what the invariant says of an object, in terms of its fields |
| Moves.InternalMoveItem | src/game.cpp:1609-1786 | every move in or between containers keeps the forest and its weights, all stacks within 1 to 100 and, without FLAG_NOLIMIT, the capacities; the amount of every item id is unchanged, except for what is given as lost under FLAG_NOLIMIT; the lists and stacks the move is about end up as stated, every other list and every other item is as before, and nothing new appears but the moved stack; an item that lies nowhere is added without limit, or refused by the checks of an add; whatever is new, has grown or has another parent lies right in the container that the index leads to, and no other container has gained anything |
| Moves.StaysSilent | src/game.cpp:1671-1697 | success is reported without moving anything, for an item not dropped onto itself, exactly if a place is named in a full container and no stack with room stands there |
| Moves.GoFits | src/game.cpp:1671-1705 | what passes the queries finds a free slot for its remainder |
| Moves.PlanIsTarget | src/game.cpp:1609-1660 | what is moved goes to the container that the index leads to, and nothing is lost there once the flags are dropped |
| Placements.MoveWelcome | src/game.cpp:1609-1786 | an item against which nothing speaks, for which there is a free slot: all the pieces asked for leave their place and end up in the bag that the index names, in the container around for 254, or in the cylinder itself, and nowhere else |
| Placements.MoveBarred | src/game.cpp:1671-1720 | nothing moves if the item cannot be carried or taken, is not in the list, would lie in itself, or the target belongs to an offer of a trade |
| Placements.MoveOntoStack | src/container.cpp:405-428 | the stack named, or with stacking on the first one with room, is filled up first, to 100 or by all the pieces |
| Placements.MoveToFull | src/game.cpp:1692-1786 | a full container takes just what that one stack has room for, and reports whether it was everything |
| Placements.AddSingle | src/game.cpp:1963-2034 | a single item goes into the container that the index leads to, exactly if it may lie there and both that container and the one asked have a free slot, or limits are off |
| Placements.AddStack | src/game.cpp:1963-2034 | a stack is added whole, exactly if it may lie there and a hundred per free slot and the places on the stacks of its kind suffice, or limits are off |
| Moves.CheckMove | src/game.cpp:1609-1705 | the queries in their order give the plan of the move |
| Moves.ResolveDestination | src/game.cpp:1609-1660 | at most one redirection, by which the flags are dropped, to where DestinationIsTarget says |
| Moves.MoveStack | src/game.cpp:1706-1786 | the pieces that fit join the stack at the destination, the others are one new stack; all are accounted for |
| Moves.InternalAddItem | src/game.cpp:1963-2034 | all or nothing: the answer and the remainder are given for every input; a refused or tested add changes nothing at all; a successful one only lets stacks of the kind in the destination grow, puts at most one new stack there, and adds just the pieces of the item; it gets stuck, with only the stack named filled up, exactly if stacking is off, the stack named is too small and the container is full; without FLAG_NOLIMIT the capacities hold afterwards if and only if no new stack goes into a full container; everything new lies right in the container that the index leads to; terminates |
| Moves.OverfillsOnly | src/game.cpp:1963-2034 | a new stack goes into a full container only with FLAG_NOLIMIT or for a caller that turns stacking off, names an index of that container and adds a stackable item |
| Moves.InternalRemoveItem | src/game.cpp:2036-2068 | refused exactly for an item that lies nowhere or cannot be removed, for no pieces and for more than a stack has, movable or not, and then nothing changes; otherwise just the pieces asked for leave the item's container, an item used up is gone, and no other list or item changes |
| OddCases.StuckInput | src/game.cpp:1996-2018 | the concrete add that gets stuck: 50 pieces for a full container with room for 80, of which 10 remain |
| OddCases.StuckAdd | src/game.cpp:1963-2034 | that world exists, and the add in it ends so |
| OddCases.OverfillsInput | src/game.cpp:2026-2027 | the concrete add of a stack to a full container |
| OddCases.OverfilledAdd | src/game.cpp:1963-2034 | that world exists, and the container then holds more than its capacity |
| OddCases.LostInput | src/game.cpp:1706-1786 | the concrete move under FLAG_NOLIMIT that loses 10 of 50 pieces |
| OddCases.LostMove | src/game.cpp:1609-1786 | that world exists: 110 pieces before the move, 100 after it |
| OddCases.SilentInput | src/game.cpp:1692-1697 | the concrete move of 50 pieces onto a complete stack in a full bag, answered by success |
| OddCases.SilentMove | src/game.cpp:1609-1786 | that world exists, and after the move the 50 pieces are where they were |
| Moves.RemainderFits | src/game.cpp:1996-2026 | the remainder of a split stack passes the checks again, exactly unless stacking is off, limits apply and no slot is free |
| Moves.TopUp | src/game.cpp:1996-2026 | filling up a stack and the item that carries the other pieces |
| Iteration.ContainerIterator.constructor | src/container.cpp:648-656 | the walk starts with all contents still to come |
| Iteration.ContainerIterator.Advance | src/container.cpp:663-679 | one more item has been visited, which had not been before, and the queue and cursor still describe what is to come |
| Iteration.AdvanceKeeps | src/container.cpp:663-679 | the step on values: the queue invariant and what is still to come |
| Iteration.WalkVisits | src/container.cpp:648-679 | every item visited lies in the container, none twice, and at the end all of them have been |
| Iteration.GetItemHoldingCount | src/container.cpp:171-178 | the number of items in the container at any depth |
| Iteration.IsHoldingItem | src/container.cpp:180-188 | true exactly if the item lies in the container at any depth |
| Money.MintedExact | src/game.cpp:2398-2419 | the rounds for one denomination never create too many coins, and the right number exactly if the count is below 65536, because the size is computed in 16 bits |
| Money.GreedyShort | src/game.cpp:2398-2419 | the concrete failure: paying 65536 in coins of worth 1 creates 65437 |
| Money.PlaceStack | src/game.cpp:2405-2414 | a stack goes right into the cylinder exactly if the checks of an add admit it there, and else onto the tile, or nowhere if nothing may be dropped |
| Money.GreedyExact | src/game.cpp:2388-2419 | with a coin of worth 1 the loop pays the amount exactly if no denomination is needed 65536 times, and never more |
| Money.GreedyLeaves | src/game.cpp:2388-2419 | each denomination is used as often as it can be: behind the first k of them less than one coin of the k-th is still owed |
| Money.DenseFits | src/game.cpp:2388-2419 | when neighbouring denominations are at most a factor of 65536 apart, every count fits |
| Money.AddMoney | src/game.cpp:2382-2426 | every new coin lies right in the cylinder or on its tile; none goes to the tile if limits are off or the cylinder still has a free slot at the end; no list or stack elsewhere changes; what the two hold grows by what the greedy loop pays, which is the amount if and only if every count fits 16 bits; of every id exactly as many coins appear as that loop gives; all stacks stay within 1 to 100 |
| Worths.TotalChanges | src/game.cpp:2382-2426 | the worth of all that lies in containers follows from the amounts of the ids |
| Worths.PurseFollows | src/game.cpp:2282-2426 | when money is taken and paid only in the cylinder and on its tile, what the two hold at any depth changes by just what the whole world's worth changes |
| Worths.OutsideSame | src/game.cpp:2282-2426 | everything else is worth what it was, whatever the nesting |
| Worths.PurseSplits | src/game.cpp:2249-2324 | what two containers that lie apart hold together is the sum of what each holds |
| Payment.Gather | src/game.cpp:2249-2324 | the two loops over the queue of containers count every nested coin once, whatever the nesting, and the multimap holds just the stacks of worth, cheapest first |
| Payment.GetMoney | src/game.cpp:2237-2280 | the sum over everything that lies in the cylinder at any depth, plus the balance of a player |
| Payment.ChangeDueBy | src/game.cpp:2341-2368 | the change does not depend on the order of stacks of equal worth: it is found by taking any cheapest stack first |
| Payment.ChangeAgrees | src/game.cpp:2341-2368 | the change computed from the stacks before the call is the one the ascending multimap leads to |
| Payment.RemoveMoney | src/game.cpp:2282-2380 | succeeds exactly if the sum is not positive or the funds cover it; then the coins in the cylinder and on its tile at any depth, counted once, together with the balance fall by exactly the sum, if and only if the change due, which is a function of the stacks in the cylinder before the call, needs no denomination 65536 times; otherwise by just as much more as the greedy loop pays too little; the balance pays only what the coins do not cover, no stack left in the cylinder is worth less than one taken, the change lies in the cylinder or on its tile, and no list or stack elsewhere changes; when it fails nothing is touched |
| Payment.Spend | src/game.cpp:2341-2368 | exactly the first stacks of the ascending multimap leave the world, all but the last of them fall short of the sum, what they are worth too much is the change due and is handed back, and nothing is owed unless all of them fall short |
| Payment.OutsideIsClear | src/game.cpp:2282-2380 | a container that neither is nor lies in the cylinder has nothing taken from its list |
| Payment.TakenSparesNone | src/game.cpp:2341-2368 | whichever first part of the multimap is taken, no stack left is worth less than one taken |
| Payment.ChangeFits | src/game.cpp:2346-2349 | with dense denominations the change of a stack is always paid in full |
| OddCases.ShortInput | src/game.cpp:2346-2349 | the concrete removal that comes out short: a piece worth 65537, 1 to be paid, coins of worth 1, and 65536 due |
| OddCases.ShortChange | src/game.cpp:2282-2380 | that world exists, and removing 1 from it costs 100 |
| WalkCache.Creature.OnOwnMove | src/creature.cpp:558-637 | a window that agreed with the world around the old position agrees around the new one, for steps in all eight directions; a teleport or change of floor makes it agree whatever it held |
| WalkCache.Creature.MoveRows | src/creature.cpp:563-587 | rows come from where they belong, the freed one is asked anew |
| WalkCache.Creature.MoveColumns | src/creature.cpp:589-629 | the same for columns, and the row that was asked anew stays |
| WalkCache.Creature.UpdateMapCache | src/creature.cpp:389-404 | afterwards the window agrees; where there is no tile the old entry stays |
| WalkCache.Creature.OnOtherMove | src/creature.cpp:638-648 | another creature's move keeps the agreement |
| WalkCache.Creature.OnTileChange | src/creature.cpp:458-478 | so does a change of a square that is reported |
| WalkCache.Creature.GetWalkCache | src/creature.cpp:429-456 | a window that agrees answers as the world would, and 2 exactly outside the window or without one |
| WalkCache.Follow | src/creature.cpp:519-648 | over every run of steps, teleports, changes of floor, moves of others and changes of squares the window goes on showing the world |
| WalkCache.WindowSquares | src/creature.h:461-489 | the window shows 23 by 23 squares around the creature |
| Trade.StartKeeps | src/game.cpp:3452-3484 | a request or counter-offer keeps the partnership a symmetric matching and the register exact, and the partner of a counter-offer has an item to show |
| Trade.CloseKeeps | src/game.cpp:3760-3804 | closing a trade frees both players and withdraws just their offers |
| Trade.TransferKeeps | src/game.cpp:3518-3532 | in the middle of a transfer everybody else's trades are as before |
| Trade.DealInforms | src/game.cpp:3486-3532 | the terms carried out are those the earlier player accepted, exactly if the other had made an offer by then |
| Trade.Game.PlayerRequestTrade | src/game.cpp:3344-3450 | a request starts a trade exactly if its checks pass and either both players are free or the player has been asked by this partner, whatever the state of the partner; the whole new state |
| Trade.Game.InternalStartTrade | src/game.cpp:3452-3484 | a trade starts exactly if both players are free or the player has been asked by this partner; state, partner and item of both afterwards; the offer shown to a counter-offerer is never missing |
| Trade.Game.PlayerAcceptTrade | src/game.cpp:3486-3592 | items change hands exactly if the player may accept, his partner had accepted, both have offered, no script denies it and all the tests and the first move succeed, the second one only if the second move does; the pair is free afterwards; a denied trade leaves both accepted; what the player saw on offer when he accepted is recorded |
| Trade.Game.InternalCloseTrade | src/game.cpp:3760-3804 | the whole new state; called during a transfer it leaves the pair alone |
| Trade.Game.Run | src/game.cpp:3344-3804 | over every run the invariant holds, only accepting hands anything over, and whatever changed hands was one of two offers of players who were both found in the accepted state when the transfer began; the later of the two had seen what he gets, and the earlier had seen just what he gets if and only if there was an offer to see when he accepted |
| Trade.OrdinaryTrade | src/game.cpp:3344-3592 | a request, a counter-offer and two acceptances hand over both items, each player having seen what he gets, and leave both free |
| Trade.AcceptedUnseen | src/game.cpp:3344-3592 | the concrete run: one player accepts at once, the other then offers anything and accepts, and the items change hands; if the second move fails only the first item does |
| DecayWheel.TicksBound | src/game.cpp:5554-5604 | an item entering with D of at least 1000 has a number k of ticks with D - 875 < 250 k <= D, and 1 tick below 1000 |
| DecayWheel.VisitIsDue | src/game.cpp:5575-5597 | a visit ends an item exactly in the tick it is due, and otherwise puts it where it will be visited in time |
| DecayWheel.SettleKeeps | src/game.cpp:7067-7076 | a pending item enters a bucket from which it will expire when its duration says |
| DecayWheel.Wheel.StartDecay | src/game.cpp:5525-5538 | an item that can decay and does not yet is pending from now on, once |
| DecayWheel.Wheel.InternalDecayItem | src/game.cpp:5540-5552 | the item is removed, and if its kind has a next one that decays, a new item of that kind is pending with its whole duration |
| DecayWheel.Wheel.VisitItem | src/game.cpp:5559-5600 | what one round of the loop does to the item, the bucket and the iterator |
| DecayWheel.Wheel.CheckDecay | src/game.cpp:5554-5604 | every item of the wheel either rides on and stays decayable, expires in just the tick it is due, or, being no longer decayable, is dropped at its visit; what expired before stays recorded |
| DecayWheel.Wheel.Cleanup | src/game.cpp:7059-7077 | every pending item gets its bucket, and no other is moved |
| DecayWheel.TickOn | src/game.cpp:5554-5604 | one tick, in which every item that is followed from the start of a run keeps to its schedule |
| DecayWheel.Run | src/game.cpp:5525-5604 | over every run each decaying item is in exactly one bucket or the pending list, once, and what expired did so when due; an item that can decay at the start and whose removal nothing else causes is still on the wheel before its tick is reached, and from that tick on has expired in it |
| CreatureWheel.OncePerTurn | src/game.cpp:4918-4963 | ten rounds in a row visit a vector exactly once |
| CreatureWheel.Wheel.AddCreatureCheck | src/game.cpp:4893-4907 | a creature is pending once, with one reference more, if it was in no vector, and checked unless removed |
| CreatureWheel.Wheel.RemoveCreatureCheck | src/game.cpp:4909-4916 | the flag is cleared, the seat kept until the next visit |
| CreatureWheel.Wheel.CheckCreatures | src/game.cpp:4918-4963 | with scripts adding and removing creatures all along: a creature loses its seat exactly if it is found unchecked at its turn, all others of the vector are visited and think once, in their order, unless they die, and the numbers, places and references stay consistent |
| CreatureWheel.Wheel.VisitNext | src/game.cpp:4948-4960 | one round of the loop: a visit more for a checked creature, the end of its seat for another |
| CreatureWheel.Wheel.Turn | src/game.cpp:4893-4963 | over any events with ten rounds among them, scripts within the rounds and adds and removals between them included: a creature, pending at first or not, that keeps its seat is visited exactly once, in the round of its vector; one that is checked and left alone keeps it, one that is unchecked and left alone loses it |
| CreatureWheel.Wheel.Perform | src/game.cpp:4893-4963 | what one event does to every seat and flag |
| Dispatcher.Safe | src/dispatcher.cpp:24-84 | after every interleaving of worker, producers, shutdown and spurious wake-ups: finished, local and shared tasks are the accepted ones in order, the lock is held by one thread, no wake-up is lost |
| Dispatcher.KeepsOrder | src/dispatcher.cpp:24-84 | every step keeps finished tasks, local list and shared list the accepted tasks in order |
| Dispatcher.KeepsSignals | src/dispatcher.cpp:24-84 | a waiting worker with work in the list implies a producer between its push and its signal |
| Dispatcher.KeepsExclusive | src/dispatcher.cpp:24-84 | every step keeps the lock with the one thread that is inside |
| Dispatcher.KeepsCount | src/dispatcher.cpp:40-48 | the cycle counter is the number of executed tasks; only tasks that can expire are skipped; the worker ends only for a shutdown |
| Dispatcher.OnceInOrder | src/dispatcher.cpp:24-84 | what is done stays done and is a prefix of the accepted tasks, so each runs at most once |
| Dispatcher.WakesUp | src/dispatcher.cpp:54-71 | a waiting worker with work is woken by one or two steps of a producer that needs no lock |
| Dispatcher.Deliverable | src/dispatcher.cpp:24-84 | from every reachable state before a shutdown all accepted tasks can still be handled: no deadlock, no task left lying |
| Dispatcher.AddedIsHandled | src/dispatcher.cpp:57-71 | a task added while the dispatcher runs can be handled behind all the tasks before it, and one added later is dropped |
| DamageList.CloserIff | src/condition.cpp:1340-1350 | the floating-point comparison, over the reals: another hit is added exactly if more than half of it is missing |
| DamageList.AddHits | src/condition.cpp:1343-1350 | after a round the sum is within half a hit of its target |
| DamageList.GenerateDamageList | src/condition.cpp:1328-1352 | when start is smaller than the amount: hits that never grow, each from 1 to start, that sum up to just the amount, such that at every height i the hits of at least i miss (start + 1 - i) * amount / start by at most half of i, and by less than half above it if i occurs; by OnlyOne no other list does that; one hit of start otherwise, none when start is 0 |
| DamageList.OnlyOne | src/condition.cpp:1339-1350 | two falling lists that are fair at every height are the same list |
| DamageList.ThreeFromTwo | src/condition.cpp:1339-1350 | an amount of 3 from 2 on gives 1, 1, 1 and no other list |
| DamageList.ConditionDamage.AddDamage | src/condition.cpp:1065-1094 | the entries added, the ticks, and the periodic and refused cases |
| DamageList.ConditionDamage.Init | src/condition.cpp:1096-1125 | the list deals the whole amount in fair hits, or one hit that is at least as large, and lasts one interval per hit; the first hit asked for is a twentieth of the amount, rounded up, unless given; when it fails |
| DamageList.ConditionDamage.ExecuteList | src/condition.cpp:1149-1173 | what is dealt and what is still in the list stay the same in sum |
| SpeedLedger.Creature.AddCondition | src/creature.cpp:1422-1442 | merged into a condition with the same type, id and sub-id, or joined to the list; no two share all three; the speed is always the creature's own plus what the conditions in the list owe |
| SpeedLedger.SettledExcludes | src/creature.cpp:1165-1195 | haste and paralysis are together after an add exactly if they would be and the one to be driven out is suppressed |
| SpeedLedger.BothAtOnce | src/creature.cpp:1422-1442 | the concrete case: haste, then paralysis on a creature for which haste is suppressed, and it has both and pays for both |
| SpeedLedger.HasteLasts | src/creature.cpp:1543-1558 | a haste is over exactly when the clock is past its start and its ticks, and its speed with it |
| SpeedLedger.Creature.MergeCondition | src/condition.cpp:1498-1527 | an everlasting condition is not shortened; any other takes over time and speed, and the difference is paid |
| SpeedLedger.Creature.ChangeSpeed | src/game.cpp:4965-4971 | the variable speed changes by just the difference; a creature at a standstill gives up its walk |
| SpeedLedger.Creature.RemoveType | src/creature.cpp:1458-1473 | just the conditions of the type are gone, in the order of the others, and the ledger is right |
| SpeedLedger.Creature.RemoveConditions | src/creature.cpp:1515-1530 | just the persistent, or all, are gone; without conditions the speed is the creature's own |
| SpeedLedger.Creature.ExecuteConditions | src/creature.cpp:1543-1558 | just those whose time is over are gone, and the ledger is right |
| SpeedLedger.Run | src/creature.cpp:1422-1558 | over every run of adding, merging, expiring and removing, ending all conditions restores the speed |
| ConditionStream.RoundTrip | src/condition.cpp:241-290 | createCondition and unserialize on what serialize wrote and the end byte give back every serialized field, for every class modelled, and consume nothing beyond |
| ConditionStream.RoundTripAll | src/iologindata.cpp:426-435 | so for any list of conditions one behind the other |
| ConditionStream.HasteBytes | src/condition.cpp:136-153 | the bytes of a saved haste, one by one, up to the end byte |
| ConditionStream.BodyBytes | src/condition.cpp:420-437 | the bytes that regeneration, soul, attributes and outfits write of their own |
| ConditionStream.ClassOf | src/condition.cpp:187-239 | which condition types make which class |
| ConditionStream.CreateHeader | src/condition.cpp:241-290 | the five common attributes are read back in their order, the sign of the id included |
| ConditionStream.ReadAttributes | src/condition.cpp:390-437 | the skills and stats written one by one fill their arrays in order |
| ConditionStream.ReadSpeed | src/condition.cpp:1397-1478 | outfits, speed and the four formula words come back |
| ConditionIO.PropWriteStream.Reserve | src/fileloader.h:342-358 | there is room, and nothing written is lost |
| ConditionIO.PropWriteStream.AddType | src/fileloader.h:310-316 | the bytes are appended |
| ConditionIO.PropStream.GetType | src/fileloader.h:195-205 | the next bytes, or failure without moving |
| ConditionIO.Condition.Serialize | src/condition.cpp:136-153 | appends the encoding of the condition's class |
| ConditionIO.Condition.Unserialize | src/condition.cpp:62-71 | the loop computes what the format says of the bytes, malformed ones included |
| ConditionIO.Condition.CreateCondition | src/condition.cpp:241-290 | the same for the common attributes |
| ConditionIO.SaveAndLoad | src/iologindata.cpp:810-820 | saving a player and loading it gives the saved conditions, field by field and in order |
| ConditionIO.SavedIff | src/iologindata.cpp:810-820 | which conditions are saved |
| CombatAreas.MatrixArea.Construct | src/combat.cpp:1226-1256 | the loops turn the matrix: where every cell and the centre goes for 90, 180 and 270 degrees |
| CombatAreas.TurnedOnce | src/combat.cpp:1229-1237 | a turn by 90, 180 or 270 degrees gives every cell, so its result is unique |
| CombatAreas.TwoTurns | src/combat.cpp:1238-1242 | two quarter turns are the half turn |
| CombatAreas.ThreeTurns | src/combat.cpp:1243-1251 | three of them are the turn by 270 degrees |
| CombatAreas.FourTurns | src/combat.cpp:1226-1256 | four of them are the identity, cells and centre |
| CombatAreas.TurnBack | src/combat.cpp:1226-1256 | a turn by 270 degrees is undone by a quarter turn |
| CombatAreas.TurnsOffsets | src/combat.cpp:1229-1237 | the cell at offset (dx, dy) from the centre goes to (-dy, dx) |
| CombatAreas.TurnKeepsCount | src/combat.cpp:1229-1237 | a quarter turn conserves the number of set cells |
| CombatAreas.TurnsKeepCount | src/combat.cpp:1229-1237 | so do the turns by 180 and 270 degrees: they conserve the number of set cells |
| CombatAreas.CreateArea | src/combat.cpp:79-107 | the matrix has a set cell for every 1 and 3 and its centre at the last 2 or 3 |
| CombatAreas.SmallArea | src/combat.cpp:79-107 | the matrix of a concrete vector |
| CombatAreas.CombatArea.SetupArea | src/combat.cpp:1300-1311 | the four directions hold the four turns of the matrix |
| CombatAreas.SpreadVector | src/combat.cpp:1313-1344 | the loops fill row y in the columns k + 1 to cols - k for k = (y - 1) / spread |
| CombatAreas.BeamShape | src/combat.cpp:1313-1344 | the beam is three columns wide in front of the caster if spread divides its length and one otherwise, and two columns wider every spread rows away |
| CombatAreas.CombatArea.SetupSpread | src/combat.cpp:1313-1344 | the closed form for the area facing north, with its centre in the middle of the last row, and its turns for the other directions |

## Left out

- FileLoaders.FileLoader.ReadBytes: cached requests beyond the file for which the loop does not end, which ReadForEver is about, and those that start inside a loaded block behind the end, where the source copies stale bytes; failing seeks and reads of the operating system, the error codes, and properties longer than 65535 bytes.
- FileLoaders.FileLoader.ReadCachedBytes: the same requests.
- FileLoaders.FileLoader.ReadFromBlock: rounds that start inside a loaded block behind the end.
- Moves.InternalMoveItem: players and tiles as cylinders, and so the exchange of items; FLAG_CHILDISOWNER, which only players pass on; subtypes of fluids and charges.
- Moves.InternalAddItem: the same cylinders and flag; with FLAG_NOLIMIT, when exactly a capacity is exceeded.
- Moves.InternalRemoveItem: containers that still hold something; what a subclass forbids is a parameter.
- Containers.Game.ReplaceThing: the model takes the replaced item's parent away in the same step, where transformItem does so a few statements later.
- Money.AddMoney: negative amounts; the tile under a cylinder is a container used with FLAG_NOLIMIT.
- Payment.RemoveMoney: canDrop = false, with the refund it makes when the change cannot be placed; items whose removal a subclass forbids.
- WalkCache.Creature.OnOwnMove: everything else a creature does when it moves; positions without a tile, where the entry may be stale.
- Trade.Game.PlayerRequestTrade: the checks on distance, path, item kind and trade limit are one parameter; scripts that act on the trade from inside a callback.
- DecayWheel.Wheel.CheckDecay: items transformed in place; a decayed item always makes way for a new object.
- CreatureWheel.Wheel.CheckCreatures: the deferred release of references; a reference is given up at once; that the attack callbacks are made is not stated.
- Dispatcher.Safe: the clock behind a task's expiry is a parameter of each step, and tasks that add tasks are producers of their own.
- DamageList.GenerateDamageList: the rounding of the floating-point quotients; the reals are exact. Only the list part of executing a damage condition is modelled.
- SpeedLedger.Creature.AddCondition: conditions other than haste and paralysis start and merge as a parameter says; speed changes from outside the conditions; the restart of a stopped walk.
- ConditionStream.RoundTrip: damage and light conditions, whose writers and readers use different widths, and for which the model creates nothing; an eighth skill or sixth stat, which the source writes outside its array, is refused.
- ConditionIO.SaveAndLoad: saved damage and light conditions, for the same reason.
- CombatAreas.CreateArea: vectors with a set value behind the last full row, which the source writes outside the matrix.
- CombatAreas.CombatArea.SetupArea: the same vectors.
- CombatAreas.CombatArea.SetupSpread: the table of circular areas, the diagonal areas and the choice of a direction, which are finite data and comparisons.
- Weights are integers, where the source uses doubles.
- Network, database, scripts, client messages, logging, the map, path finding, chat, houses and bans.
