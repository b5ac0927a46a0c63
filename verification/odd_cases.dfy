/** Concrete worlds in which adding and moving items do not do what one would expect. */
module OddCases {
  import opened Sequences
  import opened ItemForest
  import opened Containers
  import opened Moves
  import opened Iteration
  import opened Worths
  import opened Money
  import opened Payment

  /** Id 0 is a bag; everything else comes in stacks, and a piece of id 2 is worth 65537 of the others. */
  const KINDS: Catalogue := id => ItemType(10, id != 0, true, true, if id == 2 then 65537 else 1)

  const STACKING_OFF := Flags(false, false, false, true)

  /** A bag with two stacks in it, and nothing else. */
  ghost predicate TwoStacks(game: Game, c: Item, a: Item, b: Item)
    reads game, game.world
  {
    && game.Valid() && game.types == KINDS && c in game.world && c.isContainer && c.itemlist == [a, b]
    && a in game.world && b in game.world && !a.isContainer && !b.isContainer
  }

  /** A stack that lies outside the bag. */
  ghost predicate Outside(game: Game, c: Item, item: Item, count: nat)
    reads game, game.world
  {
    item in game.world && item.parent != c && !item.isContainer && item.id == 1 && item.count == count && c != item
  }

  /** Two stacks of 60 in a full bag, and 50 more of the kind for the first of them: there is room for
      80, but only the stack named is filled. */
  lemma StuckInput(game: Game, c: Item, a: Item, b: Item, item: Item)
    requires TwoStacks(game, c, a, b) && c.capacity == 2 && a.id == b.id == 1 && a.count == b.count == 60
    requires Outside(game, c, item, 50) && item.parent == null
    ensures AddOutcome(game, c, 0, item, STACKING_OFF, false) == (ContainerNotEnoughRoom, 10)
  {
    hide Sound, Game.Inside, Game.StackRoom;
    game.ItemsInWorld(c);
    game.PlainNotAround(c, item);
    RoomOfTwo(game, c, item);
  }

  /** A full bag in which a stack of another kind is named: there is room on the other stack, so the
      checks pass, and the new stack exceeds the capacity. */
  lemma OverfillsInput(game: Game, c: Item, a: Item, b: Item, item: Item)
    requires TwoStacks(game, c, a, b) && c.capacity == 2 && a.id == 2 && b.id == 1 && b.count == 60
    requires Outside(game, c, item, 10) && item.parent == null
    ensures AddOutcome(game, c, 0, item, STACKING_OFF, false) == (NoError, 0) && Overfills(game, c, 0, item, STACKING_OFF)
  {
    hide Sound, Game.Inside, Game.StackRoom;
    game.ItemsInWorld(c);
    game.PlainNotAround(c, item);
    RoomOfTwo(game, c, item);
  }

  /** An overfull bag, and 50 pieces moved without limit: 40 complete the second stack, whose index lies
      beyond the capacity, and the other 10 are lost. */
  lemma LostInput(game: Game, from: Item, c: Item, a: Item, b: Item, item: Item)
    requires TwoStacks(game, c, a, b) && c.capacity == 1 && a.id == 2 && b.id == 1 && b.count == 60
    requires Outside(game, c, item, 50) && from in game.world && item in from.itemlist
    ensures var plan := MovePlan(game, from, c, INDEX_WHEREEVER, item, 50, NO_LIMIT, null);
            plan == Go(c, 1, b, 50, NoError) && Lost(plan, item, game.types) == 10
  {
    hide Sound, Game.Inside, Game.StackRoom;
    game.ItemsInWorld(c);
    game.PlainNotAround(c, item);
    assert game.Destination(c, INDEX_WHEREEVER, item, NO_LIMIT) == (c, 1, b) by {
      assert c.itemlist[1..] == [b];
    }
  }

  /** A full bag whose first stack is complete, and 50 pieces moved to that place: the checks pass, there
      is no room, and the answer is success. */
  lemma SilentInput(game: Game, from: Item, c: Item, a: Item, b: Item, item: Item)
    requires TwoStacks(game, c, a, b) && c.capacity == 2 && a.id == 1 && a.count == 100 && b.id == 2
    requires Outside(game, c, item, 50) && from in game.world && item in from.itemlist
    ensures MovePlan(game, from, c, 0, item, 50, NO_FLAGS, null) == Stay(NoError)
  {
    hide Sound, Game.Inside, Game.StackRoom;
    game.ItemsInWorld(c);
    game.PlainNotAround(c, item);
    assert game.Destination(c, 0, item, NO_FLAGS) == (c, 0, a);
    StaysSilent(game, from, c, 0, a, NO_FLAGS, item, 50, null);
  }

  lemma RoomOfTwo(game: Game, c: Item, item: Item)
    requires |c.itemlist| == 2
    ensures game.StackRoom(c.itemlist, item) == game.Rooms(c.itemlist, item)[0] + game.Rooms(c.itemlist, item)[1]
  {
    var rooms := game.Rooms(c.itemlist, item);
    assert rooms == [rooms[0]] + [rooms[1]];
    SumSnoc([rooms[0]], rooms[1]);
    SumSnoc([], rooms[0]);
  }

  // ---------------------------------------------------------------- the worlds exist

  /** A new stack in front of a bag. */
  method Fill(game: Game, c: Item, id: nat, count: nat) returns (a: Item)
    requires game.Valid() && Stacked(game) && game.types == KINDS && c in game.world && c.isContainer && c.capacity > 0
    requires id > 0 && 1 <= count <= 100
    modifies game`world, game`rank, c`itemlist, game.world`totalWeight
    ensures game.Valid() && Stacked(game) && fresh(a) && game.world == old(game.world) + {a}
    ensures a.id == id && a.count == count && a.parent == c && !a.isContainer && c.itemlist == [a] + old(c.itemlist)
  {
    hide Game.Valid, Game.Placed, Stacked, Roomy, Things;
    a := MakeStack(game, id, count);
    PutDown(game, c, 0, a);
  }

  method NewBag(game: Game, capacity: nat) returns (c: Item)
    requires game.Valid() && Stacked(game) && game.types == KINDS
    modifies game`world, game`rank
    ensures game.Valid() && Stacked(game) && fresh(c) && game.world == old(game.world) + {c}
    ensures c.isContainer && c.capacity == capacity && c.itemlist == [] && c.parent == null
  {
    hide Sound, Game.Placed;
    c := new Item(0, 1, true, capacity);
    game.Enter(c);
  }

  /** A bag with two stacks. */
  method Bag(capacity: nat, firstId: nat, first: nat, secondId: nat, second: nat) returns (game: Game, c: Item, a: Item, b: Item)
    requires capacity > 0 && firstId > 0 && secondId > 0 && 1 <= first <= 100 && 1 <= second <= 100
    ensures TwoStacks(game, c, a, b) && Stacked(game) && fresh(game) && fresh(game.world) && game.world == {c, a, b}
    ensures c.capacity == capacity && c.parent == null
    ensures a.id == firstId && a.count == first && b.id == secondId && b.count == second
  {
    hide Game.Valid, Stacked;
    game := new Game(KINDS);
    assert Stacked(game) by { NothingStacked(game); }
    c := NewBag(game, capacity);
    b := Fill(game, c, secondId, second);
    a := Fill(game, c, firstId, first);
  }

  lemma NothingStacked(game: Game)
    requires game.world == {}
    ensures Stacked(game)
  {
  }

  /** Adding 50 pieces where there is room for 80 leaves 10. */
  method StuckAdd() returns (ret: ReturnValue, remainderCount: nat)
    ensures ret == ContainerNotEnoughRoom && remainderCount == 10
  {
    hide Game.Valid, Game.Placed, AddOutcome, AddDone, Overfills, Roomy, OnlyInto, Game.Target;
    var game, c, a, b := Bag(2, 1, 60, 1, 60);
    var item := MakeStack(game, 1, 50);
    StuckInput(game, c, a, b, item);
    ret, remainderCount := InternalAddItem(game, c, item, 0, STACKING_OFF, false);
  }

  /** Adding 10 pieces to a full bag of capacity 2 puts more items into it. */
  method OverfilledAdd() returns (ret: ReturnValue, size: nat)
    ensures ret == NoError && size > 2
  {
    hide Game.Valid, Game.Placed, AddOutcome, Overfills, Stacked, Things, Poured, OnlyInto, Game.Target, Game.Destination;
    var game, c, a, b := Bag(2, 2, 60, 1, 60);
    var item := MakeStack(game, 1, 10);
    OverfillsInput(game, c, a, b, item);
    assert Roomy(game);
    ghost var m, to := Things(game.world), game.Destination(c, 0, item, STACKING_OFF).0;
    var remainderCount;
    ret, remainderCount := InternalAddItem(game, c, item, 0, STACKING_OFF, false);
    PouredPlain(m, Things(game.world), to, item);
    ghost var x :| x in game.world && x.isContainer && |x.itemlist| > x.capacity;
    assert x == c;
    size := |c.itemlist|;
  }

  lemma PouredPlain(m: map<Item, Thing>, n: map<Item, Thing>, to: Item, item: Item)
    requires Poured(m, n, to, item)
    ensures forall x :: x in n && x !in m ==> !x.isContainer
  {
  }

  /** Moving 50 pieces to a stack of 60 leaves 100 in all. */
  method LostMove() returns (ret: ReturnValue, before: nat, after: nat)
    ensures ret == NoError && before == 110 && after == 100
  {
    hide Game.Valid, Game.Placed, Stacked, TwoStacks;
    var game, c, a, b := Bag(1, 2, 60, 1, 60);
    SeenTwo(game, c, a, b);
    var from := NewBag(game, 5);
    var item := Fill(game, from, 1, 50);
    assert from.itemlist == [item];
    SeenTwo(game, c, a, b);
    before := item.count + b.count;
    ret, after := Lose(game, from, c, a, b, item);
  }

  lemma SeenTwo(game: Game, c: Item, a: Item, b: Item)
    ensures TwoStacks(game, c, a, b) <==>
              && game.Valid() && game.types == KINDS && c in game.world && c.isContainer && c.itemlist == [a, b]
              && a in game.world && b in game.world && !a.isContainer && !b.isContainer
  {
  }

  /** Afterwards the second stack is all there is of its kind in both bags. */
  method Lose(game: Game, from: Item, c: Item, a: Item, b: Item, item: Item) returns (ret: ReturnValue, pieces: nat)
    requires Stacked(game) && TwoStacks(game, c, a, b) && c.capacity == 1 && a.id == 2 && b.id == 1 && b.count == 60 && a != b
    requires Outside(game, c, item, 50) && from in game.world && from.isContainer && from.itemlist == [item] && item.parent == from
    modifies game, game.world
    ensures ret == NoError && pieces == b.count == 100 && from.itemlist == [] && c.itemlist == [a, b] && a.id == 2
  {
    hide Game.Valid, Game.Placed, Stacked, Things, MovePlan, Roomy, Lost;
    LostInput(game, from, c, a, b, item);
    assert from != c && a != item;
    ThingIs(game.world, a);
    var moveItem;
    ret, moveItem := InternalMoveItem(game, from, c, INDEX_WHEREEVER, item, 50, NO_LIMIT, null);
    ThingIs(game.world, a);
    pieces := b.count;
  }

  /** Moving 50 pieces onto a complete stack in a full bag succeeds and moves nothing. */
  method SilentMove() returns (ret: ReturnValue, before: nat, after: nat)
    ensures ret == NoError && before == after == 50
  {
    hide Game.Valid, Game.Placed, Stacked, TwoStacks;
    var game, c, a, b := Bag(2, 1, 100, 2, 60);
    SeenTwo(game, c, a, b);
    var from := NewBag(game, 5);
    var item := Fill(game, from, 1, 50);
    assert from.itemlist == [item];
    SeenTwo(game, c, a, b);
    before := item.count;
    ret := Keep(game, from, c, a, b, item);
    after := item.count;
  }

  /** The item stays where it was. */
  method Keep(game: Game, from: Item, c: Item, a: Item, b: Item, item: Item) returns (ret: ReturnValue)
    requires Stacked(game) && TwoStacks(game, c, a, b) && c.capacity == 2 && a.id == 1 && a.count == 100 && b.id == 2
    requires Outside(game, c, item, 50) && from in game.world && from.itemlist == [item] && item.parent == from
    modifies game, game.world
    ensures ret == NoError && item.count == 50 && from.itemlist == [item] && c.itemlist == [a, b] && a.count == 100
  {
    hide Game.Valid, Game.Placed, Stacked, Things, MovePlan, Roomy, Lost;
    SilentInput(game, from, c, a, b, item);
    var moveItem;
    ret, moveItem := InternalMoveItem(game, from, c, 0, item, 50, NO_FLAGS, null);
  }

  // ---------------------------------------------------------------- change that comes out short

  /** What lies below a bag with a single plain item is that item. */
  lemma {:induction false} OnlyBelow(m: Snapshot, rank: map<Item, nat>, c: Item, a: Item, x: Item)
    requires Forest(m, rank) && c in m && a in m && m[c].list == [a] && m[a].list == [] && x in m && Below(m, rank, x, c)
    ensures x == a
    decreases Higher(m, rank, x)
  {
    HigherShrinks(m, rank, x);
    if m[x].parent != c {
      OnlyBelow(m, rank, c, a, m[x].parent);
    }
  }

  lemma OneCoin(game: Game, c: Item, a: Item)
    requires game.Valid() && game.types == KINDS && c in game.world && c.itemlist == [a]
    requires a in game.world && !a.isContainer && a.id == 2 && a.count == 1
    ensures Coins(game, c) == map[a := 65537] && ContentsWorth(game, c) == 65537
  {
    hide Sound, Forest;
    var m := View(game.world, game.types);
    game.RanksForest();
    game.PlainIsEmpty(a);
    game.ListedHere(c, a);
    ChildBelow(m, game.rank, a, c);
    forall x | x in Contents(game, c)
      ensures x == a
    {
      OnlyBelow(m, game.rank, c, a, x);
    }
    assert Contents(game, c) == {a} && {a} - {a} == {};
    SetWorthSplit({a}, a, game.types);
  }

  /** A single piece worth 65537 out of which 1 is to be paid, when all other coins are worth 1: the
      change of 65536 is 99 too little. */
  lemma ShortInput(game: Game, c: Item, a: Item)
    requires game.Valid() && game.types == KINDS && c in game.world && c.itemlist == [a]
    requires a in game.world && !a.isContainer && a.id == 2 && a.count == 1
    ensures ChangeDue(Coins(game, c), 1) == UINT16 && GreedyWorth([Coin(1, 1)], UINT16) == UINT16 - 99
    ensures !CountsFit([Coin(1, 1)], UINT16)
  {
    hide Sound, Coins, GreedyWorth, CountsFit;
    OneCoin(game, c, a);
    GreedyShort(1);
    GreedyExact([Coin(1, 1)], UINT16);
    ChangeDueBy(map[a := 65537], a, 1);
  }

  /** Removing 1 from a bag with a piece worth 65537 above an empty tile costs 100. */
  method ShortChange() returns (ok: bool, before: nat, after: nat)
    ensures ok && before == after + 100
  {
    hide Game.Valid, Stacked;
    var game := new Game(KINDS);
    assert Stacked(game) by { NothingStacked(game); }
    var c := NewBag(game, 20);
    var a := Fill(game, c, 2, 1);
    var ground := NewBag(game, 10);
    assert c.itemlist == [a];
    ok, before, after := Shorten(game, c, a, ground);
  }

  method Shorten(game: Game, c: Item, a: Item, ground: Item) returns (ok: bool, before: nat, after: nat)
    requires game.Valid() && Stacked(game) && game.types == KINDS && c in game.world && c.isContainer && c.itemlist == [a]
    requires a in game.world && !a.isContainer && a.id == 2 && a.count == 1
    requires ground in game.world && ground.isContainer && c != ground && c.parent == null && ground.parent == null
    modifies game, game.world
    ensures ok && before == after + 100
  {
    hide Game.Valid, Stacked, ContentsWorth, Coins, ChangeDue, GreedyWorth, CountsFit, Purse, Things, Contents, Elsewhere, Dense;
    ghost var m, taken := Things(game.world), Contents(game, c);
    ThingIs(game.world, c);
    ThingIs(game.world, ground);
    before := Fortune(game, c, ground);
    ShortInput(game, c, a);
    Covers(game, c, a);
    ok := RemoveMoney(game, c, null, ground, [Coin(1, 1)], 1, NO_FLAGS);
    ThingIs(game.world, c);
    ThingIs(game.world, ground);
    ParentStays(m, Things(game.world), c, ground, taken, c);
    ParentStays(m, Things(game.world), c, ground, taken, ground);
    after := Fortune(game, c, ground);
  }

  lemma Covers(game: Game, c: Item, a: Item)
    requires game.Valid() && game.types == KINDS && c in game.world && c.itemlist == [a]
    requires a in game.world && !a.isContainer && a.id == 2 && a.count == 1
    ensures Funds(game, c, null) >= 1
  {
    hide Game.Valid, ContentsWorth, Coins;
    OneCoin(game, c, a);
  }

  lemma ParentStays(m: map<Item, Thing>, n: map<Item, Thing>, c: Item, ground: Item, taken: set<Item>, x: Item)
    requires Elsewhere(m, n, c, ground, taken) && x in m && x in n
    ensures n[x].parent == m[x].parent
  {
  }

  /** The coins in two bags that lie nowhere. */
  method Fortune(game: Game, c: Item, ground: Item) returns (worth: nat)
    requires game.Valid() && c in game.world && ground in game.world && c != ground && c.parent == null && ground.parent == null
    ensures worth == Purse(game, c, ground)
  {
    hide Game.Valid, Contents;
    RootsApart(game, c, ground);
    RootsApart(game, ground, c);
    PurseSplits(game, c, ground);
    var inside := GetMoney(game, c, null);
    var outside := GetMoney(game, ground, null);
    return inside + outside;
  }
}
