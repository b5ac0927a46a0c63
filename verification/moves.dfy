/** Game::internalMoveItem and Game::internalAddItem between containers. */
module Moves {
  import opened Basics
  import opened Sequences
  import opened ItemForest
  import opened Containers

  /** Stacks hold 1 to 100 pieces, and containers do not stack. */
  ghost predicate Stacked(game: Game)
    reads game, game.world
  {
    forall x :: x in game.world ==> 1 <= x.count <= 100 && (x.isContainer ==> !game.types(x.id).stackable)
  }

  /** No container holds more items than it has slots. */
  ghost predicate Roomy(game: Game)
    reads game, game.world
  {
    forall x :: x in game.world && x.isContainer ==> |x.itemlist| <= x.capacity
  }

  /** What can be seen of one object, but for the cached weight. */
  datatype Thing = Thing(id: nat, count: nat, parent: Item?, list: seq<Item>)

  ghost function Things(s: set<Item>): (m: map<Item, Thing>)
    reads s
    ensures m.Keys == s
  {
    map x | x in s :: Thing(x.id, x.count, x.parent, x.itemlist)
  }

  lemma ThingIs(s: set<Item>, x: Item)
    requires x in s
    ensures Things(s)[x] == Thing(x.id, x.count, x.parent, x.itemlist)
  {
  }

  /** Only the lists of some containers, and otherwise only some items, have changed. */
  ghost predicate Framed(m: map<Item, Thing>, n: map<Item, Thing>, boxes: set<Item>, changed: set<Item>) {
    && (forall x :: x in m && x !in changed ==> x in n && n[x].(list := []) == m[x].(list := []))
    && (forall x :: x in m && x in n && x !in boxes ==> n[x].list == m[x].list)
  }

  lemma FramedOn(m: map<Item, Thing>, n: map<Item, Thing>, k: map<Item, Thing>, boxes: set<Item>, changed: set<Item>)
    requires m.Keys <= n.Keys && Framed(m, n, boxes, changed) && Framed(n, k, boxes, changed)
    ensures Framed(m, k, boxes, changed)
  {
  }

  lemma FramedBoth(m: map<Item, Thing>, n: map<Item, Thing>, k: map<Item, Thing>, from: Item, to: Item, one: set<Item>, more: set<Item>)
    requires m.Keys <= n.Keys && Framed(m, n, {from}, one + more) && Framed(n, k, {to}, one)
    ensures Framed(m, k, {from, to}, one + more)
  {
  }

  lemma FramedMore(m: map<Item, Thing>, n: map<Item, Thing>, boxes: set<Item>, changed: set<Item>, boxes': set<Item>, changed': set<Item>)
    requires Framed(m, n, boxes, changed) && boxes <= boxes' && changed <= changed'
    ensures Framed(m, n, boxes', changed')
  {
  }

  function Just(x: Item?): set<Item> { if x == null then {} else {x} }

  /** How much of `m` pieces fits on top of `toItem`. */
  function Merging(toItem: Item?, item: Item, m: nat): int
    reads if toItem == null then {} else {toItem}, item
  {
    if toItem != null && toItem.id == item.id then Min(100 - toItem.count, m) else 0
  }

  /** A list after an item's pieces were taken: the item goes only if all of them were. */
  ghost function Left(list: seq<Item>, item: Item, all: bool): seq<Item> {
    if all then Dropped(list, item) else list
  }

  lemma {:induction false} DroppedKeeps(list: seq<Item>, x: Item, y: Item)
    requires y in list && y != x
    ensures y in Dropped(list, x) && |Dropped(list, x)| <= |list|
  {
    if list[0] != x && list[0] != y { DroppedKeeps(list[1..], x, y); }
    if list[0] != x { DroppedShorter(list[1..], x); }
  }

  lemma LeftShorter(list: seq<Item>, item: Item)
    ensures forall all :: |Left(list, item, all)| <= |list| && Left(list, item, false) == list
  {
    DroppedShorter(list, item);
  }

  lemma {:induction list} DroppedShorter(list: seq<Item>, x: Item)
    ensures |Dropped(list, x)| == (if x in list then |list| - 1 else |list|)
  {
  }

  /** The move of `m` pieces of a stack: part goes onto `toItem`, the rest becomes a new stack.
      When `index` lies beyond the capacity the new stack is created but never placed. */
  method MoveStack(game: Game, from: Item, to: Item, index: int, item: Item, m: nat, toItem: Item?)
    returns (moveItem: Item?)
    requires game.Valid() && Stacked(game) && from in game.world && to in game.world && to.isContainer
    requires item in from.itemlist && game.types(item.id).stackable && 1 <= m <= item.count
    requires toItem != null ==> toItem in to.itemlist && toItem != item
    modifies game, game.world
    ensures game.Valid() && Stacked(game)
    ensures fresh(game.world - old(game.world)) && old(game.world) - {item} <= game.world
    ensures StackMoved(old(Start(from, to, item, m, toItem)), from, to, index, item, m, toItem, moveItem)
    ensures item in game.world <==> m < old(item.count)
    ensures Framed(old(Things(game.world)), Things(game.world), {from, to}, {item} + Just(toItem))
    ensures forall x :: x in game.world && x !in old(game.world) ==> x == moveItem
    ensures forall k :: game.Placed(k) == old(game.Placed(k))
              - (if k == old(item.id) && index >= to.capacity then m - old(Merging(toItem, item, m)) else 0)
    ensures old(Roomy(game)) && old(m > Merging(toItem, item, m) ==> |to.itemlist| < to.capacity) ==> Roomy(game)
  {
    hide Game.Valid, Game.Placed, Game.Inside, Left, Roomy, Stacked, Things, Framed;
    game.ListedHere(from, item);
    LeftShorter(to.itemlist, item);
    if toItem != null { game.ListedHere(to, toItem); }
    ghost var before := Things(game.world);
    var n := TakePart(game, from, to, item, m, toItem);
    ghost var between := Things(game.world);
    moveItem := PutRest(game, to, index, item, m - n);
    FramedBoth(before, between, Things(game.world), from, to, {item}, Just(toItem));
  }

  /** What a move starts from. */
  datatype Before = Before(fromList: seq<Item>, toList: seq<Item>, id: nat, count: nat, toId: nat, toCount: nat, merging: int)

  ghost function Start(from: Item, to: Item, item: Item, m: nat, toItem: Item?): Before
    reads from, to, item, if toItem == null then {} else {toItem}
  {
    Before(from.itemlist, to.itemlist, item.id, item.count, if toItem == null then 0 else toItem.id,
           if toItem == null then 0 else toItem.count, Merging(toItem, item, m))
  }

  /** Who holds what after `m` pieces of a stack moved. */
  ghost predicate StackMoved(b: Before, from: Item, to: Item, index: int, item: Item, m: nat, toItem: Item?, moveItem: Item?)
    reads from, to, item, if toItem == null then {} else {toItem}, if moveItem == null then {} else {moveItem}
  {
    && (moveItem != null <==> m > b.merging) && (moveItem != null ==> moveItem.id == b.id && moveItem.count == m - b.merging)
    && (moveItem != null ==> moveItem.parent == (if index < to.capacity then to else null) && !moveItem.isContainer)
    && (m < b.count ==> item.parent == from && item.id == b.id && item.count == b.count - m)
    && (toItem != null ==> toItem.id == b.toId && toItem.count == b.toCount + b.merging && toItem.parent == to)
    && to.itemlist == (if m > b.merging && index < to.capacity then [moveItem] else [])
                      + Left(b.toList, item, m == b.count && from == to)
    && (from != to ==> from.itemlist == Left(b.fromList, item, m == b.count))
  }

  /** The pieces leave their stack, and as many as fit join `toItem`. */
  method TakePart(game: Game, from: Item, to: Item, item: Item, m: nat, toItem: Item?) returns (n: nat)
    requires game.Valid() && Stacked(game) && from in game.world && to in game.world && to.isContainer
    requires item in from.itemlist && game.types(item.id).stackable && 1 <= m <= item.count
    requires toItem != null ==> toItem in to.itemlist && toItem != item
    modifies from`itemlist, item`parent, item`id, item`count, Just(toItem)`id, Just(toItem)`count, game.world`totalWeight
    ensures game.Valid() && Stacked(game) && item in game.world && !item.isContainer
    ensures item.id == old(item.id) && n == old(Merging(toItem, item, m)) <= m <= 100
    ensures from.itemlist == Left(old(from.itemlist), item, m == old(item.count))
    ensures from != to ==> to.itemlist == old(to.itemlist)
    ensures if m == old(item.count) then item.parent == null else item.parent == from && item.count == old(item.count) - m
    ensures toItem != null ==> toItem.id == old(toItem.id) && toItem.count == old(toItem.count) + n && toItem.parent == to
    ensures Framed(old(Things(game.world)), Things(game.world), {from}, {item} + Just(toItem))
    ensures forall k :: game.Placed(k) == old(game.Placed(k)) - (if k == item.id then m - n else 0)
    ensures old(Roomy(game)) ==> Roomy(game)
  {
    hide Sound, View, Amount, Game.Inside, Dropped, Stacked, Roomy, Things, Framed;
    game.ListedHere(from, item);
    if toItem != null {
      game.ListedHere(to, toItem);
      DroppedKeeps(to.itemlist, item, toItem);
    }
    ghost var before := Things(game.world);
    Lift(game, from, item, m);
    ghost var between := Things(game.world);
    n := TopOnto(game, to, item, m, toItem);
    FramedMore(before, between, {from}, {item}, {from}, {item} + Just(toItem));
    FramedMore(between, Things(game.world), {}, Just(toItem), {from}, {item} + Just(toItem));
    FramedOn(before, between, Things(game.world), {from}, {item} + Just(toItem));
  }

  /** Whether taking `m` pieces takes the whole item. */
  predicate TakesAll(item: Item, m: nat, types: Catalogue)
    reads item
  {
    !types(item.id).stackable || m == item.count
  }

  /** The pieces leave their stack, or the item its container. */
  method Lift(game: Game, from: Item, item: Item, m: nat)
    requires game.Valid() && Stacked(game) && from in game.world && item in from.itemlist
    requires game.types(item.id).stackable ==> 1 <= m <= item.count
    modifies from`itemlist, item`parent, item`id, item`count, game.world`totalWeight
    ensures game.Valid() && Stacked(game) && item in game.world && item.id == old(item.id)
    ensures game.types(item.id).stackable ==> m <= 100 && !item.isContainer
    ensures from.itemlist == Left(old(from.itemlist), item, old(TakesAll(item, m, game.types)))
    ensures if old(TakesAll(item, m, game.types)) then item.parent == null && item.count == old(item.count)
            else item.parent == from && item.count == old(item.count) - m
    ensures Framed(old(Things(game.world)), Things(game.world), {from}, {item})
    ensures forall k :: game.Placed(k) == old(game.Placed(k)) -
              (if k != item.id then 0 else if old(TakesAll(item, m, game.types)) then old(item.count) else m)
    ensures old(Roomy(game)) ==> Roomy(game)
  {
    hide Game.Valid, Amount, Game.Inside, Game.Totals, Game.Around, GrownBy, Dropped;
    game.ListedHere(from, item);
    DroppedShorter(from.itemlist, item);
    game.RemoveThing(from, item, m);
  }

  /** As many of the pieces as fit join `toItem`. */
  method TopOnto(game: Game, to: Item, item: Item, m: nat, toItem: Item?) returns (n: nat)
    requires game.Valid() && Stacked(game) && to in game.world && to.isContainer && item in game.world && m <= 100
    requires toItem != null ==> toItem in to.itemlist && toItem in game.world && toItem != item
    modifies Just(toItem)`id, Just(toItem)`count, game.world`totalWeight
    ensures game.Valid() && Stacked(game) && n == old(Merging(toItem, item, m)) <= m
    ensures toItem != null ==>
              toItem.count == old(toItem.count) + n && toItem.id == old(toItem.id) && toItem.parent == to
    ensures Framed(old(Things(game.world)), Things(game.world), {}, Just(toItem))
    ensures forall k :: game.Placed(k) == old(game.Placed(k)) + (if k == item.id then n else 0)
    ensures old(Roomy(game)) ==> Roomy(game)
  {
    hide Game.Valid, Amount, Game.Inside, Game.Totals, Game.Around, GrownBy;
    n := 0;
    if toItem != null {
      game.ListedHere(to, toItem);
    }
    if toItem != null && toItem.id == item.id {
      n := Min(100 - toItem.count, m);
      game.UpdateThing(to, toItem, toItem.id, toItem.count + n);
    }
  }

  /** What did not fit becomes a new stack, and a stack used up is freed. */
  method PutRest(game: Game, to: Item, index: int, item: Item, rest: nat) returns (moveItem: Item?)
    requires game.Valid() && Stacked(game) && to in game.world && to.isContainer && to != item
    requires item in game.world && !item.isContainer && game.types(item.id).stackable && rest <= 100
    modifies game, to`itemlist, game.world`totalWeight
    ensures game.Valid() && Stacked(game)
    ensures fresh(game.world - old(game.world)) && old(game.world) - {item} <= game.world
    ensures moveItem != null <==> rest > 0
    ensures item in game.world <==> item.parent != null
    ensures moveItem != null ==> moveItem.id == item.id && moveItem.count == rest && fresh(moveItem)
    ensures moveItem != null ==> moveItem.parent == (if index < to.capacity then to else null) && !moveItem.isContainer
    ensures to.itemlist == (if rest > 0 && index < to.capacity then [moveItem] else []) + old(to.itemlist)
    ensures Framed(old(Things(game.world)), Things(game.world), {to}, {item})
    ensures forall x :: x in game.world && x !in old(game.world) ==> x == moveItem
    ensures forall k :: game.Placed(k) == old(game.Placed(k)) + (if k == item.id && index < to.capacity then rest else 0)
    ensures old(Roomy(game)) && (rest > 0 ==> old(|to.itemlist|) < to.capacity) ==> Roomy(game)
  {
    hide Sound, View, Amount, Game.Inside, Stacked, Roomy, Things;
    ghost var before := Things(game.world);
    moveItem := NewStack(game, item, rest);
    if moveItem != null {
      ghost var between := Things(game.world);
      PutDown(game, to, index, moveItem);
      FramedNew(before, between, Things(game.world), to, item, moveItem);
    } else {
      FramedMore(before, Things(game.world), {}, {item}, {to}, {item});
    }
  }

  lemma FramedNew(m: map<Item, Thing>, n: map<Item, Thing>, k: map<Item, Thing>, to: Item, item: Item, moveItem: Item)
    requires Framed(m, n, {}, {item}) && Framed(n, k, {to}, {moveItem}) && moveItem !in m && k.Keys == n.Keys
    ensures Framed(m, k, {to}, {item})
  {
  }

  /** A new stack is placed, if its index allows. */
  method PutDown(game: Game, to: Item, index: int, moveItem: Item)
    requires game.Valid() && Stacked(game) && to in game.world && to.isContainer && to != moveItem
    requires moveItem in game.world && moveItem.parent == null && !moveItem.isContainer
    modifies game`rank, to`itemlist, moveItem`parent, game.world`totalWeight
    ensures game.Valid() && Stacked(game) && moveItem.parent == (if index < to.capacity then to else null)
    ensures to.itemlist == (if index < to.capacity then [moveItem] else []) + old(to.itemlist)
    ensures Framed(old(Things(game.world)), Things(game.world), {to}, {moveItem})
    ensures forall k :: game.Placed(k) == old(game.Placed(k)) + (if k == moveItem.id && index < to.capacity then moveItem.count else 0)
    ensures old(Roomy(game)) && old(|to.itemlist|) < to.capacity ==> Roomy(game)
  {
    hide Game.Valid, Amount, Game.Inside, Game.Totals, Game.Around, GrownBy;
    game.PlainNotAround(to, moveItem);
    game.AddThing(to, index, moveItem);
  }

  method NewStack(game: Game, item: Item, rest: nat) returns (moveItem: Item?)
    requires game.Valid() && Stacked(game)
    requires item in game.world && !item.isContainer && game.types(item.id).stackable && rest <= 100
    modifies game
    ensures game.Valid() && Stacked(game)
    ensures fresh(game.world - old(game.world)) && old(game.world) - {item} <= game.world
    ensures moveItem != null <==> rest > 0
    ensures item in game.world <==> item.parent != null
    ensures moveItem != null ==>
              && moveItem in game.world && fresh(moveItem) && moveItem.parent == null && !moveItem.isContainer
              && moveItem.id == item.id && moveItem.count == rest
    ensures forall x :: x in game.world && x !in old(game.world) ==> x == moveItem
    ensures Framed(old(Things(game.world)), Things(game.world), {}, {item})
    ensures old(Roomy(game)) ==> Roomy(game)
    ensures forall k :: game.Placed(k) == old(game.Placed(k))
  {
    hide Sound, View, Amount, Game.Inside, Stacked, Roomy, Things, Framed;
    ghost var before := Things(game.world);
    FramedSame(before);
    moveItem := null;
    if rest > 0 {
      moveItem := MakeStack(game, item.id, rest);
    }
    ghost var between := Things(game.world);
    game.PlainIsEmpty(item);
    FreeRemoved(game, item);
    FramedMore(before, between, {}, {}, {}, {item});
    FramedOn(before, between, Things(game.world), {}, {item});
  }

  lemma FramedSame(m: map<Item, Thing>)
    ensures Framed(m, m, {}, {})
  {
  }

  method MakeStack(game: Game, id: nat, count: nat) returns (moveItem: Item)
    requires game.Valid() && Stacked(game) && game.types(id).stackable && 0 < count <= 100
    modifies game`world, game`rank
    ensures game.Valid() && Stacked(game) && game.world == old(game.world) + {moveItem} && fresh(moveItem)
    ensures moveItem.parent == null && !moveItem.isContainer && moveItem.id == id && moveItem.count == count
    ensures Things(game.world) == old(Things(game.world))[moveItem := Thing(id, count, null, [])]
    ensures Framed(old(Things(game.world)), Things(game.world), {}, {})
    ensures old(Roomy(game)) ==> Roomy(game)
    ensures forall k :: game.Placed(k) == old(game.Placed(k))
  {
    hide Sound, View, Amount;
    moveItem := game.CreateItem(id, count);
  }

  method FreeRemoved(game: Game, item: Item)
    requires game.Valid() && Stacked(game) && item in game.world && item.itemlist == []
    modifies game`world
    ensures game.Valid() && Stacked(game)
    ensures game.world == if item.parent == null then old(game.world) - {item} else old(game.world)
    ensures Framed(old(Things(game.world)), Things(game.world), {}, {item})
    ensures old(Roomy(game)) ==> Roomy(game)
    ensures forall k :: game.Placed(k) == old(game.Placed(k))
  {
    hide Sound, View, Amount;
    if item.parent == null {
      game.FreeThing(item);
    }
  }

  /** A single item changes its place; nothing else does. */
  method MoveWhole(game: Game, from: Item, to: Item, index: int, item: Item, m: nat)
    requires game.Valid() && Stacked(game) && from in game.world && to in game.world && to.isContainer
    requires item in from.itemlist && !game.types(item.id).stackable
    requires index < to.capacity && !game.Inside(to, item)
    modifies game`rank, from`itemlist, to`itemlist, item`parent, item`id, item`count, game.world`totalWeight
    ensures game.Valid() && Stacked(game) && item.parent == to && item.id == old(item.id) && item.count == old(item.count)
    ensures to.itemlist == [item] + Left(old(to.itemlist), item, from == to)
    ensures from != to ==> from.itemlist == Left(old(from.itemlist), item, true)
    ensures Framed(old(Things(game.world)), Things(game.world), {from, to}, {item})
    ensures forall k :: game.Placed(k) == old(game.Placed(k))
    ensures old(Roomy(game)) && old(|to.itemlist|) < to.capacity ==> Roomy(game)
  {
    hide Sound, View, Amount, Game.Inside, Left, Stacked, Roomy, Things, Framed;
    game.ListedHere(from, item);
    LeftShorter(to.itemlist, item);
    ghost var before := Things(game.world);
    TakeWhole(game, from, to, item, m);
    ghost var between := Things(game.world);
    PutWhole(game, to, index, item);
    assert {item} + {} == {item};
    FramedBoth(before, between, Things(game.world), from, to, {item}, {});
  }

  method PutWhole(game: Game, to: Item, index: int, item: Item)
    requires game.Valid() && Stacked(game) && to in game.world && to.isContainer && item in game.world && item.parent == null
    requires index < to.capacity && !game.Inside(to, item)
    modifies game`rank, to`itemlist, item`parent, game.world`totalWeight
    ensures game.Valid() && Stacked(game) && item.parent == to && to.itemlist == [item] + old(to.itemlist)
    ensures Framed(old(Things(game.world)), Things(game.world), {to}, {item})
    ensures forall k :: game.Placed(k) == old(game.Placed(k)) + (if k == item.id then item.count else 0)
    ensures old(Roomy(game)) && old(|to.itemlist|) < to.capacity ==> Roomy(game)
  {
    hide Game.Valid, Amount, Game.Inside, Game.Totals, Game.Around, GrownBy;
    game.AddThing(to, index, item);
  }

  /** Taking an item out does not put it around anything. */
  method TakeWhole(game: Game, from: Item, to: Item, item: Item, m: nat)
    requires game.Valid() && Stacked(game) && from in game.world && from.isContainer && item in game.world && to in game.world
    requires item in from.itemlist && !game.types(item.id).stackable && !game.Inside(to, item)
    modifies from`itemlist, item`parent, item`id, item`count, game.world`totalWeight
    ensures game.Valid() && Stacked(game) && item.parent == null && !game.Inside(to, item)
    ensures item.id == old(item.id) && item.count == old(item.count)
    ensures from.itemlist == Left(old(from.itemlist), item, true)
    ensures Framed(old(Things(game.world)), Things(game.world), {from}, {item})
    ensures old(Roomy(game)) ==> Roomy(game)
    ensures forall k :: game.Placed(k) == old(game.Placed(k)) - (if k == item.id then item.count else 0)
  {
    hide Sound, Forest, Amount, Game.Placed, Left, Framed, Things, Stacked, Roomy, ItemForest.Within;
    ghost var m0 := View(game.world, game.types);
    game.RanksForest();
    Lift(game, from, item, m);
    StillOutside(m0, game, to, item);
  }

  lemma StillOutside(m: Snapshot, game: Game, to: Item, item: Item)
    requires game.Valid() && Forest(m, game.rank) && m.Keys == game.world && to in m && !ItemForest.Within(m, game.rank, to, item)
    requires forall y :: y in m ==> y.parent == m[y].parent || y.parent == null
    ensures !game.Inside(to, item)
  {
    hide Lists, Down, Weighed;
    if game.Inside(to, item) {
      WithinShrinks(m, View(game.world, game.types), game.rank, to, item);
    }
  }

  // ---------------------------------------------------------------- removing an item

  /** The number of pieces asked for; -1 means all. */
  function Asked(item: Item, count: int): nat
    reads item
  {
    if count == -1 then item.count else count % UINT32
  }

  /** `m` pieces of the item, or all of it, have left its container. */
  ghost predicate Removed(before: map<Item, Thing>, after: map<Item, Thing>, item: Item, m: nat, all: bool) {
    && item in before && before[item].parent != null && before[item].parent in before
    && var from := before[item].parent;
    && Framed(before, after, {from}, {item}) && from in after && after[from].list == Left(before[from].list, item, all)
    && after.Keys == before.Keys - (if all then {item} else {})
    && (!all ==> m <= before[item].count && after[item].(list := []) == before[item].(count := before[item].count - m, list := []))
  }

  /** Game::internalRemoveItem: refused for an item that lies nowhere, for no pieces and for more than
      there are, whether the item can be moved or not; otherwise just the pieces asked for leave, and
      an item used up is gone. */
  method InternalRemoveItem(game: Game, item: Item, count: int, canRemove: bool, test: bool) returns (ret: ReturnValue)
    requires game.Valid() && Stacked(game) && item in game.world && item.itemlist == []
    modifies game`world, game.world
    ensures game.Valid() && Stacked(game) && item.id == old(item.id)
    ensures ret == NoError || ret == NotPossible
    ensures ret == NoError <==>
              && old(item.parent) != null && canRemove
              && var m := old(Asked(item, count)); m > 0 && (game.types(item.id).stackable ==> m <= old(item.count))
    ensures ret != NoError || test ==> game.world == old(game.world) && forall x :: x in game.world ==> unchanged(x)
    ensures ret == NoError && !test ==>
              var m, all := old(Asked(item, count)), old(TakesAll(item, Asked(item, count), game.types));
              && Removed(old(Things(game.world)), Things(game.world), item, m, all)
              && forall k :: game.Placed(k) == old(game.Placed(k)) - (if k != item.id then 0 else if all then old(item.count) else m)
    ensures old(Roomy(game)) ==> Roomy(game)
  {
    hide Game.Valid, Stacked, Roomy, Things, Framed, Game.Placed, Left;
    var cylinder := item.parent;
    if cylinder == null {
      return NotPossible;
    }
    game.ParentLists(item);
    var m := Asked(item, count);
    ret := game.QueryRemove(cylinder, item, m, NO_FLAGS.(ignoreNotMovable := true));
    if ret != NoError {
      return;
    }
    if !canRemove {
      return NotPossible;
    }
    if !test {
      ghost var before := Things(game.world);
      ThingIs(game.world, item);
      ThingIs(game.world, cylinder);
      Lift(game, cylinder, item, m);
      ghost var between := Things(game.world);
      FreeRemoved(game, item);
      ThingIs(game.world, cylinder);
      if item in game.world { ThingIs(game.world, item); }
      FramedMore(between, Things(game.world), {}, {item}, {cylinder}, {item});
      FramedOn(before, between, Things(game.world), {cylinder}, {item});
    }
  }

  // ---------------------------------------------------------------- where a move goes

  /** The cylinder, index, item and flags a move ends up with: a redirection resets the flags. */
  ghost function Resolved(game: Game, to: Item, index: int, item: Item, flags: Flags): (Item, int, Item?, Flags)
    requires game.Valid() && to in game.world && to.isContainer && item in game.world
    reads game, game.world
  {
    game.DestinationInWorld(to, index, item, flags);
    var d := game.Destination(to, index, item, flags);
    if d.0 == to then (to, d.1, d.2, flags)
    else
      var e := game.Destination(d.0, d.1, item, NO_FLAGS);
      (e.0, e.1, e.2, NO_FLAGS)
  }

  const MAP_MAX_LAYERS := 16

  /** The loop over destinations; it redirects at most once. */
  method ResolveDestination(game: Game, toCylinder: Item, index: int, item: Item, flags: Flags)
    returns (to: Item, place: int, toItem: Item?, finalFlags: Flags)
    requires game.Valid() && toCylinder in game.world && toCylinder.isContainer && item in game.world
    ensures (to, place, toItem, finalFlags) == Resolved(game, toCylinder, index, item, flags)
  {
    hide Sound, View, Game.Inside, Game.Destination;
    to, place, finalFlags := toCylinder, index, flags;
    game.DestinationInWorld(to, place, item, finalFlags);
    var subCylinder;
    subCylinder, place, toItem := game.QueryDestination(to, place, item, finalFlags);
    var floor := 0;
    while subCylinder != to
      invariant subCylinder in game.world && subCylinder.isContainer
      invariant floor == 0 ==> to == toCylinder && finalFlags == flags
                               && (subCylinder, place, toItem) == game.Destination(to, index, item, flags)
      invariant floor > 0 ==> floor == 1 && subCylinder == to
                              && (to, place, toItem, finalFlags) == Resolved(game, toCylinder, index, item, flags)
      decreases 1 - floor
    {
      finalFlags := NO_FLAGS;
      to := subCylinder;
      floor := floor + 1;
      if floor >= MAP_MAX_LAYERS {
        break;
      }
      game.DestinationSettles(to, place, item, finalFlags);
      subCylinder, place, toItem := game.QueryDestination(to, place, item, finalFlags);
    }
  }

  // ---------------------------------------------------------------- adding an item

  /** The checks of internalAddItem before it changes anything. */
  ghost function AddChecks(game: Game, c: Item, index: int, item: Item, flags: Flags): ReturnValue
    requires game.Valid() && c in game.world && c.isContainer && item in game.world
    reads game, game.world
  {
    game.DestinationInWorld(c, index, item, flags);
    var d := game.Destination(c, index, item, flags);
    var answer := game.AddAnswer(d.0, d.1, item, flags);
    var max := game.MaxCount(c, INDEX_WHEREEVER, item, item.count, flags);
    if answer != NoError then answer
    else if flags.noLimit || (if game.types(item.id).stackable then max >= item.count else max > 0) then NoError
    else ContainerNotEnoughRoom
  }

  /** A stack the item will be merged into first, if any. */
  ghost predicate Merges(game: Game, c: Item, index: int, item: Item, flags: Flags)
    requires game.Valid() && c in game.world && c.isContainer && item in game.world
    reads game, game.world
  {
    game.DestinationInWorld(c, index, item, flags);
    var d := game.Destination(c, index, item, flags);
    game.types(item.id).stackable && d.2 != null && d.2.id == item.id && d.2.count < 100
  }

  /** Where the checks pass and nothing is merged, there is a free slot. */
  lemma AddFits(game: Game, c: Item, index: int, item: Item, flags: Flags)
    requires game.Valid() && c in game.world && c.isContainer && item in game.world && item.parent == null && item.count > 0
    requires AddChecks(game, c, index, item, flags) == NoError && !Merges(game, c, index, item, flags)
    requires !flags.noLimit && !flags.childIsOwner && (!flags.ignoreAutoStack || index == INDEX_WHEREEVER)
    ensures var to := game.Destination(c, index, item, flags).0;
            to in game.world && |to.itemlist| < to.capacity
  {
    hide Sound, View, Game.Inside, Game.StackRoom;
    game.DestinationInWorld(c, index, item, flags);
    var d := game.Destination(c, index, item, flags);
    if d.0 == c && d.1 != INDEX_WHEREEVER && game.types(item.id).stackable {
      game.DestinationStacks(c, index, item, flags);
    }
  }

  /** The stack named cannot take everything, and with stacking off the pieces left over need a slot
      of their own, of which there is none. */
  ghost predicate Stuck(game: Game, c: Item, index: int, item: Item, flags: Flags)
    requires game.Valid() && c in game.world && c.isContainer && item in game.world
    reads game, game.world
  {
    && Merges(game, c, index, item, flags) && 100 - game.Destination(c, index, item, flags).2.count < item.count
    && flags.ignoreAutoStack && !flags.noLimit && |c.itemlist| >= c.capacity
  }

  /** What internalAddItem answers, and the remainder it reports. */
  ghost function AddOutcome(game: Game, c: Item, index: int, item: Item, flags: Flags, test: bool): (ReturnValue, int)
    requires game.Valid() && c in game.world && c.isContainer && item in game.world
    reads game, game.world
  {
    var checks := AddChecks(game, c, index, item, flags);
    if checks != NoError then (checks, 0)
    else if !test && Stuck(game, c, index, item, flags) then
      (ContainerNotEnoughRoom, item.count - (100 - game.Destination(c, index, item, flags).2.count))
    else (NoError, 0)
  }

  /** A new stack goes into a container without a free slot. */
  ghost predicate Overfills(game: Game, c: Item, index: int, item: Item, flags: Flags)
    requires game.Valid() && c in game.world && c.isContainer && item in game.world
    reads game, game.world
  {
    game.DestinationInWorld(c, index, item, flags);
    var to := game.Destination(c, index, item, flags).0;
    !Merges(game, c, index, item, flags) && |to.itemlist| >= to.capacity
  }

  /** That takes FLAG_NOLIMIT, or a caller that turns stacking off and names an index. */
  lemma OverfillsOnly(game: Game, c: Item, index: int, item: Item, flags: Flags)
    requires game.Valid() && c in game.world && c.isContainer && item in game.world && item.parent == null && item.count > 0
    requires AddChecks(game, c, index, item, flags) == NoError && Overfills(game, c, index, item, flags)
    requires !flags.noLimit && !flags.childIsOwner
    ensures flags.ignoreAutoStack && index != INDEX_WHEREEVER && game.types(item.id).stackable
    ensures game.Destination(c, index, item, flags).0 == c
  {
    hide Sound, View, Game.Inside, Game.StackRoom;
    if !flags.ignoreAutoStack || index == INDEX_WHEREEVER { AddFits(game, c, index, item, flags); }
    game.DestinationInWorld(c, index, item, flags);
  }

  /** What an add of `item` may do, all in one container: stacks of its kind grow, one new stack may
      stand in front, and whatever is new lies there. */
  ghost predicate Poured(m: map<Item, Thing>, n: map<Item, Thing>, to: Item, item: Item) {
    && item in m && to in m && to in n
    && (forall x :: x in m && x != item ==>
          x in n && n[x].id == m[x].id && n[x].parent == m[x].parent
          && (n[x].count == m[x].count
              || (n[x].count > m[x].count && m[x].parent == to && m[x].id == m[item].id && !x.isContainer)))
    && (forall x :: x in m && x in n && x != to ==> n[x].list == m[x].list)
    && (forall x :: x in n && x !in m ==> !x.isContainer && n[x].parent == to && n[x].id == m[item].id && n[x].list == [])
    && (item in n ==> n[item].(list := []) == m[item].(parent := to, list := []))
    && (n[to].list == m[to].list || (n[to].list != [] && n[to].list[1..] == m[to].list))
  }

  /** What internalAddItem does to the objects, given the destination and what it answers. */
  ghost predicate AddDone(m: map<Item, Thing>, n: map<Item, Thing>, d: (Item, int, Item?), item: Item, test: bool, outcome: (ReturnValue, int)) {
    if test || (outcome.0 != NoError && outcome.1 == 0) then n == m
    else if outcome.0 != NoError then d.2 != null && d.2 in m && n == m[d.2 := m[d.2].(count := 100)]
    else Poured(m, n, d.0, item)
  }

  /** Whatever is new, has grown or has another parent lies right in `target`, and no other container has
      gained anything.  Only a lossy move may leave a new stack nowhere. */
  ghost predicate OnlyInto(m: map<Item, Thing>, n: map<Item, Thing>, target: Item, lossy: bool) {
    && (forall x :: x in n && (x !in m || n[x].count > m[x].count || n[x].parent != m[x].parent) ==>
          n[x].parent == target || (lossy && x !in m && n[x].parent == null))
    && (forall c, x :: c in m && c in n && c != target && x in n[c].list ==> x in m[c].list)
  }

  /** The item itself stands in front of the target's list. */
  ghost predicate PutFront(m: map<Item, Thing>, n: map<Item, Thing>, target: Item, item: Item) {
    target in m && target in n && item in n && n[item].parent == target && n[target].list == [item] + m[target].list
  }

  /** An add brings things only into its destination. */
  lemma AddedInto(m: map<Item, Thing>, n: map<Item, Thing>, d: (Item, int, Item?), item: Item, test: bool, outcome: (ReturnValue, int))
    requires AddDone(m, n, d, item, test, outcome) && (d.2 != null && d.2 in m ==> m[d.2].parent == d.0)
    ensures OnlyInto(m, n, d.0, false)
  {
  }

  /** Filling up a stack and pouring the rest is one pouring. */
  lemma PouredOn(m: map<Item, Thing>, m': map<Item, Thing>, n: map<Item, Thing>, to: Item, item: Item, stackItem: Item, rest: Item, k: nat)
    requires Divided(m, m', to, item, stackItem, rest, k) && m[item].parent == null && to in m && Poured(m', n, to, rest)
    requires k > 0 && to.isContainer
    ensures Poured(m, n - {item}, to, item)
  {
  }

  lemma PouredKeeps(m: map<Item, Thing>, n: map<Item, Thing>, to: Item, item: Item, x: Item)
    requires Poured(m, n, to, item) && x in m && x != item && m[x].parent != to
    ensures x in n && n[x].(list := []) == m[x].(list := [])
  {
  }

  /** So is putting everything onto one stack. */
  lemma PouredOnto(m: map<Item, Thing>, to: Item, item: Item, stackItem: Item, n: nat)
    requires item in m && to in m && stackItem in m && stackItem != item && to != item && !stackItem.isContainer && n > 0
    requires m[stackItem].parent == to && m[stackItem].id == m[item].id
    ensures Poured(m, m[stackItem := m[stackItem].(count := m[stackItem].count + n)] - {item}, to, item)
  {
  }

  lemma StackFilled(m: map<Item, Thing>, m': map<Item, Thing>, to: Item, item: Item, stackItem: Item, rest: Item, k: nat)
    requires Divided(m, m', to, item, stackItem, rest, k) && k == 100 - m[stackItem].count
    ensures m' - {rest} == m[stackItem := m[stackItem].(count := 100)]
  {
  }

  /** Topping up a stack by `n` takes `n` off the free places. */
  lemma RoomAfter(game: Game, before: seq<int>, list: seq<Item>, item: Item, stackItem: Item, n: nat)
    requires Distinct(list) && stackItem in list && |before| == |list|
    requires stackItem.count <= 100
    requires forall i :: 0 <= i < |list| ==>
               before[i] == (if list[i] == stackItem then 100 - stackItem.count + n
                             else if game.Stackable(list[i], item) then 100 - list[i].count else 0)
    requires item !in list && stackItem.id == item.id
    ensures game.StackRoom(list, item) == Sum(before) - n
  {
    var i :| 0 <= i < |list| && list[i] == stackItem;
    var after := game.Rooms(list, item);
    assert after == before[i := before[i] - n];
    SumChanges(before, after, i, 0 - n);
  }

  /** What the checks and the stack they found say about a stacking add. */
  lemma ChecksSay(game: Game, c: Item, index: int, item: Item, flags: Flags)
    requires game.Valid() && c in game.world && c.isContainer && item in game.world && item.parent == null
    requires AddChecks(game, c, index, item, flags) == NoError && Merges(game, c, index, item, flags)
    ensures var d := game.Destination(c, index, item, flags).2;
            && game.types(item.id).stackable && d != null && d.id == item.id && d in c.itemlist && d.count < 100
            && (flags.childIsOwner || game.types(item.id).pickupable)
            && (flags.noLimit || Max(0, c.capacity - |c.itemlist|) * 100 + Sum(game.Rooms(c.itemlist, item)) >= item.count)
  {
    hide Sound, View, Game.Inside, Game.Rooms;
    game.DestinationInWorld(c, index, item, flags);
  }

  /** The first round of a stacking add: `n` pieces onto `stackItem`, the others as a new item. */
  method TopUp(game: Game, c: Item, index: int, item: Item, flags: Flags, stackItem: Item, n: nat)
    returns (remainderItem: Item)
    requires game.Valid() && Stacked(game) && c in game.world && c.isContainer && item in game.world && item.parent == null
    requires AddChecks(game, c, index, item, flags) == NoError && Merges(game, c, index, item, flags)
    requires game.Destination(c, index, item, flags).2 == stackItem
    requires n == Min(100 - stackItem.count, item.count) < item.count && !flags.childIsOwner
    modifies game, stackItem`id, stackItem`count, game.world`totalWeight
    ensures game.Valid() && Stacked(game) && game.world == old(game.world) + {remainderItem} && fresh(remainderItem)
    ensures Divided(old(Things(game.world)), Things(game.world), c, item, stackItem, remainderItem, n)
    ensures AddOutcome(game, c, INDEX_WHEREEVER, remainderItem, flags, false)
            == if !flags.ignoreAutoStack || flags.noLimit || |c.itemlist| < c.capacity then (NoError, 0) else (ContainerNotEnoughRoom, 0)
    ensures game.Destination(c, INDEX_WHEREEVER, remainderItem, flags).0 == c
    ensures remainderItem.parent == null && remainderItem.id == item.id && remainderItem.count == item.count - n
    ensures forall k :: game.Placed(k) == old(game.Placed(k)) + (if k == item.id then n else 0)
    ensures old(Roomy(game)) ==> Roomy(game)
  {
    hide Sound, View, Amount, Game.Inside, Game.Destination, Game.Rooms, Game.MaxCount, AddChecks, Merges, Stuck, Things, Divided, Roomy;
    ChecksSay(game, c, index, item, flags);
    game.ListedHere(c, stackItem);
    ghost var before;
    remainderItem, before := Divide(game, c, item, stackItem, n);
    game.DestinationSettles(c, INDEX_WHEREEVER, remainderItem, flags);
    RemainderFits(game, before, c, item, flags, stackItem, n, remainderItem);
    Unstuck(game, c, remainderItem, flags);
  }

  /** `n` pieces went onto the stack, and the others are a new item that lies nowhere. */
  ghost predicate Divided(m: map<Item, Thing>, m': map<Item, Thing>, c: Item, item: Item, stackItem: Item, remainderItem: Item, n: nat) {
    && item in m && stackItem in m && stackItem != item && n < m[item].count
    && !item.isContainer && !stackItem.isContainer && !remainderItem.isContainer
    && m[stackItem].parent == c && m[stackItem].id == m[item].id && m[stackItem].count < 100
    && remainderItem !in m
    && m' == m[stackItem := m[stackItem].(count := m[stackItem].count + n)]
              [remainderItem := Thing(m[item].id, m[item].count - n, null, [])]
  }

  lemma DividedSays(m: map<Item, Thing>, m': map<Item, Thing>, c: Item, item: Item, stackItem: Item, remainderItem: Item, n: nat)
    requires Divided(m, m', c, item, stackItem, remainderItem, n)
    ensures item in m && item in m' && m'[item] == m[item] && !item.isContainer && !remainderItem.isContainer
    ensures stackItem in m && stackItem != item
  {
  }

  lemma DividedIs(m: map<Item, Thing>, m': map<Item, Thing>, c: Item, item: Item, stackItem: Item, remainderItem: Item, n: nat)
    requires item in m && stackItem in m && stackItem != item && n < m[item].count && remainderItem !in m
    requires !item.isContainer && !stackItem.isContainer && !remainderItem.isContainer
    requires m[stackItem].parent == c && m[stackItem].id == m[item].id && m[stackItem].count < 100
    requires m' == m[stackItem := m[stackItem].(count := m[stackItem].count + n)]
                    [remainderItem := Thing(m[item].id, m[item].count - n, null, [])]
    ensures Divided(m, m', c, item, stackItem, remainderItem, n)
  {
  }

  method Divide(game: Game, c: Item, item: Item, stackItem: Item, n: nat)
    returns (remainderItem: Item, ghost before: seq<int>)
    requires game.Valid() && Stacked(game) && c in game.world && c.isContainer && item in game.world && item.parent == null
    requires stackItem in c.itemlist && stackItem.id == item.id && stackItem.count < 100 && stackItem.count + n <= 100
    requires game.types(item.id).stackable && n < item.count
    modifies game, stackItem`id, stackItem`count, game.world`totalWeight
    ensures game.Valid() && Stacked(game) && game.world == old(game.world) + {remainderItem} && fresh(remainderItem)
    ensures Divided(old(Things(game.world)), Things(game.world), c, item, stackItem, remainderItem, n)
    ensures stackItem.id == item.id && !remainderItem.isContainer && remainderItem.parent == null
    ensures remainderItem.id == item.id && remainderItem.count == item.count - n
    ensures before == old(game.Rooms(c.itemlist, item)) && remainderItem !in c.itemlist
    ensures forall i :: 0 <= i < |c.itemlist| ==>
              before[i] == (if c.itemlist[i] == stackItem then 100 - stackItem.count + n
                            else if game.Stackable(c.itemlist[i], remainderItem) then 100 - c.itemlist[i].count else 0)
    ensures forall k :: game.Placed(k) == old(game.Placed(k)) + (if k == item.id then n else 0)
    ensures old(Roomy(game)) ==> Roomy(game)
  {
    hide Game.Valid, Game.Inside, Game.Rooms, Roomy, Things, Framed, Divided, Game.Placed;
    game.ListedHere(c, stackItem);
    game.ItemsInWorld(c);
    ThingIs(game.world, item);
    ThingIs(game.world, stackItem);
    ghost var m := Things(game.world);
    before := TopUpStack(game, c, item, stackItem, n);
    remainderItem := MakeStack(game, item.id, item.count - n);
    DividedIs(m, Things(game.world), c, item, stackItem, remainderItem, n);
  }

  /** Without an index nothing gets stuck. */
  lemma Unstuck(game: Game, c: Item, item: Item, flags: Flags)
    requires game.Valid() && c in game.world && c.isContainer && item in game.world
    ensures !Stuck(game, c, INDEX_WHEREEVER, item, flags)
  {
    hide Sound, View, Game.Inside;
    game.DestinationInWorld(c, INDEX_WHEREEVER, item, flags);
  }

  method TopUpStack(game: Game, c: Item, item: Item, stackItem: Item, n: nat) returns (ghost before: seq<int>)
    requires game.Valid() && Stacked(game) && c in game.world && c.isContainer && item in game.world && item.parent == null
    requires stackItem in c.itemlist && stackItem.id == item.id && stackItem.count + n <= 100
    modifies stackItem`id, stackItem`count, game.world`totalWeight
    ensures game.Valid() && Stacked(game) && stackItem.id == old(stackItem.id) && stackItem in game.world && stackItem != item
    ensures var m := old(Things(game.world));
            stackItem in m && Things(game.world) == m[stackItem := m[stackItem].(count := m[stackItem].count + n)]
    ensures before == old(game.Rooms(c.itemlist, item)) && item !in c.itemlist
    ensures forall i :: 0 <= i < |c.itemlist| ==>
              before[i] == (if c.itemlist[i] == stackItem then 100 - stackItem.count + n
                            else if game.Stackable(c.itemlist[i], item) then 100 - c.itemlist[i].count else 0)
    ensures forall k :: game.Placed(k) == old(game.Placed(k)) + (if k == item.id then n else 0)
    ensures old(Roomy(game)) ==> Roomy(game)
  {
    hide Game.Valid, Amount, Game.Inside, Game.Totals, Game.Around, GrownBy;
    before := game.Rooms(c.itemlist, item);
    game.ItemsInWorld(c);
    game.ListedHere(c, stackItem);
    game.UpdateThing(c, stackItem, stackItem.id, stackItem.count + n);
  }

  /** The remainder passes the checks again, unless it needs a slot of its own and there is none. */
  lemma RemainderFits(game: Game, before: seq<int>, c: Item, item: Item, flags: Flags, stackItem: Item, n: nat, remainderItem: Item)
    requires game.Valid() && Stacked(game) && c in game.world && c.isContainer
    requires remainderItem in game.world && !remainderItem.isContainer && remainderItem.parent == null && remainderItem !in c.itemlist
    requires stackItem in c.itemlist && stackItem.id == remainderItem.id && remainderItem.count > 0
    requires game.types(remainderItem.id).stackable && game.types(remainderItem.id).pickupable && !flags.childIsOwner
    requires remainderItem.count <= 100
    requires |before| == |c.itemlist| && forall i :: 0 <= i < |c.itemlist| ==>
               before[i] == (if c.itemlist[i] == stackItem then 100 - stackItem.count + n
                             else if game.Stackable(c.itemlist[i], remainderItem) then 100 - c.itemlist[i].count else 0)
    requires flags.noLimit || Max(0, c.capacity - |c.itemlist|) * 100 + Sum(before) >= remainderItem.count + n
    ensures AddChecks(game, c, INDEX_WHEREEVER, remainderItem, flags)
            == if !flags.ignoreAutoStack || flags.noLimit || |c.itemlist| < c.capacity then NoError else ContainerNotEnoughRoom
  {
    hide Sound, View, Game.Inside, Game.StackRoom;
    game.ListDistinct(c);
    game.ListedHere(c, stackItem);
    RoomAfter(game, before, c.itemlist, remainderItem, stackItem, n);
    game.PlainNotAround(c, remainderItem);
    game.DestinationInWorld(c, INDEX_WHEREEVER, remainderItem, flags);
    game.DestinationSettles(c, INDEX_WHEREEVER, remainderItem, flags);
    if !flags.ignoreAutoStack { game.DestinationStacks(c, INDEX_WHEREEVER, remainderItem, flags); }
    SumNonNegative(game.Rooms(c.itemlist, remainderItem));
  }

  method AddChecked(game: Game, toCylinder: Item, index: int, item: Item, flags: Flags)
    returns (ret: ReturnValue, to: Item, place: int, stackItem: Item?, maxQueryCount: int)
    requires game.Valid() && toCylinder in game.world && toCylinder.isContainer && item in game.world
    ensures ret == AddChecks(game, toCylinder, index, item, flags)
    ensures (to, place, stackItem) == game.Destination(toCylinder, index, item, flags) && to in game.world
    ensures ret == NoError && game.types(item.id).stackable ==> maxQueryCount >= item.count
    ensures ret == NoError && !flags.childIsOwner ==> !game.Inside(to, item)
  {
    hide Sound, View, Game.Inside, Game.Destination, Game.MaxCount;
    game.DestinationInWorld(toCylinder, index, item, flags);
    maxQueryCount := 0;
    to, place, stackItem := game.QueryDestination(toCylinder, index, item, flags);
    ret := game.QueryAdd(to, place, item, flags);
    if ret != NoError {
      return;
    }
    ret, maxQueryCount := game.QueryMaxCount(toCylinder, INDEX_WHEREEVER, item, item.count, flags);
  }

  /** Adding an item from outside the containers: all of it, or nothing.  Only a caller that turns
      stacking off and names a stack in a full container gets stuck half-way. */
  method InternalAddItem(game: Game, toCylinder: Item, item: Item, index: int, flags: Flags, test: bool)
    returns (ret: ReturnValue, remainderCount: nat)
    requires game.Valid() && Stacked(game) && item in game.world && item.parent == null
    requires toCylinder in game.world && toCylinder.isContainer && !flags.childIsOwner
    modifies game, game.world
    ensures game.Valid() && Stacked(game) && item.id == old(item.id)
    ensures fresh(game.world - old(game.world)) && old(game.world) - {item} <= game.world
    ensures (ret, remainderCount) == old(AddOutcome(game, toCylinder, index, item, flags, test))
    ensures (ret != NoError && remainderCount == 0) || test ==>
              game.world == old(game.world) && forall x :: x in game.world ==> unchanged(x)
    ensures AddDone(old(Things(game.world)), Things(game.world), old(game.Destination(toCylinder, index, item, flags)), item, test,
                  (ret, remainderCount))
    ensures forall k :: game.Placed(k) == old(game.Placed(k)) +
              (if k != item.id || test then 0
               else if ret == NoError then old(item.count)
               else if remainderCount > 0 then old(item.count) - remainderCount
               else 0)
    ensures old(Roomy(game)) && !flags.noLimit ==>
              (Roomy(game) <==> test || ret != NoError || !old(Overfills(game, toCylinder, index, item, flags)))
    ensures var target := old(Game.Target(toCylinder, index));
            && OnlyInto(old(Things(game.world)), Things(game.world), target, false)
            && (ret == NoError && !test && !game.types(item.id).stackable ==>
                  PutFront(old(Things(game.world)), Things(game.world), target, item))
    decreases item.count, 2
  {
    hide PutFront, OnlyInto, Game.Target, Sound, View, Amount, Game.Inside, Game.Destination, Game.MaxCount, AddChecks, Stuck, Overfills, Merges, Poured, Roomy, Things, Stacked;
    remainderCount := 0;
    var to, place, stackItem, maxQueryCount;
    ret, to, place, stackItem, maxQueryCount := AddChecked(game, toCylinder, index, item, flags);
    ghost var m := Things(game.world);
    game.DestinationIsTarget(toCylinder, index, item, flags);
    StackIsThere(game, toCylinder, index, item, flags);
    if ret != NoError || test {
      NothingInto(m, to, false);
      return;
    }
    ret, remainderCount := AddAdmitted(game, toCylinder, item, index, flags, to, place, stackItem, maxQueryCount);
    AddedInto(m, Things(game.world), (to, place, stackItem), item, test, (ret, remainderCount));
  }

  lemma StackIsThere(game: Game, c: Item, index: int, item: Item, flags: Flags)
    requires game.Valid() && c in game.world && c.isContainer && item in game.world
    ensures var d := game.Destination(c, index, item, flags);
            d.2 != null ==> d.2 in Things(game.world) && Things(game.world)[d.2].parent == d.0
  {
    hide Sound, View, Game.Inside, Game.Destination;
    game.DestinationInWorld(c, index, item, flags);
    var d := game.Destination(c, index, item, flags);
    if d.2 != null { game.ListedHere(d.0, d.2); }
  }

  /** The part of internalAddItem behind its checks. */
  method AddAdmitted(game: Game, c: Item, item: Item, index: int, flags: Flags, to: Item, place: int, stackItem: Item?, maxQueryCount: int)
    returns (ret: ReturnValue, remainderCount: nat)
    requires game.Valid() && Stacked(game) && item in game.world && item.parent == null
    requires c in game.world && c.isContainer && !flags.childIsOwner && AddChecks(game, c, index, item, flags) == NoError
    requires (to, place, stackItem) == game.Destination(c, index, item, flags) && to in game.world && !game.Inside(to, item)
    requires game.types(item.id).stackable ==> maxQueryCount >= item.count
    modifies game, game.world
    ensures game.Valid() && Stacked(game) && item.id == old(item.id)
    ensures fresh(game.world - old(game.world)) && old(game.world) - {item} <= game.world
    ensures ret == NoError <==> !old(Stuck(game, c, index, item, flags))
    ensures ret == NoError ==>
              remainderCount == 0 && Poured(old(Things(game.world)), Things(game.world), to, item)
    ensures !game.types(item.id).stackable ==>
              ret == NoError && PutFront(old(Things(game.world)), Things(game.world), to, item)
    ensures ret != NoError ==>
              && ret == ContainerNotEnoughRoom && stackItem != null && stackItem in old(game.world)
              && remainderCount == old(item.count) - (100 - old(stackItem.count)) > 0
              && Things(game.world) == old(Things(game.world)[stackItem := Things(game.world)[stackItem].(count := 100)])
    ensures forall k :: game.Placed(k) == old(game.Placed(k)) + (if k != item.id then 0 else old(item.count) - remainderCount)
    ensures old(Roomy(game)) && !flags.noLimit ==> (Roomy(game) <==> ret != NoError || !old(Overfills(game, c, index, item, flags)))
    decreases item.count, 1
  {
    hide PutFront, Sound, View, Amount, Game.Inside, Game.Destination, Game.MaxCount, AddChecks, Poured, Things;
    game.DestinationInWorld(c, index, item, flags);
    if game.types(item.id).stackable && stackItem != null {
      var m := Min(item.count, maxQueryCount);
      var n := Merging(stackItem, item, m);
      if 0 < n < m {
        ret, remainderCount := AddRemainder(game, c, index, item, flags, stackItem, n);
        return;
      }
      if n == m {
        AddOnto(game, c, item, stackItem, n);
        return NoError, 0;
      }
    }
    AddWhole(game, item, to, place);
    return NoError, 0;
  }

  /** The whole stack fits on another. */
  method AddOnto(game: Game, c: Item, item: Item, stackItem: Item, n: nat)
    requires game.Valid() && Stacked(game) && c in game.world && c.isContainer && item in game.world && item.parent == null
    requires stackItem in c.itemlist && stackItem.id == item.id && stackItem.count + n <= 100 && n == item.count
    requires game.types(item.id).stackable
    modifies game`world, stackItem`id, stackItem`count, game.world`totalWeight
    ensures game.Valid() && Stacked(game) && item.id == old(item.id)
    ensures game.world == old(game.world) - {item} && Poured(old(Things(game.world)), Things(game.world), c, item)
    ensures forall k :: game.Placed(k) == old(game.Placed(k)) + (if k == item.id then n else 0)
    ensures old(Roomy(game)) ==> Roomy(game)
  {
    hide Sound, View, Amount, Game.Inside, Game.Rooms, Things, Poured, Roomy;
    game.ListedHere(c, stackItem);
    ThingIs(game.world, item);
    ThingIs(game.world, stackItem);
    ghost var m := Things(game.world);
    ghost var before := TopUpStack(game, c, item, stackItem, n);
    PouredOnto(m, c, item, stackItem, n);
    FreeLoose(game, item);
  }

  /** The first stack is filled up and the other pieces are added as an item of their own. */
  method AddRemainder(game: Game, c: Item, index: int, item: Item, flags: Flags, stackItem: Item, n: nat)
    returns (ret: ReturnValue, remainderCount: nat)
    requires game.Valid() && Stacked(game) && c in game.world && c.isContainer && item in game.world && item.parent == null
    requires AddChecks(game, c, index, item, flags) == NoError && Merges(game, c, index, item, flags) && !flags.childIsOwner
    requires game.Destination(c, index, item, flags).2 == stackItem
    requires 0 < n == Min(100 - stackItem.count, item.count) < item.count && game.types(item.id).stackable
    requires stackItem in game.world
    modifies game, game.world
    ensures game.Valid() && Stacked(game) && item.id == old(item.id)
    ensures fresh(game.world - old(game.world)) && old(game.world) - {item} <= game.world
    ensures ret == NoError <==> !(flags.ignoreAutoStack && !flags.noLimit && old(|c.itemlist|) >= c.capacity)
    ensures ret == NoError ==> remainderCount == 0 && Poured(old(Things(game.world)), Things(game.world), c, item)
    ensures ret != NoError ==>
              && ret == ContainerNotEnoughRoom && remainderCount == old(item.count) - n
              && Things(game.world) == old(Things(game.world)[stackItem := Things(game.world)[stackItem].(count := 100)])
    ensures forall k :: game.Placed(k) == old(game.Placed(k)) + (if k != item.id then 0 else old(item.count) - remainderCount)
    ensures old(Roomy(game)) && !flags.noLimit ==> Roomy(game)
    decreases item.count, 0
  {
    hide PutFront, OnlyInto, Game.Target, Sound, View, Amount, Game.Inside, Game.Destination, Game.MaxCount, AddChecks, Merges, Stuck, Roomy, Overfills, Poured, Stacked, Things, Divided;
    ThingIs(game.world, item);
    ThingIs(game.world, stackItem);
    ghost var m := Things(game.world);
    var remainderItem := TopUp(game, c, index, item, flags, stackItem, n);
    ghost var m' := Things(game.world);
    DividedSays(m, m', c, item, stackItem, remainderItem, n);
    RemainderStays(game, c, remainderItem, flags);
    var rest;
    ret, rest := InternalAddItem(game, c, remainderItem, INDEX_WHEREEVER, flags, false);
    remainderCount := 0;
    if ret == NoError {
      PouredOn(m, m', Things(game.world), c, item, stackItem, remainderItem, n);
      PouredKeeps(m', Things(game.world), c, remainderItem, item);
      ThingIs(game.world, item);
      FreeLoose(game, item);
    } else {
      remainderCount := item.count - n;
      StackFilled(m, m', c, item, stackItem, remainderItem, n);
      ThingIs(game.world, item);
      FreeLoose(game, remainderItem);
    }
  }

  /** Without an index nothing is overfilled. */
  lemma RemainderStays(game: Game, c: Item, item: Item, flags: Flags)
    requires game.Valid() && c in game.world && c.isContainer && item in game.world && item.parent == null && item.count > 0
    ensures AddChecks(game, c, INDEX_WHEREEVER, item, flags) == NoError && !flags.noLimit && !flags.childIsOwner ==>
              !Overfills(game, c, INDEX_WHEREEVER, item, flags)
  {
    hide AddChecks, Overfills, Sound;
    if AddChecks(game, c, INDEX_WHEREEVER, item, flags) == NoError && !flags.noLimit && !flags.childIsOwner
      && Overfills(game, c, INDEX_WHEREEVER, item, flags) {
      OverfillsOnly(game, c, INDEX_WHEREEVER, item, flags);
    }
  }

  method FreeLoose(game: Game, item: Item)
    requires game.Valid() && Stacked(game) && item in game.world && item.parent == null && !item.isContainer
    modifies game`world
    ensures game.Valid() && Stacked(game)
    ensures game.world == old(game.world) - {item} && Things(game.world) == old(Things(game.world)) - {item}
    ensures old(Roomy(game)) ==> Roomy(game)
    ensures forall k :: game.Placed(k) == old(game.Placed(k))
  {
    hide Sound, View, Amount;
    game.PlainIsEmpty(item);
    game.FreeThing(item);
  }

  /** The item itself becomes the first of the list. */
  method AddWhole(game: Game, item: Item, to: Item, place: int)
    requires game.Valid() && Stacked(game) && item in game.world && item.parent == null
    requires to in game.world && to.isContainer && !game.Inside(to, item) && place < to.capacity
    modifies game`rank, to`itemlist, item`parent, game.world`totalWeight
    ensures game.Valid() && Stacked(game) && Poured(old(Things(game.world)), Things(game.world), to, item)
    ensures PutFront(old(Things(game.world)), Things(game.world), to, item)
    ensures forall k :: game.Placed(k) == old(game.Placed(k)) + (if k == item.id then item.count else 0)
    ensures old(Roomy(game)) ==> (Roomy(game) <==> old(|to.itemlist|) < to.capacity)
  {
    hide Game.Valid, Amount, Game.Inside, Game.Totals, Game.Around, GrownBy;
    game.AddThing(to, place, item);
  }

  // ---------------------------------------------------------------- moving an item

  /** What internalMoveItem decides: to answer without a change, or to move `m` pieces. */
  datatype Plan = Stay(ret: ReturnValue) | Go(to: Item, place: int, toItem: Item?, m: nat, ret: ReturnValue)

  ghost predicate InTrade(game: Game, to: Item, tradeItem: Item?)
    requires game.Valid() && to in game.world
    reads game, game.world
  {
    tradeItem != null && game.Inside(to, tradeItem)
  }

  /** The checks on the pieces to be taken. */
  ghost function TakeAnswer(game: Game, from: Item, item: Item, m: nat, flags: Flags, to: Item, tradeItem: Item?): ReturnValue
    requires game.Valid() && from in game.world && item in game.world && to in game.world
    reads game, game.world
  {
    var removal := game.RemoveAnswer(from, item, m, flags);
    if removal != NoError then removal
    else if InTrade(game, to, tradeItem) then NotEnoughRoom
    else NoError
  }

  /** The checks of internalMoveItem for an item that lies in a container, in their order, once the
      destination is known.  When nothing fits at all the source answers RET_NOERROR without moving
      anything. */
  ghost function PlanAt(game: Game, from: Item, to: Item, place: int, toItem: Item?, flags: Flags, item: Item, count: nat, tradeItem: Item?): Plan
    requires game.Valid() && from in game.world && to in game.world && to.isContainer && item in game.world
    reads game, game.world
  {
    var answer := game.AddAnswer(to, place, item, flags);
    var max := game.MaxCount(to, place, item, count, flags);
    var stackable := game.types(item.id).stackable;
    if toItem == item then Stay(NoError)
    else if answer != NoError then Stay(answer)
    else if !flags.noLimit && max <= 0 && (stackable ==> max < count) then Stay(NoError)
    else
      var m: nat := if !stackable then Max(0, max) else if max < count then Max(0, max) else count;
      var answer := TakeAnswer(game, from, item, m, flags, to, tradeItem);
      if answer != NoError then Stay(answer)
      else Go(to, place, toItem, m, if stackable && max < count then ContainerNotEnoughRoom else NoError)
  }

  /** When nothing moves although the answer is success, and the item is not dropped onto itself: just
      when a place is named in a full container and there is no stack with room in it. */
  lemma StaysSilent(game: Game, from: Item, to: Item, place: int, toItem: Item?, flags: Flags, item: Item, count: nat, tradeItem: Item?)
    requires game.Valid() && from in game.world && to in game.world && to.isContainer && item in game.world
    requires toItem != item && !flags.childIsOwner
    ensures PlanAt(game, from, to, place, toItem, flags, item, count, tradeItem) == Stay(NoError) <==>
              && !flags.noLimit && game.types(item.id).pickupable && !game.Inside(to, item)
              && place != INDEX_WHEREEVER && |to.itemlist| >= to.capacity
              && (game.types(item.id).stackable ==>
                    count > 0 && !(0 <= place < |to.itemlist| && to.itemlist[place].id == item.id && to.itemlist[place].count < 100))
  {
    hide Sound, Game.Inside, TakeAnswer;
    game.ItemsInWorld(to);
    SumNonNegative(game.Rooms(to.itemlist, item));
  }

  ghost function MovePlan(game: Game, from: Item, toCylinder: Item, index: int, item: Item, count: nat, flags: Flags, tradeItem: Item?): Plan
    requires game.Valid() && from in game.world && toCylinder in game.world && toCylinder.isContainer && item in game.world
    reads game, game.world
  {
    var (to, place, toItem, flags') := Resolved(game, toCylinder, index, item, flags);
    ResolvedInWorld(game, toCylinder, index, item, flags);
    PlanAt(game, from, to, place, toItem, flags', item, count, tradeItem)
  }

  lemma {:induction false} DroppedWithin(list: seq<Item>, x: Item)
    ensures forall y :: y in Dropped(list, x) ==> y in list
  {
    if list != [] && list[0] != x { DroppedWithin(list[1..], x); }
  }

  /** What is moved goes to the target; away from the cylinder named, the limits hold and nothing is lost. */
  lemma PlanIsTarget(game: Game, from: Item, toCylinder: Item, index: int, item: Item, count: nat, flags: Flags, tradeItem: Item?)
    requires game.Valid() && from in game.world && toCylinder in game.world && toCylinder.isContainer && item in game.world
    requires !flags.childIsOwner && MovePlan(game, from, toCylinder, index, item, count, flags, tradeItem).Go?
    ensures var p, target := MovePlan(game, from, toCylinder, index, item, count, flags, tradeItem), Game.Target(toCylinder, index);
            p.to == target && (!flags.noLimit || target != toCylinder ==> Lost(p, item, game.types) == 0)
  {
    hide Sound, View, Game.Inside, Game.Destination, Game.StackRoom;
    game.DestinationIsTarget(toCylinder, index, item, flags);
    game.DestinationInWorld(toCylinder, index, item, flags);
    ResolvedInWorld(game, toCylinder, index, item, flags);
    var d := game.Destination(toCylinder, index, item, flags);
    if d.0 != toCylinder { game.DestinationSettles(d.0, d.1, item, NO_FLAGS); }
  }

  /** A move that was made brings things only into its destination. */
  lemma MovedInto(game: Game, m: map<Item, Thing>, b: Before, from: Item, item: Item, plan: Plan, moveItem: Item?, lossy: bool)
    requires plan.Go? && Moved(game, b, from, item, plan, moveItem) && from in m && plan.to in m && item in m && m.Keys - {item} <= game.world
    requires b.fromList == m[from].list && b.id == m[item].id && b.count == m[item].count && m[item].parent == from && item in m[from].list
    requires from in game.world && plan.to in game.world && item != from && item != plan.to
    requires plan.toItem != null ==> plan.toItem in m && plan.toItem in game.world && m[plan.toItem].parent == plan.to
    requires game.types(b.id).stackable ==> 1 <= plan.m <= b.count
    requires Framed(m, Things(game.world), {from, plan.to}, Touched(game.types, b.id, item, plan.toItem))
    requires forall x :: x in game.world && x !in m ==> x == moveItem
    requires game.types(b.id).stackable && plan.place >= plan.to.capacity && plan.m > b.merging ==> lossy
    ensures OnlyInto(m, Things(game.world), plan.to, lossy)
  {
    hide Dropped;
    var n := Things(game.world);
    DroppedWithin(b.fromList, item);
    forall c, x | c in m && c in n && c != plan.to && x in n[c].list
      ensures x in m[c].list
    {
      if c != from { assert n[c].list == m[c].list; }
    }
  }

  lemma ResolvedInWorld(game: Game, to: Item, index: int, item: Item, flags: Flags)
    requires game.Valid() && to in game.world && to.isContainer && item in game.world
    ensures var r := Resolved(game, to, index, item, flags);
            && r.0 in game.world && r.0.isContainer && (r.3 == flags || r.3 == NO_FLAGS)
            && (r.2 != null ==> 0 <= r.1 < |r.0.itemlist| && r.0.itemlist[r.1] == r.2 && r.2 in game.world)
            && (0 <= r.1 < |r.0.itemlist| ==> r.2 == r.0.itemlist[r.1])
            && (r.2 == null || !game.types(item.id).stackable ==> r.1 < r.0.capacity)
  {
    hide Sound, View, Game.Inside, Game.Destination;
    game.DestinationInWorld(to, index, item, flags);
    var d := game.Destination(to, index, item, flags);
    if d.0 != to {
      game.DestinationInWorld(d.0, d.1, item, NO_FLAGS);
      game.DestinationSettles(d.0, d.1, item, NO_FLAGS);
    }
  }

  /** What a plan to move guarantees: without FLAG_NOLIMIT a new stack finds a free slot, and one
      beyond the capacity is never needed. */
  lemma GoFits(game: Game, from: Item, toCylinder: Item, index: int, item: Item, count: nat, flags: Flags, tradeItem: Item?)
    requires game.Valid() && from in game.world && toCylinder in game.world && toCylinder.isContainer && item in game.world
    requires !flags.childIsOwner && MovePlan(game, from, toCylinder, index, item, count, flags, tradeItem).Go?
    ensures var p := MovePlan(game, from, toCylinder, index, item, count, flags, tradeItem);
            && p.to in game.world && p.to.isContainer && !game.Inside(p.to, item) && item in from.itemlist
            && (p.toItem != null ==> p.toItem in p.to.itemlist && p.toItem != item)
            && (if game.types(item.id).stackable then 1 <= p.m <= item.count && p.m <= count else p.place < p.to.capacity)
            && (!flags.noLimit ==> Fits(game, item, p) && Lost(p, item, game.types) == 0)
  {
    hide Sound, View, Game.Inside, Resolved, Game.StackRoom;
    ResolvedInWorld(game, toCylinder, index, item, flags);
  }

  /** The queries of internalMoveItem. */
  method CheckMove(game: Game, from: Item, toCylinder: Item, index: int, item: Item, count: nat, flags: Flags, tradeItem: Item?)
    returns (plan: Plan)
    requires game.Valid() && from in game.world && toCylinder in game.world && toCylinder.isContainer && item in game.world
    requires tradeItem != null ==> tradeItem in game.world
    ensures plan == MovePlan(game, from, toCylinder, index, item, count, flags, tradeItem)
  {
    hide Game.Valid, Game.Inside, Resolved, PlanAt;
    ResolvedInWorld(game, toCylinder, index, item, flags);
    var to, place, toItem, finalFlags := ResolveDestination(game, toCylinder, index, item, flags);
    plan := CheckAt(game, from, to, place, toItem, finalFlags, item, count, tradeItem);
  }

  method CheckAt(game: Game, from: Item, to: Item, place: int, toItem: Item?, flags: Flags, item: Item, count: nat, tradeItem: Item?)
    returns (plan: Plan)
    requires game.Valid() && from in game.world && to in game.world && to.isContainer && item in game.world
    requires tradeItem != null ==> tradeItem in game.world
    ensures plan == PlanAt(game, from, to, place, toItem, flags, item, count, tradeItem)
  {
    hide Game.Valid, Game.Inside, Game.MaxCount, Game.AddAnswer, TakeAnswer, InTrade, Game.RemoveAnswer;
    // destination is the same as the source?
    if item == toItem {
      return Stay(NoError);
    }
    var ret := game.QueryAdd(to, place, item, flags);
    if ret != NoError {
      return Stay(ret);
    }
    var retMaxCount, maxQueryCount := game.QueryMaxCount(to, place, item, count, flags);
    if retMaxCount != NoError && maxQueryCount <= 0 {
      return Stay(NoError);
    }
    var m: nat := Max(0, maxQueryCount);
    if game.types(item.id).stackable {
      m := Min(count, m);
    }
    ret := CheckTake(game, from, item, m, flags, to, tradeItem);
    if ret != NoError {
      return Stay(ret);
    }
    plan := Go(to, place, toItem, m, if game.types(item.id).stackable && maxQueryCount < count then retMaxCount else ret);
  }

  method CheckTake(game: Game, from: Item, item: Item, m: nat, flags: Flags, to: Item, tradeItem: Item?) returns (ret: ReturnValue)
    requires game.Valid() && from in game.world && item in game.world && to in game.world
    ensures ret == TakeAnswer(game, from, item, m, flags, to, tradeItem)
  {
    hide Sound, View, Game.Inside;
    ret := game.QueryRemove(from, item, m, flags);
    if ret == NoError && tradeItem != null {
      var trading := HoldsTrade(game, to, tradeItem);
      if trading {
        return NotEnoughRoom;
      }
    }
  }

  method HoldsTrade(game: Game, to: Item, tradeItem: Item) returns (holds: bool)
    requires game.Valid() && to in game.world
    ensures holds == game.Inside(to, tradeItem)
  {
    game.InsideStep(to, tradeItem);
    if to == tradeItem {
      return true;
    }
    holds := game.IsAround(to, tradeItem);
  }

  /** Pieces that get lost: a new stack whose index lies beyond the capacity is never placed. */
  ghost function Lost(plan: Plan, item: Item, types: Catalogue): int
    reads item, if plan.Go? then {plan.to} + (if plan.toItem == null then {} else {plan.toItem}) else {}
  {
    if plan.Go? && types(item.id).stackable && plan.place >= plan.to.capacity then plan.m - Merging(plan.toItem, item, plan.m)
    else 0
  }

  /** The answer to adding an item without limit, and the place it goes to. */
  ghost function AddPlan(game: Game, c: Item, item: Item): (ReturnValue, (Item, int, Item?))
    requires game.Valid() && c in game.world && c.isContainer && item in game.world
    reads game, game.world
  {
    (AddChecks(game, c, INDEX_WHEREEVER, item, NO_LIMIT), game.Destination(c, INDEX_WHEREEVER, item, NO_LIMIT))
  }

  /** Moving an item: the world stays a forest with exact weights, stacks stay within 1 to 100,
      capacities hold without FLAG_NOLIMIT, and no piece of anything appears or disappears but for the
      lost ones.  An item that lies nowhere is added without limit instead, whatever was asked for, and
      `from` is not looked at. */
  method InternalMoveItem(game: Game, from: Item, toCylinder: Item, index: int, item: Item, count: nat, flags: Flags, tradeItem: Item?)
    returns (ret: ReturnValue, moveItem: Item?)
    requires game.Valid() && Stacked(game) && !flags.childIsOwner && toCylinder in game.world && toCylinder.isContainer
    requires from in game.world && item in game.world && (tradeItem != null ==> tradeItem in game.world)
    modifies game, game.world
    ensures game.Valid() && Stacked(game)
    ensures fresh(game.world - old(game.world)) && old(game.world) - {item} <= game.world
    ensures old(item.parent) == null ==>
              && var plan := old(AddPlan(game, toCylinder, item));
              && ret == plan.0 && AddDone(old(Things(game.world)), Things(game.world), plan.1, item, false, (ret, 0))
              && forall k :: game.Placed(k) == old(game.Placed(k)) + (if ret == NoError && k == old(item.id) then old(item.count) else 0)
    ensures old(item.parent) != null ==>
              && var plan := old(MovePlan(game, from, toCylinder, index, item, count, flags, tradeItem));
              && ret == plan.ret
              && (plan.Stay? ==> game.world == old(game.world) && forall x :: x in game.world ==> unchanged(x))
              && (plan.Go? ==> Moved(game, old(Start(from, plan.to, item, plan.m, plan.toItem)), from, item, plan, moveItem))
              && (plan.Go? ==> Framed(old(Things(game.world)), Things(game.world), {from, plan.to}, Touched(game.types, old(item.id), item, plan.toItem)))
              && (forall x :: x in game.world && x !in old(game.world) ==> x == moveItem)
              && (forall k :: game.Placed(k) == old(game.Placed(k)) - (if k != old(item.id) then 0 else old(Lost(plan, item, game.types))))
              && (!flags.noLimit ==> old(Lost(plan, item, game.types)) == 0 && (old(Roomy(game)) ==> Roomy(game)))
    ensures old(item.parent) == null ==> OnlyInto(old(Things(game.world)), Things(game.world), toCylinder, false)
    ensures old(item.parent) != null ==>
              var target := old(Game.Target(toCylinder, index));
              OnlyInto(old(Things(game.world)), Things(game.world), target, flags.noLimit && target == toCylinder)
  {
    hide Sound, View, Amount, Game.Inside, MovePlan, Left, Dropped, Roomy, Stacked, StackMoved, Things, Framed, AddChecks, AddDone, Game.Destination, Moved, Lost, Start, OnlyInto;
    if item.parent == null {
      var remainderCount;
      game.DestinationSettles(toCylinder, INDEX_WHEREEVER, item, NO_LIMIT);
      ret, remainderCount := InternalAddItem(game, toCylinder, item, INDEX_WHEREEVER, NO_LIMIT, false);
      return ret, null;
    }
    ret, moveItem := MoveListed(game, from, toCylinder, index, item, count, flags, tradeItem);
  }

  /** The part for an item that lies in a container. */
  method MoveListed(game: Game, from: Item, toCylinder: Item, index: int, item: Item, count: nat, flags: Flags, tradeItem: Item?)
    returns (ret: ReturnValue, moveItem: Item?)
    requires game.Valid() && Stacked(game) && !flags.childIsOwner
    requires from in game.world && toCylinder in game.world && toCylinder.isContainer && item in game.world
    requires item.parent != null && (tradeItem != null ==> tradeItem in game.world)
    modifies game, game.world
    ensures game.Valid() && Stacked(game)
    ensures fresh(game.world - old(game.world)) && old(game.world) - {item} <= game.world
    ensures var plan := old(MovePlan(game, from, toCylinder, index, item, count, flags, tradeItem));
            && ret == plan.ret
            && (plan.Stay? ==> game.world == old(game.world) && forall x :: x in game.world ==> unchanged(x))
            && (plan.Go? ==> Moved(game, old(Start(from, plan.to, item, plan.m, plan.toItem)), from, item, plan, moveItem))
            && (plan.Go? ==> Framed(old(Things(game.world)), Things(game.world), {from, plan.to}, Touched(game.types, old(item.id), item, plan.toItem)))
            && (forall x :: x in game.world && x !in old(game.world) ==> x == moveItem)
            && (forall k :: game.Placed(k) == old(game.Placed(k)) - (if k != old(item.id) then 0 else old(Lost(plan, item, game.types))))
            && (!flags.noLimit ==> old(Lost(plan, item, game.types)) == 0 && (old(Roomy(game)) ==> Roomy(game)))
    ensures var target := old(Game.Target(toCylinder, index));
            OnlyInto(old(Things(game.world)), Things(game.world), target, flags.noLimit && target == toCylinder)
  {
    hide Game.Valid, Game.Placed, Game.Inside, MovePlan, Left, Dropped, Roomy, Stacked, Things, Framed, Game.Target, Moved, OnlyInto;
    ghost var m := Things(game.world);
    var plan := CheckMove(game, from, toCylinder, index, item, count, flags, tradeItem);
    ret, moveItem := plan.ret, null;
    if plan.Go? {
      GoFits(game, from, toCylinder, index, item, count, flags, tradeItem);
      PlanIsTarget(game, from, toCylinder, index, item, count, flags, tradeItem);
      StartsFrom(game, from, item, plan);
      ghost var b := Start(from, plan.to, item, plan.m, plan.toItem);
      ghost var lossy := flags.noLimit && plan.to == toCylinder;
      assert game.types(b.id).stackable && plan.place >= plan.to.capacity && plan.m > b.merging ==> lossy;
      moveItem := Execute(game, from, item, plan);
      MovedInto(game, m, b, from, item, plan, moveItem, lossy);
    } else {
      NothingInto(m, Game.Target(toCylinder, index), flags.noLimit && Game.Target(toCylinder, index) == toCylinder);
    }
  }

  lemma NothingInto(m: map<Item, Thing>, target: Item, lossy: bool)
    ensures OnlyInto(m, m, target, lossy)
  {
  }

  /** What the snapshot says about the start of a move. */
  lemma StartsFrom(game: Game, from: Item, item: Item, plan: Plan)
    requires game.Valid() && plan.Go? && from in game.world && item in from.itemlist && item in game.world
    requires plan.to in game.world && plan.to.isContainer && !game.Inside(plan.to, item)
    requires plan.toItem != null ==> plan.toItem in plan.to.itemlist
    ensures var m := Things(game.world);
            && m[from].list == from.itemlist && m[item] == Thing(item.id, item.count, from, item.itemlist)
            && item != from && item != plan.to
            && (plan.toItem != null ==> plan.toItem in m && m[plan.toItem].parent == plan.to)
  {
    hide Sound;
    game.ListedHere(from, item);
    game.InsideStep(plan.to, item);
    if plan.toItem != null { game.ListedHere(plan.to, plan.toItem); }
  }

  /** The changes of internalMoveItem. */
  method Execute(game: Game, from: Item, item: Item, plan: Plan) returns (moveItem: Item?)
    requires game.Valid() && Stacked(game) && plan.Go? && from in game.world && item in from.itemlist
    requires plan.to in game.world && plan.to.isContainer && !game.Inside(plan.to, item)
    requires plan.toItem != null ==> plan.toItem in plan.to.itemlist && plan.toItem != item
    requires if game.types(item.id).stackable then 1 <= plan.m <= item.count else plan.place < plan.to.capacity
    modifies game, game.world
    ensures game.Valid() && Stacked(game)
    ensures fresh(game.world - old(game.world)) && old(game.world) - {item} <= game.world
    ensures Moved(game, old(Start(from, plan.to, item, plan.m, plan.toItem)), from, item, plan, moveItem)
    ensures Framed(old(Things(game.world)), Things(game.world), {from, plan.to}, Touched(game.types, old(item.id), item, plan.toItem))
    ensures forall x :: x in game.world && x !in old(game.world) ==> x == moveItem
    ensures forall k :: game.Placed(k) == old(game.Placed(k)) - (if k != old(item.id) then 0 else old(Lost(plan, item, game.types)))
    ensures old(Roomy(game)) && old(Fits(game, item, plan)) ==> Roomy(game)
  {
    hide Sound, View, Amount, Game.Inside, Left, Dropped, Roomy, Stacked, Things, Framed;
    game.ListedHere(from, item);
    if game.types(item.id).stackable {
      moveItem := MoveStack(game, from, plan.to, plan.place, item, plan.m, plan.toItem);
    } else {
      MoveWhole(game, from, plan.to, plan.place, item, plan.m);
      assert {item} + {} == {item};
      moveItem := item;
    }
  }

  /** The items a move may change: what is moved and, for a stack, the one at its destination. */
  function Touched(types: Catalogue, id: nat, item: Item, toItem: Item?): set<Item> {
    {item} + (if types(id).stackable then Just(toItem) else {})
  }

  /** Who holds what after the move. */
  ghost predicate Moved(game: Game, b: Before, from: Item, item: Item, plan: Plan, moveItem: Item?)
    requires plan.Go?
    reads game, from, item, plan.to, if plan.toItem == null then {} else {plan.toItem}, if moveItem == null then {} else {moveItem}
  {
    if game.types(b.id).stackable then
      StackMoved(b, from, plan.to, plan.place, item, plan.m, plan.toItem, moveItem)
      && (item in game.world <==> plan.m < b.count)
    else
      moveItem == item && item in game.world && item.parent == plan.to && item.id == b.id && item.count == b.count
      && plan.to.itemlist == [item] + Left(b.toList, item, from == plan.to)
      && (from != plan.to ==> from.itemlist == Left(b.fromList, item, true))
  }

  /** There is a slot for what the move adds. */
  ghost predicate Fits(game: Game, item: Item, plan: Plan)
    requires plan.Go?
    reads item, plan.to, if plan.toItem == null then {} else {plan.toItem}
  {
    (game.types(item.id).stackable ==> plan.m > Merging(plan.toItem, item, plan.m)) ==> |plan.to.itemlist| < plan.to.capacity
  }
}
