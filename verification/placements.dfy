/** Where things end up that are moved or added to a container at an index. */
module Placements {
  import opened Sequences
  import opened ItemForest
  import opened Containers
  import opened Moves

  /** Nothing speaks against moving `count` pieces of the item into `target`. */
  ghost predicate Welcome(game: Game, from: Item, item: Item, count: nat, target: Item)
    requires game.Valid() && target in game.world
    reads game, game.world
  {
    && from in game.world && item in from.itemlist && item in game.world
    && game.types(item.id).pickupable && game.types(item.id).movable && !game.Inside(target, item)
    && |target.itemlist| < target.capacity
    && count >= 1 && (game.types(item.id).stackable ==> count <= item.count)
  }

  /** The checks let it pass. */
  lemma WelcomePasses(game: Game, from: Item, to: Item, place: int, toItem: Item?, flags: Flags, item: Item, count: nat)
    requires game.Valid() && Stacked(game) && to in game.world && to.isContainer && !flags.childIsOwner
    requires Welcome(game, from, item, count, to) && toItem != item
    ensures var p := PlanAt(game, from, to, place, toItem, flags, item, count, null);
            p.Go? && p.to == to && p.toItem == toItem && p.ret == NoError && (game.types(item.id).stackable ==> p.m == count)
  {
    hide Sound, View, Game.Inside, Game.Rooms;
    game.ItemsInWorld(to);
    SumNonNegative(game.Rooms(to.itemlist, item));
  }

  /** The redirections lead to the target and never onto the item itself. */
  lemma TargetResolved(game: Game, c: Item, index: int, item: Item, flags: Flags)
    requires game.Valid() && c in game.world && c.isContainer && item in game.world
    requires !(0 <= index < |c.itemlist| && c.itemlist[index] == item)
    ensures var r := Resolved(game, c, index, item, flags);
            r.0 == Game.Target(c, index) && r.0 in game.world && r.0.isContainer && r.2 != item && (r.3 == flags || r.3 == NO_FLAGS)
  {
    hide Sound, View, Game.Inside;
    game.DestinationIsTarget(c, index, item, flags);
    game.DestinationInWorld(c, index, item, flags);
    var d := game.Destination(c, index, item, flags);
    if d.0 != c { game.DestinationSettles(d.0, d.1, item, NO_FLAGS); }
  }

  lemma WelcomeGoes(game: Game, from: Item, c: Item, index: int, item: Item, count: nat, flags: Flags)
    requires game.Valid() && Stacked(game) && c in game.world && c.isContainer && !flags.childIsOwner
    requires Game.Target(c, index) in game.world && Welcome(game, from, item, count, Game.Target(c, index))
    requires !(0 <= index < |c.itemlist| && c.itemlist[index] == item)
    ensures var p := MovePlan(game, from, c, index, item, count, flags, null);
            && p.Go? && p.to == Game.Target(c, index) && p.ret == NoError
            && (game.types(item.id).stackable ==> p.m == count)
  {
    hide Game.Valid, Game.Inside, PlanAt, Resolved, Welcome, Stacked, Game.Target;
    assert item in game.world && from in game.world by { InWorld(game, from, item, count, Game.Target(c, index)); }
    TargetResolved(game, c, index, item, flags);
    var r := Resolved(game, c, index, item, flags);
    WelcomePasses(game, from, r.0, r.1, r.2, r.3, item, count);
  }

  lemma InWorld(game: Game, from: Item, item: Item, count: nat, target: Item)
    requires game.Valid() && target in game.world && Welcome(game, from, item, count, target)
    ensures item in game.world && from in game.world && item in from.itemlist
  {
  }

  /** Every piece that is moved goes into the container around `c` for index 254, into a container of the
      list that the index names, and into `c` itself for any other index. */
  method MoveWelcome(game: Game, from: Item, c: Item, index: int, item: Item, count: nat, flags: Flags, target: Item)
    returns (ret: ReturnValue)
    requires game.Valid() && Stacked(game) && c in game.world && c.isContainer && !flags.childIsOwner && target in game.world
    requires target == if index == 254 && c.parent != null then c.parent
                       else if index != 255 && 0 <= index < |c.itemlist| && index < c.capacity && index != 254 && c.itemlist[index].isContainer
                       then c.itemlist[index] else c
    requires Welcome(game, from, item, count, target) && !(0 <= index < |c.itemlist| && c.itemlist[index] == item)
    modifies game, game.world
    ensures game.Valid() && Stacked(game) && ret == NoError
    ensures OnlyInto(old(Things(game.world)), Things(game.world), target, flags.noLimit && target == c)
    ensures !flags.noLimit || target != c ==> forall k :: game.Placed(k) == old(game.Placed(k))
    ensures if !game.types(old(item.id)).stackable then item.parent == target && target.itemlist != [] && target.itemlist[0] == item
            else if count < old(item.count) then item.parent == from && item.count == old(item.count) - count
            else item !in game.world
  {
    hide Game.Valid, Game.Inside, Game.Placed, Stacked, Things, Framed, OnlyInto, MovePlan, Roomy;
    game.ListedHere(from, item);
    WelcomeGoes(game, from, c, index, item, count, flags);
    PlanIsTarget(game, from, c, index, item, count, flags, null);
    var moveItem;
    ret, moveItem := InternalMoveItem(game, from, c, index, item, count, flags, null);
  }

  /** Something speaks against moving the item into `target`: it cannot be carried or taken, is not where it
      should be, would lie in itself, or the target belongs to an offer of a trade. */
  ghost predicate Barred(game: Game, from: Item, item: Item, flags: Flags, tradeItem: Item?, c: Item, target: Item)
    requires game.Valid() && target in game.world
    reads game, game.world, from, item
  {
    || !game.types(item.id).pickupable || game.Inside(target, item) || item !in from.itemlist
    || (!game.types(item.id).movable && (!flags.ignoreNotMovable || target != c))
    || (tradeItem != null && game.Inside(target, tradeItem))
  }

  lemma BarredStays(game: Game, from: Item, c: Item, index: int, item: Item, count: nat, flags: Flags, tradeItem: Item?)
    requires game.Valid() && from in game.world && c in game.world && c.isContainer && item in game.world && !flags.childIsOwner
    requires Game.Target(c, index) in game.world && Barred(game, from, item, flags, tradeItem, c, Game.Target(c, index))
    ensures MovePlan(game, from, c, index, item, count, flags, tradeItem).Stay?
  {
    hide Sound, View, Game.Inside, Game.Rooms;
    game.DestinationIsTarget(c, index, item, flags);
    game.DestinationInWorld(c, index, item, flags);
    var d := game.Destination(c, index, item, flags);
    if d.0 != c { game.DestinationSettles(d.0, d.1, item, NO_FLAGS); }
  }

  /** Then nothing moves. */
  method MoveBarred(game: Game, from: Item, c: Item, index: int, item: Item, count: nat, flags: Flags, tradeItem: Item?, target: Item)
    returns (ret: ReturnValue)
    requires game.Valid() && Stacked(game) && c in game.world && c.isContainer && !flags.childIsOwner && target in game.world
    requires target == if index == 254 && c.parent != null then c.parent
                       else if index != 255 && 0 <= index < |c.itemlist| && index < c.capacity && index != 254 && c.itemlist[index].isContainer
                       then c.itemlist[index] else c
    requires from in game.world && item in game.world && item.parent != null && (tradeItem != null ==> tradeItem in game.world)
    requires Barred(game, from, item, flags, tradeItem, c, target)
    modifies game, game.world
    ensures game.Valid() && game.world == old(game.world) && forall x :: x in game.world ==> unchanged(x)
  {
    hide Game.Valid, Game.Inside, Game.Placed, Stacked, Things, Framed, OnlyInto, MovePlan, Roomy, Barred;
    BarredStays(game, from, c, index, item, count, flags, tradeItem);
    var moveItem;
    ret, moveItem := InternalMoveItem(game, from, c, index, item, count, flags, tradeItem);
  }

  /** The stack at `k` is the one that pieces join: it is named, or, with stacking on, the first of the
      container that has room for pieces from elsewhere. */
  ghost predicate Joins(from: Item, c: Item, index: int, item: Item, flags: Flags, k: nat)
    reads from, c, c.itemlist, item
  {
    && k < |c.itemlist| && c.itemlist[k] != item && c.itemlist[k].id == item.id && c.itemlist[k].count < 100
    && index != 254
    && if index == INDEX_WHEREEVER || index == 255 || index >= c.capacity then
         from != c && !flags.ignoreAutoStack && forall j :: 0 <= j < k ==> c.itemlist[j].id != item.id || c.itemlist[j].count >= 100
       else index == k
  }

  lemma StackResolved(game: Game, from: Item, c: Item, index: int, item: Item, flags: Flags, k: nat)
    requires game.Valid() && Stacked(game) && c in game.world && c.isContainer && item in game.world && from in game.world
    requires item in from.itemlist && game.types(item.id).stackable && Joins(from, c, index, item, flags, k)
    ensures Resolved(game, c, index, item, flags) == (c, k, c.itemlist[k], flags)
  {
    hide Sound, View, Game.Inside;
    game.ListedHere(from, item);
    game.ItemsInWorld(c);
    game.DestinationInWorld(c, index, item, flags);
    assert game.Stackable(c.itemlist[k], item);
  }

  /** The pieces first fill that stack up. */
  method MoveOntoStack(game: Game, from: Item, c: Item, index: int, item: Item, count: nat, flags: Flags, k: nat)
    returns (ret: ReturnValue)
    requires game.Valid() && Stacked(game) && c in game.world && c.isContainer && !flags.childIsOwner
    requires Welcome(game, from, item, count, c) && game.types(item.id).stackable && Joins(from, c, index, item, flags, k)
    modifies game, game.world
    ensures game.Valid() && Stacked(game) && ret == NoError
    ensures var x := old(c.itemlist[k]);
            x.parent == c && x.id == old(item.id) && x.count == Min(100, old(c.itemlist[k].count) + count)
  {
    hide Game.Valid, Game.Inside, Game.Placed, Things, Framed, OnlyInto, PlanAt, Resolved, Welcome, Stacked;
    InWorld(game, from, item, count, c);
    StackResolved(game, from, c, index, item, flags, k);
    WelcomePasses(game, from, c, k, c.itemlist[k], flags, item, count);
    game.ListedHere(from, item);
    var moveItem;
    ret, moveItem := InternalMoveItem(game, from, c, index, item, count, flags, null);
  }

  /** A single item is added exactly if both the container asked for and the one it goes into have a free
      slot, unless limits are off: the room is counted in the first even if the item goes elsewhere. */
  method AddSingle(game: Game, c: Item, index: int, item: Item, flags: Flags, target: Item) returns (ret: ReturnValue)
    requires game.Valid() && Stacked(game) && c in game.world && c.isContainer && !flags.childIsOwner && target in game.world
    requires target == if index == 254 && c.parent != null then c.parent
                       else if index != 255 && 0 <= index < |c.itemlist| && index < c.capacity && index != 254 && c.itemlist[index].isContainer
                       then c.itemlist[index] else c
    requires item in game.world && item.parent == null && !game.types(item.id).stackable
    modifies game, game.world
    ensures game.Valid() && Stacked(game)
    ensures ret == NoError <==>
              && old(game.types(item.id).pickupable && !game.Inside(target, item))
              && (flags.noLimit || old(|c.itemlist| < c.capacity && |target.itemlist| < target.capacity))
    ensures ret == NoError ==> item in game.world && item.parent == target && target.itemlist == [item] + old(target.itemlist)
    ensures OnlyInto(old(Things(game.world)), Things(game.world), target, false)
  {
    hide Game.Valid, Game.Inside, Game.Placed, Things, AddDone, OnlyInto, AddOutcome, Overfills, Roomy, Stacked;
    SingleOutcome(game, c, index, item, flags);
    ThingIs(game.world, target);
    var rest;
    ret, rest := InternalAddItem(game, c, item, index, flags, false);
    if ret == NoError {
      ThingIs(game.world, target);
      ThingIs(game.world, item);
    }
  }

  lemma SingleOutcome(game: Game, c: Item, index: int, item: Item, flags: Flags)
    requires game.Valid() && c in game.world && c.isContainer && !flags.childIsOwner && item in game.world && item.parent == null
    requires !game.types(item.id).stackable
    ensures var target := Game.Target(c, index);
            && target in game.world
            && (AddOutcome(game, c, index, item, flags, false).0 == NoError <==>
                  && game.types(item.id).pickupable && !game.Inside(target, item)
                  && (flags.noLimit || (|c.itemlist| < c.capacity && |target.itemlist| < target.capacity)))
  {
    hide Sound, View, Game.Inside, Game.Rooms;
    game.DestinationIsTarget(c, index, item, flags);
    game.DestinationInWorld(c, index, item, flags);
  }

  /** A full container takes only what the stack found has room for, even if others have room, too. */
  method MoveToFull(game: Game, from: Item, c: Item, index: int, item: Item, count: nat, flags: Flags, k: nat)
    returns (ret: ReturnValue)
    requires game.Valid() && Stacked(game) && c in game.world && c.isContainer && !flags.childIsOwner && !flags.noLimit
    requires from in game.world && item in from.itemlist && item in game.world && !game.Inside(c, item)
    requires game.types(item.id).pickupable && game.types(item.id).movable && game.types(item.id).stackable && 1 <= count <= item.count
    requires |c.itemlist| >= c.capacity && Joins(from, c, index, item, flags, k)
    modifies game, game.world
    ensures game.Valid() && Stacked(game)
    ensures var x, moved := old(c.itemlist[k]), Min(count, 100 - old(c.itemlist[k].count));
            && x.parent == c && x.count == old(c.itemlist[k].count) + moved
            && ret == (if moved == count then NoError else ContainerNotEnoughRoom)
            && (if moved < old(item.count) then item.parent == from && item.count == old(item.count) - moved else item !in game.world)
    ensures forall i :: game.Placed(i) == old(game.Placed(i))
  {
    hide Game.Valid, Game.Inside, Game.Placed, Things, Framed, OnlyInto, PlanAt, Resolved, Stacked;
    StackResolved(game, from, c, index, item, flags, k);
    FullPasses(game, from, c, k, flags, item, count);
    game.ListedHere(from, item);
    var moveItem;
    ret, moveItem := InternalMoveItem(game, from, c, index, item, count, flags, null);
  }

  lemma FullPasses(game: Game, from: Item, c: Item, k: nat, flags: Flags, item: Item, count: nat)
    requires game.Valid() && Stacked(game) && c in game.world && c.isContainer && !flags.childIsOwner && !flags.noLimit
    requires from in game.world && item in from.itemlist && item in game.world && !game.Inside(c, item)
    requires game.types(item.id).pickupable && game.types(item.id).movable && game.types(item.id).stackable && 1 <= count <= item.count
    requires |c.itemlist| >= c.capacity && k < |c.itemlist|
    requires c.itemlist[k] != item && c.itemlist[k].id == item.id && c.itemlist[k].count < 100
    ensures var m := Min(count, 100 - c.itemlist[k].count);
            PlanAt(game, from, c, k, c.itemlist[k], flags, item, count, null)
            == Go(c, k, c.itemlist[k], m, if m == count then NoError else ContainerNotEnoughRoom)
  {
    hide Sound, View, Game.Inside, Game.Rooms;
    game.ItemsInWorld(c);
  }

  /** How many more pieces of an id the stacks of a list have room for. */
  ghost function Places(list: seq<Item>, id: nat): int
    reads list
  {
    if list == [] then 0
    else (if list[0].id == id && list[0].count < 100 then 100 - list[0].count else 0) + Places(list[1..], id)
  }

  lemma {:induction false} PlacesAre(game: Game, list: seq<Item>, item: Item)
    requires item !in list
    ensures game.StackRoom(list, item) == Places(list, item.id) >= 0
  {
    if list != [] {
      PlacesAre(game, list[1..], item);
      assert game.Rooms(list, item)[1..] == game.Rooms(list[1..], item);
    }
  }

  /** A stack is added, all of it, exactly if it may be put there and the free slots and the stacks of its
      kind have room for it, or limits are off. */
  method AddStack(game: Game, c: Item, item: Item, flags: Flags) returns (ret: ReturnValue)
    requires game.Valid() && Stacked(game) && c in game.world && c.isContainer && !flags.childIsOwner && !flags.ignoreAutoStack
    requires item in game.world && item.parent == null && game.types(item.id).stackable
    modifies game, game.world
    ensures game.Valid() && Stacked(game)
    ensures ret == NoError <==>
              && old(game.types(item.id).pickupable && !game.Inside(c, item))
              && (flags.noLimit || old(item.count <= 100 * Max(0, c.capacity - |c.itemlist|) + Places(c.itemlist, item.id)))
    ensures OnlyInto(old(Things(game.world)), Things(game.world), c, false)
    ensures forall k :: game.Placed(k) == old(game.Placed(k)) + (if ret == NoError && k == old(item.id) then old(item.count) else 0)
  {
    hide Game.Valid, Game.Inside, Game.Placed, Things, AddDone, OnlyInto, AddOutcome, Overfills, Roomy, Stacked, Places;
    StackOutcome(game, c, item, flags);
    game.DestinationSettles(c, INDEX_WHEREEVER, item, flags);
    var rest;
    ret, rest := InternalAddItem(game, c, item, INDEX_WHEREEVER, flags, false);
  }

  lemma StackOutcome(game: Game, c: Item, item: Item, flags: Flags)
    requires game.Valid() && Stacked(game) && c in game.world && c.isContainer && !flags.childIsOwner && !flags.ignoreAutoStack
    requires item in game.world && item.parent == null && game.types(item.id).stackable
    ensures var outcome := AddOutcome(game, c, INDEX_WHEREEVER, item, flags, false);
            && outcome.1 == 0
            && (outcome.0 == NoError <==>
                  && game.types(item.id).pickupable && !game.Inside(c, item)
                  && (flags.noLimit || item.count <= 100 * Max(0, c.capacity - |c.itemlist|) + Places(c.itemlist, item.id)))
  {
    hide Sound, View, Game.Inside, Game.Rooms, Places;
    game.ItemsInWorld(c);
    PlacesAre(game, c.itemlist, item);
    game.DestinationInWorld(c, INDEX_WHEREEVER, item, flags);
    game.DestinationSettles(c, INDEX_WHEREEVER, item, flags);
    game.DestinationStacks(c, INDEX_WHEREEVER, item, flags);
  }
}
