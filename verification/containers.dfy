/** The container operations on the objects, and the moves Game makes with them. */
module Containers {
  import opened Sequences
  import opened ItemForest

  const INDEX_WHEREEVER := -1

  datatype ReturnValue =
    | NoError | NotPossible | CannotPickup | NotMovable | ThisIsImpossible | ContainerNotEnoughRoom | NotEnoughRoom

  /** The cylinder flags the container code looks at. */
  datatype Flags = Flags(noLimit: bool, childIsOwner: bool, ignoreNotMovable: bool, ignoreAutoStack: bool)

  const NO_FLAGS := Flags(false, false, false, false)
  const NO_LIMIT := Flags(true, false, false, false)

  class Game {
    const types: Catalogue
    ghost var world: set<Item>
    ghost var rank: map<Item, nat>

    ghost predicate Valid()
      reads this, world
    {
      Sound(View(world, types), rank)
    }

    constructor (types: Catalogue)
      ensures Valid() && world == {} && this.types == types
    {
      this.types := types;
      world, rank := {}, map[];
    }

    /** The number of pieces of `id` lying in containers. */
    ghost function Placed(id: nat): nat
      reads this, world
    {
      Amount(Stacks(world), id)
    }

    /** The weights the containers have cached. */
    ghost function Totals(): (t: map<Item, int>)
      reads this`world, world
      ensures t.Keys == world
    {
      map x | x in world :: x.totalWeight
    }

    lemma TotalsSeen()
      ensures ItemForest.Totals(View(world, types)) == Totals()
    {
    }

    /** A container and everything around it. */
    ghost function Around(c: Item): set<Item>
      requires c in world && Valid()
      reads this, world
    {
      ItemForest.Around(View(world, types), rank, c)
    }

    /** Container::updateItemWeight: the container and everything around it change by `diff`. */
    method UpdateItemWeight(c: Item, diff: int)
      requires c in world && Forest(View(world, types), rank)
      modifies world`totalWeight
      ensures View(world, types) == Propagate(old(View(world, types)), rank, c, diff)
      decreases Higher(View(world, types), rank, c)
    {
      hide Forest, Propagate, Higher;
      PropagateStep(View(world, types), rank, c, diff);
      AddWeight(c, diff);
      if c.parent != null {
        UpdateItemWeight(c.parent, diff);
      }
    }

    method AddWeight(c: Item, diff: int)
      requires c in world
      modifies c`totalWeight
      ensures View(world, types) == AddTotal(old(View(world, types)), c, diff)
    {
      c.totalWeight := c.totalWeight + diff;
    }

    /** Container::__getIndexOfThing */
    method IndexOfThing(c: Item, item: Item) returns (index: int)
      ensures -1 <= index < |c.itemlist|
      ensures index == -1 <==> item !in c.itemlist
      ensures index >= 0 ==> c.itemlist[index] == item
    {
      index := 0;
      while index < |c.itemlist|
        invariant 0 <= index <= |c.itemlist| && item !in c.itemlist[..index]
      {
        if c.itemlist[index] == item {
          return;
        }
        index := index + 1;
      }
      return -1;
    }

    /** Container::__addThing: in front of the list, whatever the index, unless the index lies
        beyond the capacity, when nothing happens. */
    method AddThing(c: Item, index: int, item: Item)
      requires Valid() && c in world && c.isContainer && item in world && item.parent == null
      requires !Inside(c, item)
      modifies this`rank, c`itemlist, item`parent, world`totalWeight
      ensures Valid()
      ensures index >= c.capacity ==> unchanged(c`itemlist, item`parent)
      ensures index < c.capacity ==>
                item.parent == c && c.itemlist == [item] + old(c.itemlist)
      ensures index >= c.capacity ==> Totals() == old(Totals())
      ensures index < c.capacity && types(item.id).stackable && item.count >= 1 && !item.isContainer ==>
                Totals() == GrownBy(old(Totals()), old(Around(c)), types(item.id).weight * item.count)
      ensures index < c.capacity && !types(item.id).stackable && !item.isContainer ==>
                Totals() == GrownBy(old(Totals()), old(Around(c)), types(item.id).weight)
      ensures index < c.capacity && !types(item.id).stackable && item.isContainer ==>
                Totals() == GrownBy(old(Totals()), old(Around(c)), types(item.id).weight + old(item.totalWeight))
      ensures forall id :: Placed(id) == old(Placed(id)) + (if index < c.capacity && id == item.id then item.count else 0)
    {
      hide Sound, View, Inside, Amount, Around, GrownBy;
      if index >= c.capacity {
        return;
      }
      ghost var before := Stacks(world);
      Place(c, item);
      assert Stacks(world) == before[item := Stacks(world)[item]];
      AmountsChange(before, Stacks(world), item);
    }

    method Place(c: Item, item: Item)
      requires Valid() && c in world && c.isContainer && item in world && item.parent == null
      requires !Inside(c, item)
      modifies this`rank, c`itemlist, item`parent, world`totalWeight
      ensures Valid() && item.parent == c && c.itemlist == [item] + old(c.itemlist)
      ensures Totals() == GrownBy(old(Totals()), old(Around(c)), old(item.Weight(types)))
    {
      hide Valid, Inside, GrownBy, Totals, OwnWeight;
      Raise(c, item);
      PlaceRaised(c, item);
    }

    method PlaceRaised(c: Item, item: Item)
      requires Valid() && c in world && c.isContainer && item in world && item.parent == null
      requires item in rank && c in rank && rank[item] < rank[c]
      modifies c`itemlist, item`parent, world`totalWeight
      ensures Valid() && item.parent == c && c.itemlist == [item] + old(c.itemlist)
      ensures Totals() == GrownBy(old(Totals()), old(Around(c)), old(item.Weight(types)))
    {
      hide Forest, Weighed, Inside, GrownBy, ItemForest.Around, Totals, ItemForest.Totals, OwnWeight, Added;
      TotalsSeen();
      AddedTotals(View(world, types), rank, c, item);
      PlaceBelow(c, item);
      TotalsSeen();
    }

    method PlaceBelow(c: Item, item: Item)
      requires Valid() && c in world && c.isContainer && item in world && item.parent == null
      requires item in rank && c in rank && rank[item] < rank[c]
      modifies c`itemlist, item`parent, world`totalWeight
      ensures Valid() && item.parent == c && c.itemlist == [item] + old(c.itemlist)
      ensures View(world, types) == Added(old(View(world, types)), rank, c, item)
    {
      hide Forest, Weighed, Propagate, PutFirst;
      ghost var m := View(world, types);
      AddedSound(m, rank, c, item);
      PutFirstForest(m, rank, c, item);
      var weight := item.Weight(types);
      LinkFirst(c, item);
      UpdateItemWeight(c, weight);
    }

    /** Lifts a container above an item about to enter it. */
    ghost method Raise(c: Item, item: Item)
      requires Valid() && c in world && item in world && !Inside(c, item)
      modifies this`rank
      ensures Valid() && item in rank && c in rank && rank[item] < rank[c] && Around(c) == old(Around(c))
    {
      hide Forest, Weighed, Raised, ItemForest.Within, ItemForest.Around;
      ghost var m := View(world, types);
      RaisedForest(m, rank, c, rank[item]);
      AroundSame(m, rank, m, Raised(m, rank, c, rank[item]), c);
      rank := Raised(View(world, types), rank, c, rank[item]);
    }

    method LinkFirst(c: Item, item: Item)
      requires c in world && item in world
      modifies c`itemlist, item`parent
      ensures item.parent == c && c.itemlist == [item] + old(c.itemlist)
      ensures View(world, types) == PutFirst(old(View(world, types)), c, item)
    {
      item.parent := c;
      c.itemlist := [item] + c.itemlist;
    }

    /** A stack inside `c` changes its id or count. */
    method Restack(c: Item, item: Item, id: nat, count: nat)
      requires Valid() && c in world && c.isContainer && item in c.itemlist
      modifies item`id, item`count, world`totalWeight
      ensures Valid() && item.id == id && item.count == count
      ensures Totals() == GrownBy(old(Totals()), old(Around(c)), OwnWeight(types(id), count) - old(OwnWeight(types(item.id), item.count)))
    {
      hide Forest, Weighed, GrownBy, ItemForest.Around, Totals, ItemForest.Totals, OwnWeight, Restacked;
      ListedIn(View(world, types), rank, c, item);
      TotalsSeen();
      RestackedTotals(View(world, types), rank, c, item, OwnWeight(types(id), count));
      RestackLinked(c, item, id, count);
      TotalsSeen();
    }

    method RestackLinked(c: Item, item: Item, id: nat, count: nat)
      requires Valid() && c in world && c.isContainer && item in c.itemlist
      modifies item`id, item`count, world`totalWeight
      ensures Valid() && item.id == id && item.count == count
      ensures View(world, types) == Restacked(old(View(world, types)), rank, c, item, OwnWeight(types(id), count))
    {
      hide Lists, Down, Up, Weighed, Propagate;
      ghost var m := View(world, types);
      ListedIn(m, rank, c, item);
      RestackedSound(m, rank, c, item, OwnWeight(types(id), count));
      var oldWeight := item.Weight(types);
      SetStack(item, id, count);
      SameLinksForest(m, View(world, types), rank);
      UpdateItemWeight(c, -oldWeight + item.Weight(types));
    }

    method SetStack(item: Item, id: nat, count: nat)
      requires item in world
      modifies item`id, item`count
      ensures item.id == id && item.count == count
      ensures View(world, types) == SetOwn(old(View(world, types)), item, OwnWeight(types(id), count))
    {
      item.id := id;
      item.count := count;
    }

    /** Container::__updateThing, for items whose subtype is their count (a byte). */
    method UpdateThing(c: Item, item: Item, id: nat, count: nat)
      requires Valid() && c in world && c.isContainer && item in world
      modifies item`id, item`count, world`totalWeight
      ensures Valid()
      ensures item !in c.itemlist ==> unchanged(item`id, item`count)
      ensures item in c.itemlist ==> item.id == id && item.count == count % 0x100
      ensures item in c.itemlist && id == old(item.id) ==>
                forall k :: Placed(k) == old(Placed(k)) + (if k == id then item.count - old(item.count) else 0)
      ensures item !in c.itemlist ==> Totals() == old(Totals())
      ensures item in c.itemlist && id == old(item.id) && types(id).stackable && item.count >= 1 && old(item.count) >= 1 ==>
                Totals() == GrownBy(old(Totals()), old(Around(c)), types(id).weight * item.count - types(id).weight * old(item.count))
    {
      hide Sound, View, Amount, Around, GrownBy;
      var index := IndexOfThing(c, item);
      if index == -1 {
        return;
      }
      ghost var before := Stacks(world);
      ListedHere(c, item);
      Restack(c, item, id, count % 0x100);
      assert Stacks(world) == before[item := Stacks(world)[item]];
      AmountsChange(before, Stacks(world), item);
    }

    lemma ListDistinct(c: Item)
      requires Valid() && c in world
      ensures Distinct(c.itemlist)
    {
      assert View(world, types)[c].list == c.itemlist;
    }

    lemma PlainIsEmpty(item: Item)
      requires Valid() && item in world
      ensures !item.isContainer ==> item.itemlist == []
    {
      assert View(world, types)[item].list == item.itemlist;
    }

    lemma PlainNotAround(c: Item, item: Item)
      requires Valid() && c in world && item in world && !item.isContainer && c != item
      ensures !Inside(c, item)
    {
      if Inside(c, item) { OnlyContainersHold(c, item); }
    }

    lemma ListedHere(c: Item, item: Item)
      requires Valid() && c in world && item in c.itemlist
      ensures item in world && item.parent == c && c.isContainer && item != c
    {
      ListedIn(View(world, types), rank, c, item);
    }

    lemma RanksForest()
      requires Valid()
      ensures Forest(View(world, types), rank)
    {
    }

    lemma ParentLists(item: Item)
      requires Valid() && item in world && item.parent != null
      ensures item.parent in world && item.parent.isContainer && item.parent != item && item in item.parent.itemlist
    {
      var m := View(world, types);
      assert m[item].parent == item.parent && item in m[item.parent].list;
    }

    /** Container::__removeThing: a part of a stack, or the whole item. */
    method RemoveThing(c: Item, item: Item, count: nat)
      requires Valid() && c in world && c.isContainer && item in world
      modifies c`itemlist, item`parent, item`count, item`id, world`totalWeight
      ensures Valid() && item.id == old(item.id)
      ensures item !in old(c.itemlist) ==>
                unchanged(c`itemlist, item`parent, item`count)
      ensures item in old(c.itemlist) && types(item.id).stackable && count != old(item.count) ==>
                unchanged(c`itemlist, item`parent) && item.count == Max(1, old(item.count) - count) % 0x100
      ensures item in old(c.itemlist) && !(types(item.id).stackable && count != old(item.count)) ==>
                item.count == old(item.count) && item.parent == null
                && c.itemlist == Dropped(old(c.itemlist), item)
      ensures item in old(c.itemlist) ==>
                forall k :: Placed(k) == old(Placed(k)) -
                  (if k == item.id then old(item.count) - (if item.parent == null then 0 else item.count) else 0)
      ensures item !in old(c.itemlist) ==> Totals() == old(Totals())
      ensures item in old(c.itemlist) && types(item.id).stackable && 1 <= count < old(item.count) < 0x100 ==>
                Totals() == GrownBy(old(Totals()), old(Around(c)), types(item.id).weight * (old(item.count) - count)
                                                                   - types(item.id).weight * old(item.count))
      ensures item in old(c.itemlist) && types(item.id).stackable && 1 <= count == old(item.count) && !item.isContainer ==>
                Totals() == GrownBy(old(Totals()), old(Around(c)), -(types(item.id).weight * count))
      ensures item in old(c.itemlist) && !types(item.id).stackable ==>
                Totals() == GrownBy(old(Totals()), old(Around(c)),
                                    -types(item.id).weight - (if item.isContainer then old(item.totalWeight) else 0))
    {
      hide Valid, Dropped, Amount, Around, GrownBy, Totals, OwnWeight;
      ghost var before := Stacks(world);
      var index := IndexOfThing(c, item);
      if index == -1 {
        return;
      }
      ListedHere(c, item);
      TakeOff(c, item, count, index);
      OneStack(before, item);
    }

    /** The part of __removeThing for an item that is in the list. */
    method TakeOff(c: Item, item: Item, count: nat, index: nat)
      requires Valid() && c in world && c.isContainer && item in world && index < |c.itemlist| && c.itemlist[index] == item
      requires item.parent == c
      modifies c`itemlist, item`parent, item`count, item`id, world`totalWeight
      ensures Valid() && item.id == old(item.id)
      ensures types(item.id).stackable && count != old(item.count) ==>
                unchanged(c`itemlist, item`parent) && item.count == Max(1, old(item.count) - count) % 0x100
      ensures !(types(item.id).stackable && count != old(item.count)) ==>
                item.count == old(item.count) && item.parent == null && c.itemlist == Dropped(old(c.itemlist), item)
      ensures types(item.id).stackable && 1 <= count < old(item.count) < 0x100 ==>
                Totals() == GrownBy(old(Totals()), old(Around(c)), types(item.id).weight * (old(item.count) - count)
                                                                   - types(item.id).weight * old(item.count))
      ensures types(item.id).stackable && 1 <= count == old(item.count) && !item.isContainer ==>
                Totals() == GrownBy(old(Totals()), old(Around(c)), -(types(item.id).weight * count))
      ensures !types(item.id).stackable ==>
                Totals() == GrownBy(old(Totals()), old(Around(c)),
                                    -types(item.id).weight - (if item.isContainer then old(item.totalWeight) else 0))
    {
      hide Valid, Dropped, Around, GrownBy, Totals, OwnWeight;
      StackWeighs(types(item.id), item.count);
      if types(item.id).stackable && count != item.count {
        Restack(c, item, item.id, Max(1, item.count - count) % 0x100);
        StackWeighs(types(item.id), item.count);
      } else {
        Unlink(c, item, index);
      }
    }

    /** The amounts placed follow when a single stack has changed. */
    lemma OneStack(before: map<Item, Stack>, item: Item)
      requires item in world && before.Keys == world && forall x :: x in world && x != item ==> before[x] == Stacks(world)[x]
      ensures forall id :: Placed(id) == Amount(before, id) - before[item].Of(id) + Stacks(world)[item].Of(id)
    {
      assert Stacks(world) == before[item := Stacks(world)[item]];
      AmountsChange(before, Stacks(world), item);
    }

    method Unlink(c: Item, item: Item, index: nat)
      requires Valid() && c in world && c.isContainer && item in world
      requires index < |c.itemlist| && c.itemlist[index] == item
      modifies c`itemlist, item`parent, world`totalWeight
      ensures Valid() && item.parent == null && c.itemlist == Dropped(old(c.itemlist), item)
      ensures Totals() == GrownBy(old(Totals()), old(Around(c)), -old(item.Weight(types)))
    {
      hide Forest, Weighed, GrownBy, ItemForest.Around, Totals, ItemForest.Totals, OwnWeight, Removed, Dropped;
      TotalsSeen();
      RemovedTotals(View(world, types), rank, c, index);
      UnlinkLinked(c, item, index);
      TotalsSeen();
    }

    method UnlinkLinked(c: Item, item: Item, index: nat)
      requires Valid() && c in world && c.isContainer && item in world
      requires index < |c.itemlist| && c.itemlist[index] == item
      modifies c`itemlist, item`parent, world`totalWeight
      ensures Valid() && item.parent == null && c.itemlist == Dropped(old(c.itemlist), item)
      ensures View(world, types) == Removed(old(View(world, types)), rank, c, index)
    {
      hide Lists, Down, Up, Weighed, Propagate, TakeOut, Distinct;
      ghost var m := View(world, types);
      ListedBelow(m, rank, c, index);
      RemovedSound(m, rank, c, index);
      DroppedAt(m, rank, c, index);
      UpdateItemWeight(c, -item.Weight(types));
      CutOut(c, item, index);
    }

    method CutOut(c: Item, item: Item, index: nat)
      requires c in world && item in world && index < |c.itemlist| && c.itemlist[index] == item
      modifies c`itemlist, item`parent
      ensures item.parent == null && c.itemlist == old(c.itemlist[..index] + c.itemlist[index + 1..])
      ensures View(world, types) == TakeOut(old(View(world, types)), c, index)
    {
      item.parent := null;
      c.itemlist := c.itemlist[..index] + c.itemlist[index + 1..];
    }

    /** Container::__replaceThing together with the setParent(nullptr) by which transformItem takes
        the replaced item out of the tree. */
    method ReplaceThing(c: Item, index: nat, item: Item)
      requires Valid() && c in world && c.isContainer && item in world && item.parent == null && !Inside(c, item)
      modifies this`rank, c`itemlist, world`parent, world`totalWeight
      ensures Valid()
      ensures index >= |old(c.itemlist)| ==> unchanged(c`itemlist) && forall x :: x in world ==> unchanged(x`parent)
      ensures index < |old(c.itemlist)| ==>
                && c.itemlist == old(c.itemlist)[index := item] && item.parent == c && old(c.itemlist)[index].parent == null
                && forall x :: x in world && x != item && x != old(c.itemlist)[index] ==> unchanged(x`parent)
      ensures index < |old(c.itemlist)| ==>
                forall k :: Placed(k) == old(Placed(k)) + (if k == item.id then item.count else 0)
                                         - (if k == old(c.itemlist)[index].id then old(c.itemlist)[index].count else 0)
      ensures index < |old(c.itemlist)| ==>
                Totals() == GrownBy(old(Totals()), old(Around(c)), old(item.Weight(types)) - old(c.itemlist[index].Weight(types)))
    {
      hide Sound, View, Inside, Amount, Around, GrownBy;
      if index >= |c.itemlist| {
        return;
      }
      var replaced := c.itemlist[index];
      ListedHere(c, replaced);
      ghost var before := Stacks(world);
      Substitute(c, index, item, replaced);
      ghost var middle := before[replaced := Stacks(world)[replaced]];
      AmountsChange(before, middle, replaced);
      assert Stacks(world) == middle[item := Stacks(world)[item]];
      AmountsChange(middle, Stacks(world), item);
    }

    method Substitute(c: Item, index: nat, item: Item, replaced: Item)
      requires Valid() && c in world && c.isContainer && item in world && item.parent == null && !Inside(c, item)
      requires index < |c.itemlist| && c.itemlist[index] == replaced && replaced in world
      modifies this`rank, c`itemlist, item`parent, replaced`parent, world`totalWeight
      ensures Valid() && c.itemlist == old(c.itemlist)[index := item] && item.parent == c && replaced.parent == null
      ensures Totals() == GrownBy(old(Totals()), old(Around(c)), old(item.Weight(types)) - old(replaced.Weight(types)))
    {
      hide Valid, Inside, GrownBy, Totals, OwnWeight;
      Raise(c, item);
      SubstituteRaised(c, index, item, replaced);
    }

    method SubstituteRaised(c: Item, index: nat, item: Item, replaced: Item)
      requires Valid() && c in world && c.isContainer && item in world && item.parent == null
      requires item in rank && c in rank && rank[item] < rank[c]
      requires index < |c.itemlist| && c.itemlist[index] == replaced && replaced in world
      modifies c`itemlist, item`parent, replaced`parent, world`totalWeight
      ensures Valid() && c.itemlist == old(c.itemlist)[index := item] && item.parent == c && replaced.parent == null
      ensures Totals() == GrownBy(old(Totals()), old(Around(c)), old(item.Weight(types)) - old(replaced.Weight(types)))
    {
      hide Forest, Weighed, Inside, GrownBy, ItemForest.Around, Totals, ItemForest.Totals, OwnWeight, Replaced;
      TotalsSeen();
      ReplacedTotals(View(world, types), rank, c, index, item);
      SubstituteBelow(c, index, item, replaced);
      TotalsSeen();
    }

    method SubstituteBelow(c: Item, index: nat, item: Item, replaced: Item)
      requires Valid() && c in world && c.isContainer && item in world && item.parent == null
      requires item in rank && c in rank && rank[item] < rank[c]
      requires index < |c.itemlist| && c.itemlist[index] == replaced && replaced in world
      modifies c`itemlist, item`parent, replaced`parent, world`totalWeight
      ensures Valid() && c.itemlist == old(c.itemlist)[index := item] && item.parent == c && replaced.parent == null
      ensures View(world, types) == Replaced(old(View(world, types)), rank, c, index, item)
    {
      hide Forest, Weighed, Propagate, SwapAt;
      ghost var m := View(world, types);
      ReplacedSound(m, rank, c, index, item);
      SwapAtForest(m, rank, c, index, item);
      var diff := -c.itemlist[index].Weight(types) + item.Weight(types);
      SwapLinks(c, index, item, replaced);
      UpdateItemWeight(c, diff);
    }

    method SwapLinks(c: Item, index: nat, item: Item, replaced: Item)
      requires c in world && item in world && index < |c.itemlist| && c.itemlist[index] == replaced && replaced in world && replaced != item
      modifies c`itemlist, item`parent, replaced`parent
      ensures item.parent == c && c.itemlist == old(c.itemlist)[index := item] && replaced.parent == null
      ensures View(world, types) == SwapAt(old(View(world, types)), c, index, item)
    {
      hide OwnWeight;
      c.itemlist := c.itemlist[index := item];
      item.parent := c;
      replaced.parent := null;
    }

    /** Item::CreateItem for a plain stackable or single item. */
    method CreateItem(id: nat, amount: nat) returns (item: Item)
      requires Valid()
      modifies this`world, this`rank
      ensures Valid() && fresh(item) && world == old(world) + {item}
      ensures item.parent == null && !item.isContainer && item.itemlist == [] && item.id == id
      ensures item.count == (if types(id).stackable && amount > 0 then amount % 0x100 else 1)
      ensures forall k :: Placed(k) == old(Placed(k))
    {
      hide Sound, Amount, View;
      item := new Item(id, if types(id).stackable && amount > 0 then amount % 0x100 else 1, false, 0);
      Enter(item);
    }

    /** An item that holds nothing and lies nowhere joins the world. */
    ghost method Enter(item: Item)
      requires Valid() && item !in world && item.parent == null && item.itemlist == [] && item.totalWeight == 0
      modifies this`world, this`rank
      ensures Valid() && world == old(world) + {item}
      ensures forall k :: Placed(k) == old(Placed(k))
    {
      hide Sound, Amount, OwnWeight;
      var m, before := View(world, types), Stacks(world);
      NewcomerSound(m, rank, item, Entry(null, [], item.isContainer, OwnWeight(types(item.id), item.count), 0));
      world, rank := world + {item}, rank[item := 0];
      assert View(world, types) == m[item := View(world, types)[item]];
      assert Stacks(world) == before[item := Stacks(world)[item]];
      AmountsChange(before, Stacks(world), item);
    }

    /** Game::freeThing on an item that lies nowhere and holds nothing. */
    method FreeThing(item: Item)
      requires Valid() && item in world && item.parent == null && item.itemlist == []
      modifies this`world
      ensures Valid() && world == old(world) - {item}
      ensures forall k :: Placed(k) == old(Placed(k))
    {
      hide Sound, Amount, OwnWeight;
      ghost var m, before := View(world, types), Stacks(world);
      LeaverSound(m, rank, item);
      world := world - {item};
      assert View(world, types) == m - {item};
      assert before == Stacks(world)[item := before[item]];
      AmountsChange(Stacks(world), before, item);
    }

    // -------------------------------------------------------------- queries

    /** `a` is the container `c` or lies around it. */
    ghost predicate Inside(c: Item, a: Item)
      requires Valid() && c in world
      reads this, world
    {
      ItemForest.Within(View(world, types), rank, c, a)
    }

    /** The answer of Container::__queryAdd in a world whose topmost cylinders are containers. */
    ghost function AddAnswer(c: Item, index: int, item: Item, flags: Flags): ReturnValue
      requires Valid() && c in world
      reads this, world, item
    {
      if flags.childIsOwner then NoError
      else if !types(item.id).pickupable then CannotPickup
      else if Inside(c, item) then ThisIsImpossible
      else if !flags.noLimit && index == INDEX_WHEREEVER && |c.itemlist| >= c.capacity then ContainerNotEnoughRoom
      else NoError
    }

    method QueryAdd(c: Item, index: int, item: Item, flags: Flags) returns (ret: ReturnValue)
      requires Valid() && c in world && item in world
      ensures ret == AddAnswer(c, index, item, flags)
    {
      if flags.childIsOwner {
        return NoError;
      }
      if !types(item.id).pickupable {
        return CannotPickup;
      }
      if item == c {
        return ThisIsImpossible;
      }
      var cyclic := false;
      if item.isContainer {
        cyclic := IsAround(c, item);
      }
      if Inside(c, item) { OnlyContainersHold(c, item); }
      if cyclic {
        return ThisIsImpossible;
      }
      if !flags.noLimit && index == INDEX_WHEREEVER && |c.itemlist| >= c.capacity {
        return ContainerNotEnoughRoom;
      }
      // the topmost container answers a child's query without a check of its own
      return NoError;
    }

    /** The loop over the parents of `c`. */
    method IsAround(c: Item, item: Item) returns (found: bool)
      requires Valid() && c in world && c != item
      ensures found == Inside(c, item)
    {
      ghost var m := View(world, types);
      var cylinder := c.parent;
      InsideStep(c, item);
      while cylinder != null
        invariant cylinder != null ==> cylinder in world
        invariant Inside(c, item) <==> cylinder != null && Inside(cylinder, item)
        decreases if cylinder == null then {} else Higher(m, rank, cylinder), cylinder != null
      {
        InsideStep(cylinder, item);
        if cylinder == item {
          return true;
        }
        cylinder := cylinder.parent;
      }
      return false;
    }

    lemma InsideStep(c: Item, a: Item)
      requires Valid() && c in world
      ensures c.parent != null ==>
                c.parent in world && Higher(View(world, types), rank, c.parent) < Higher(View(world, types), rank, c)
      ensures Inside(c, a) <==> c == a || (c.parent != null && Inside(c.parent, a))
    {
      if c.parent != null { HigherShrinks(View(world, types), rank, c); }
    }

    lemma {:induction false} OnlyContainersHold(c: Item, a: Item)
      requires Valid() && c in world && a in world && Inside(c, a)
      ensures c == a || a.isContainer
      decreases Higher(View(world, types), rank, c)
    {
      InsideStep(c, a);
      if c != a { OnlyContainersHold(c.parent, a); }
    }

    /** `x` has room for more of what `item` is. */
    predicate Stackable(x: Item, item: Item)
      reads x, item
    {
      x != item && x.id == item.id && x.count < 100
    }

    /** The free places in the stacks of a list that `item` could join. */
    ghost function Rooms(list: seq<Item>, item: Item): (rooms: seq<int>)
      reads list, item
      ensures |rooms| == |list|
      ensures forall i :: 0 <= i < |list| ==> rooms[i] == (if Stackable(list[i], item) then 100 - list[i].count else 0)
    {
      seq(|list|, i requires 0 <= i < |list| reads list, item => if Stackable(list[i], item) then 100 - list[i].count else 0)
    }

    ghost function StackRoom(list: seq<Item>, item: Item): int
      reads list, item
    {
      Sum(Rooms(list, item))
    }

    /** How many pieces of `item` Container::__queryMaxCount allows for. */
    ghost function MaxCount(c: Item, index: int, item: Item, count: nat, flags: Flags): int
      requires Valid() && c in world && c.isContainer && item in world
      reads this, world
    {
      ItemsInWorld(c);
      var freeSlots := Max(0, c.capacity - |c.itemlist|);
      if flags.noLimit then Max(1, count)
      else if !types(item.id).stackable then freeSlots
      else if AddAnswer(c, if index == INDEX_WHEREEVER then 0 else index, item, flags) != NoError then freeSlots * 100
      else if index == INDEX_WHEREEVER then freeSlots * 100 + StackRoom(c.itemlist, item)
      else if 0 <= index < |c.itemlist| && c.itemlist[index].id == item.id && c.itemlist[index].count < 100 then
        freeSlots * 100 + (100 - c.itemlist[index].count)
      else freeSlots * 100
    }

    lemma ItemsInWorld(c: Item)
      requires Valid() && c in world
      ensures forall x :: x in c.itemlist ==> x in world && x.parent == c
    {
      assert View(world, types)[c].list == c.itemlist;
    }

    method QueryMaxCount(c: Item, index: int, item: Item, count: nat, flags: Flags)
      returns (ret: ReturnValue, maxQueryCount: int)
      requires Valid() && c in world && c.isContainer && item in world
      ensures maxQueryCount == MaxCount(c, index, item, count, flags)
      ensures ret == (if flags.noLimit || (if types(item.id).stackable then maxQueryCount >= count else maxQueryCount > 0)
                      then NoError else ContainerNotEnoughRoom)
      ensures flags.noLimit ==> maxQueryCount == Max(1, count)
    {
      hide Sound, Inside;
      ItemsInWorld(c);
      if flags.noLimit {
        return NoError, Max(1, count);
      }
      var freeSlots := Max(0, c.capacity - |c.itemlist|);
      if types(item.id).stackable {
        var n := 0;
        if index == INDEX_WHEREEVER {
          n := CountRoom(c, item, flags);
        } else if 0 <= index < |c.itemlist| {
          var destItem := c.itemlist[index];
          if destItem.id == item.id && destItem.count < 100 {
            var admitted := QueryAdd(c, index, item, flags);
            if admitted == NoError {
              n := 100 - destItem.count;
            }
          }
        }
        maxQueryCount := freeSlots * 100 + n;
        ret := if maxQueryCount < count then ContainerNotEnoughRoom else NoError;
      } else {
        maxQueryCount := freeSlots;
        ret := if maxQueryCount == 0 then ContainerNotEnoughRoom else NoError;
      }
    }

    lemma RoomsSnoc(list: seq<Item>, i: nat, item: Item)
      requires i < |list|
      ensures StackRoom(list[..i + 1], item)
              == StackRoom(list[..i], item) + (if Stackable(list[i], item) then 100 - list[i].count else 0)
    {
      var x := if Stackable(list[i], item) then 100 - list[i].count else 0;
      assert Rooms(list[..i + 1], item) == Rooms(list[..i], item) + [x];
      SumSnoc(Rooms(list[..i], item), x);
    }

    /** The loop over all stacks with room, each admitted by a query of its own. */
    method CountRoom(c: Item, item: Item, flags: Flags) returns (n: int)
      requires Valid() && c in world && item in world
      ensures n == (if AddAnswer(c, 0, item, flags) == NoError then StackRoom(c.itemlist, item) else 0)
    {
      hide Sound, Inside;
      n := 0;
      var slotIndex := 0;
      for i := 0 to |c.itemlist|
        invariant slotIndex >= 0
        invariant n == if AddAnswer(c, 0, item, flags) == NoError then StackRoom(c.itemlist[..i], item) else 0
      {
        var containerItem := c.itemlist[i];
        RoomsSnoc(c.itemlist, i, item);
        if Stackable(containerItem, item) {
          var admitted := QueryAdd(c, slotIndex, item, flags);
          if admitted == NoError {
            n := n + (100 - containerItem.count);
          }
          slotIndex := slotIndex + 1;
        }
      }
      assert c.itemlist[..|c.itemlist|] == c.itemlist;
    }

    /** The answer of Container::__queryRemove. */
    function RemoveAnswer(c: Item, item: Item, count: nat, flags: Flags): ReturnValue
      reads c, item
    {
      if item !in c.itemlist then NotPossible
      else if count == 0 || (types(item.id).stackable && count > item.count) then NotPossible
      else if !types(item.id).movable && !flags.ignoreNotMovable then NotMovable
      else NoError
    }

    method QueryRemove(c: Item, item: Item, count: nat, flags: Flags) returns (ret: ReturnValue)
      ensures ret == RemoveAnswer(c, item, count, flags)
    {
      var index := IndexOfThing(c, item);
      if index == -1 {
        return NotPossible;
      }
      if count == 0 || (types(item.id).stackable && count > item.count) {
        return NotPossible;
      }
      if !types(item.id).movable && !flags.ignoreNotMovable {
        return NotMovable;
      }
      return NoError;
    }

    /** The position of the first stack `item` could join, or the length of the list. */
    ghost function FirstStack(list: seq<Item>, item: Item): (n: nat)
      reads list, item
      ensures n <= |list| && (n < |list| ==> Stackable(list[n], item))
      ensures forall i :: 0 <= i < n ==> !Stackable(list[i], item)
    {
      if list == [] then 0
      else if Stackable(list[0], item) then 0
      else 1 + FirstStack(list[1..], item)
    }

    /** What Container::__queryDestination answers: the cylinder to use, the index there, and the
        item at that place. */
    ghost function Destination(c: Item, index: int, item: Item, flags: Flags): (Item, int, Item?)
      requires Valid() && c in world && c.isContainer && item in world
      reads this, world
    {
      ItemsInWorld(c);
      var place := if index == 255 || index >= c.capacity then INDEX_WHEREEVER else index;
      var at: Item? := if 0 <= place < |c.itemlist| then c.itemlist[place] else null;
      if index == 254 then (if c.parent != null then c.parent else c, INDEX_WHEREEVER, null)
      else if at != null && at.isContainer then (at, INDEX_WHEREEVER, null)
      else if !flags.ignoreAutoStack && types(item.id).stackable && item.parent != c
              && !(at != null && at.id == item.id && at.count < 100)
              && FirstStack(c.itemlist, item) < |c.itemlist|
      then (c, FirstStack(c.itemlist, item), c.itemlist[FirstStack(c.itemlist, item)])
      else (c, place, at)
    }

    /** The index names a container in the list. */
    static ghost predicate NamesBag(c: Item, index: int)
      reads c
    {
      0 <= index < |c.itemlist| && index < c.capacity && index !in {254, 255} && c.itemlist[index].isContainer
    }

    /** Where what is put into a container at an index has to end up: in the container around it for 254, in
        a container of the list that the index names, and in the container itself for any other. */
    static ghost function Target(c: Item, index: int): Item
      reads c
    {
      if index == 254 && c.parent != null then c.parent else if NamesBag(c, index) then c.itemlist[index] else c
    }

    lemma DestinationIsTarget(c: Item, index: int, item: Item, flags: Flags)
      requires Valid() && c in world && c.isContainer && item in world
      ensures Destination(c, index, item, flags).0 == Target(c, index)
    {
      hide Sound, View, Inside;
      ItemsInWorld(c);
    }

    /** A destination is a container; what it names at an index lies there. */
    lemma DestinationInWorld(c: Item, index: int, item: Item, flags: Flags)
      requires Valid() && c in world && c.isContainer && item in world
      ensures var d := Destination(c, index, item, flags);
              && d.0 in world && d.0.isContainer && (d.0 != c ==> d.1 == INDEX_WHEREEVER && d.2 == null)
              && (d.2 != null ==> d.0 == c && 0 <= d.1 < |c.itemlist| && c.itemlist[d.1] == d.2 && d.2 in world)
              && (flags.ignoreAutoStack && index == INDEX_WHEREEVER ==> d.2 == null)
              && (d.0 == c && 0 <= d.1 < |c.itemlist| ==> d.2 == c.itemlist[d.1])
              && (d.2 == null || !types(item.id).stackable || !Stackable(d.2, item) ==> d.1 < d.0.capacity)
    {
      hide Sound, View, Inside;
      ItemsInWorld(c);
      ParentIsContainer(c);
    }

    lemma ParentIsContainer(c: Item)
      requires Valid() && c in world
      ensures c.parent != null ==> c.parent in world && c.parent.isContainer
    {
      var m := View(world, types);
      if c.parent != null { assert c in m[m[c].parent].list; }
    }

    /** Unless stacking is off, a stack with room is found when there is one. */
    lemma DestinationStacks(c: Item, index: int, item: Item, flags: Flags)
      requires Valid() && c in world && c.isContainer && item in world && item.parent == null
      requires types(item.id).stackable && !flags.ignoreAutoStack
      ensures var d := Destination(c, index, item, flags);
              d.0 == c && index != 254 && !(d.2 != null && d.2.id == item.id && d.2.count < 100) ==> StackRoom(c.itemlist, item) == 0
    {
      hide Sound, View, Inside;
      ItemsInWorld(c);
      var d := Destination(c, index, item, flags);
      if 0 <= index < |c.itemlist| { ListedHere(c, c.itemlist[index]); }
      if d.0 == c && index != 254 && !(d.2 != null && d.2.id == item.id && d.2.count < 100) {
        assert forall i :: 0 <= i < |c.itemlist| ==> !Stackable(c.itemlist[i], item);
        SumNonNegative(Rooms(c.itemlist, item));
      }
    }

    /** Without an index there is no redirection. */
    lemma DestinationSettles(c: Item, index: int, item: Item, flags: Flags)
      requires Valid() && c in world && c.isContainer && item in world && index == INDEX_WHEREEVER
      ensures Destination(c, index, item, flags).0 == c
    {
    }

    method QueryDestination(c: Item, index: int, item: Item, flags: Flags)
      returns (dest: Item, place: int, destItem: Item?)
      requires Valid() && c in world && c.isContainer && item in world
      ensures (dest, place, destItem) == Destination(c, index, item, flags)
    {
      hide Sound, Inside;
      ItemsInWorld(c);
      place, destItem := index, null;
      if index == 254 {
        place := INDEX_WHEREEVER;
        if c.parent != null {
          return c.parent, place, destItem;
        }
        return c, place, destItem;
      }
      if index == 255 {
        place := INDEX_WHEREEVER;
      } else if index >= c.capacity {
        place := INDEX_WHEREEVER;
      }
      if place != INDEX_WHEREEVER {
        if 0 <= place < |c.itemlist| {
          destItem := c.itemlist[place];
        }
        if destItem != null && destItem.isContainer {
          return destItem, INDEX_WHEREEVER, null;
        }
      }
      if !flags.ignoreAutoStack && types(item.id).stackable && item.parent != c {
        if destItem != null && destItem.id == item.id && destItem.count < 100 {
          return c, place, destItem;
        }
        for n := 0 to |c.itemlist|
          invariant forall k :: 0 <= k < n ==> !Stackable(c.itemlist[k], item)
        {
          if Stackable(c.itemlist[n], item) {
            return c, n, c.itemlist[n];
          }
        }
      }
      return c, place, destItem;
    }
  }

  /** A stack weighs what its pieces weigh, any other item what its id says. */
  lemma StackWeighs(ty: ItemType, n: nat)
    ensures ty.stackable && n >= 1 ==> OwnWeight(ty, n) == ty.weight * n
    ensures !ty.stackable ==> OwnWeight(ty, n) == ty.weight
  {
  }

  lemma AmountsChange(m: map<Item, Stack>, n: map<Item, Stack>, x: Item)
    requires x in n && n == m[x := n[x]]
    ensures forall id :: Amount(n, id) == Amount(m, id) - (if x in m then m[x].Of(id) else 0) + n[x].Of(id)
  {
    forall id
      ensures Amount(n, id) == Amount(m, id) - (if x in m then m[x].Of(id) else 0) + n[x].Of(id)
    {
      AmountChanges(m, n, x, id);
    }
  }

  /** The list without its first occurrence of `x`. */
  ghost function Dropped(list: seq<Item>, x: Item): seq<Item> {
    if list == [] then []
    else if list[0] == x then list[1..]
    else [list[0]] + Dropped(list[1..], x)
  }

  lemma {:induction false} DroppedSplit(list: seq<Item>, i: nat)
    requires i < |list| && list[i] !in list[..i]
    ensures Dropped(list, list[i]) == list[..i] + list[i + 1..]
  {
    if i > 0 {
      assert list[0] in list[..i];
      assert list[1..][..i - 1] == list[1..i];
      DroppedSplit(list[1..], i - 1);
      assert list[..i] == [list[0]] + list[1..i];
    }
  }

  lemma DroppedAt(m: Snapshot, rank: map<Item, nat>, c: Item, i: nat)
    requires Forest(m, rank) && c in m && i < |m[c].list|
    ensures Dropped(m[c].list, m[c].list[i]) == m[c].list[..i] + m[c].list[i + 1..]
  {
    DroppedSplit(m[c].list, i);
  }

  lemma ListedIn(m: Snapshot, rank: map<Item, nat>, c: Item, item: Item)
    requires Forest(m, rank) && c in m && item in m[c].list
    ensures item in m && m[item].parent == c && item != c && rank[item] < rank[c]
  {
  }
}
