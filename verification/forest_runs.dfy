/** Whole runs of container operations, each behind the query that guards it. */
module ForestRuns {
  import opened Sequences
  import opened ItemForest
  import opened Containers

  datatype Step =
    | Add(c: Item, index: int, item: Item, flags: Flags)
    | Update(c: Item, item: Item, id: nat, count: nat)
    | Remove(c: Item, item: Item, count: nat, flags: Flags)
    | Replace(c: Item, at: nat, item: Item)

  /** The objects of a step exist, and no add skips its checks. */
  ghost predicate Known(step: Step, world: set<Item>) {
    && step.c in world && step.c.isContainer && step.item in world
    && (step.Add? ==> !step.flags.childIsOwner)
  }

  /** What a list of items weighs: a stack weighs what its pieces weigh, and a container what it and its
      contents weigh. */
  ghost function ListWeight(list: seq<Item>, types: Catalogue): int
    reads list
  {
    if list == [] then 0
    else
      var x := list[0];
      (if types(x.id).stackable && x.count > 1 then types(x.id).weight * x.count else types(x.id).weight)
      + (if x.isContainer then x.totalWeight else 0) + ListWeight(list[1..], types)
  }

  lemma {:induction false} ListWeightIs(m: Snapshot, list: seq<Item>, world: set<Item>, types: Catalogue)
    requires (forall x :: x in list ==> x in world) && m == View(world, types)
    ensures forall x :: x in list ==> x in m
    ensures Sum(Weights(m, list)) == ListWeight(list, types)
  {
    hide View;
    assert m.Keys == world;
    if list != [] {
      var x := list[0];
      assert m[x] == View(world, types)[x];
      EntryIs(x, world, types);
      ListWeightIs(m, list[1..], world, types);
      assert Weights(m, list)[1..] == Weights(m, list[1..]);
    }
  }

  lemma EntryIs(x: Item, world: set<Item>, types: Catalogue)
    requires x in world
    ensures View(world, types)[x] == Entry(x.parent, x.itemlist, x.isContainer, OwnWeight(types(x.id), x.count), x.totalWeight)
    ensures OwnWeight(types(x.id), x.count)
            == if types(x.id).stackable && x.count > 1 then types(x.id).weight * x.count else types(x.id).weight
  {
  }

  /** The invariant read off the objects. */
  lemma Plainly(game: Game, x: Item)
    requires game.Valid() && x in game.world
    ensures Distinct(x.itemlist) && (!x.isContainer ==> x.itemlist == []) && x.totalWeight == ListWeight(x.itemlist, game.types)
    ensures forall y :: y in game.world ==> (y in x.itemlist <==> y.parent == x)
    ensures forall y :: y in x.itemlist ==> y in game.world
    ensures x.parent != null ==> !game.Inside(x.parent, x)
  {
    var m := View(game.world, game.types);
    EntryIs(x, game.world, game.types);
    forall y | y in game.world
      ensures y in x.itemlist <==> y.parent == x
    {
      EntryIs(y, game.world, game.types);
    }
    ListWeightIs(m, x.itemlist, game.world, game.types);
    assert Owed(m, x, null, 0, null, 0) == Sum(Weights(m, m[x].list));
    if x.parent != null { NotAroundParent(m, game.rank, x); }
  }

  /** Any run of queries, adds, updates, removals and replacements: parent pointers and lists agree,
      nothing contains itself, and every weight is the sum of what lies below. */
  method Run(game: Game, steps: seq<Step>)
    requires game.Valid() && forall s :: s in steps ==> Known(s, game.world)
    modifies game`rank, game.world
    ensures game.Valid()
    ensures forall x, y :: x in game.world && y in game.world ==> (y in x.itemlist <==> y.parent == x)
    ensures forall x :: x in game.world ==> x.totalWeight == ListWeight(x.itemlist, game.types)
    ensures forall x :: x in game.world && x.parent != null ==> x.parent in game.world && !game.Inside(x.parent, x)
  {
    hide Game.Valid, Game.Inside;
    for i := 0 to |steps|
      invariant game.Valid()
    {
      assert steps[i] in steps;
      Perform(game, steps[i]);
    }
    forall x | x in game.world
      ensures x.totalWeight == ListWeight(x.itemlist, game.types)
      ensures forall y :: y in game.world ==> (y in x.itemlist <==> y.parent == x)
      ensures x.parent != null ==> x.parent in game.world && !game.Inside(x.parent, x)
    {
      Plainly(game, x);
      game.ParentIsContainer(x);
    }
  }

  method Perform(game: Game, step: Step)
    requires game.Valid() && Known(step, game.world)
    modifies game`rank, game.world
    ensures game.Valid()
  {
    hide Sound, View, Game.Inside, Game.Totals, Game.Around, GrownBy;
    match step {
      case Add(c, index, item, flags) =>
        var ret := game.QueryAdd(c, index, item, flags);
        if ret == NoError && item.parent == null {
          game.AddThing(c, index, item);
        }
      case Update(c, item, id, count) =>
        game.UpdateThing(c, item, id, count);
      case Remove(c, item, count, flags) =>
        var ret := game.QueryRemove(c, item, count, flags);
        if ret == NoError {
          game.RemoveThing(c, item, count);
        }
      case Replace(c, at, item) =>
        var ret := game.QueryAdd(c, at, item, NO_FLAGS.(noLimit := true));
        if ret == NoError && item.parent == null {
          game.ReplaceThing(c, at, item);
        }
    }
  }
}
