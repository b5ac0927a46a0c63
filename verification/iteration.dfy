/** ContainerIterator: the breadth-first walk over a container's contents, and what is built on it. */
module Iteration {
  import opened Sequences
  import opened ItemForest
  import opened Containers

  /** `x` lies in the container `c`, at any depth. */
  ghost predicate Below(m: Snapshot, rank: map<Item, nat>, x: Item, c: Item)
    requires Forest(m, rank) && x in m
  {
    x != c && Within(m, rank, x, c)
  }

  ghost predicate Pending(m: Snapshot, rank: map<Item, nat>, front: set<Item>, x: Item)
    requires Forest(m, rank) && x in m
  {
    exists a :: a in front && Within(m, rank, x, a)
  }

  /** The state of a walk: what was visited, and the items whose trees are still to come. */
  ghost predicate WalkInv(m: Snapshot, rank: map<Item, nat>, root: Item, visited: seq<Item>, front: set<Item>)
    requires Forest(m, rank) && root in m
  {
    && Distinct(visited)
    && (forall x :: x in visited ==> x in m && Below(m, rank, x, root))
    && (forall a :: a in front ==> a in m && m[a].parent != null && (m[a].parent == root || m[a].parent in visited))
    && (forall x :: x in m && Below(m, rank, x, root) ==> x in visited || Pending(m, rank, front, x))
    && (forall x :: x in m && Pending(m, rank, front, x) ==> Below(m, rank, x, root))
    && (forall x :: x in visited ==> !Pending(m, rank, front, x))
    && !Pending(m, rank, front, root)
  }

  ghost function Children(m: Snapshot, x: Item): set<Item>
    requires x in m
  {
    set y | y in m[x].list
  }

  lemma {:induction false} WithinRank(m: Snapshot, rank: map<Item, nat>, x: Item, a: Item)
    requires Forest(m, rank) && x in m && Within(m, rank, x, a)
    ensures a in m && (x == a || rank[x] < rank[a])
    decreases Higher(m, rank, x)
  {
    if x != a {
      HigherShrinks(m, rank, x);
      WithinRank(m, rank, m[x].parent, a);
    }
  }

  /** What lies at or below `a` is `a` itself or lies at or below one of its children. */
  lemma {:induction false} WithinChild(m: Snapshot, rank: map<Item, nat>, x: Item, a: Item)
    requires Forest(m, rank) && x in m && a in m
    ensures Below(m, rank, x, a) ==> Pending(m, rank, Children(m, a), x)
    decreases Higher(m, rank, x)
  {
    if Below(m, rank, x, a) {
      HigherShrinks(m, rank, x);
      if m[x].parent == a {
        assert x in Children(m, a) && Within(m, rank, x, x);
      } else {
        WithinChild(m, rank, m[x].parent, a);
        var c :| c in Children(m, a) && Within(m, rank, m[x].parent, c);
        assert Within(m, rank, x, c);
      }
    }
  }

  lemma ChildWithin(m: Snapshot, rank: map<Item, nat>, x: Item, a: Item)
    requires Forest(m, rank) && x in m && a in m
    ensures Pending(m, rank, Children(m, a), x) ==> Below(m, rank, x, a)
  {
    if Pending(m, rank, Children(m, a), x) {
      var c :| c in Children(m, a) && Within(m, rank, x, c);
      WithinUp(m, rank, x, c);
      WithinRank(m, rank, x, c);
    }
  }

  /** The trees still to come do not overlap. */
  lemma FrontApart(m: Snapshot, rank: map<Item, nat>, root: Item, visited: seq<Item>, front: set<Item>, x: Item)
    requires Forest(m, rank) && root in m && WalkInv(m, rank, root, visited, front) && x in front
    ensures !Pending(m, rank, front - {x}, x)
  {
    if Pending(m, rank, front - {x}, x) {
      var a :| a in front - {x} && Within(m, rank, x, a);
      HigherShrinks(m, rank, x);
      assert Within(m, rank, m[x].parent, a);
      assert Pending(m, rank, front, m[x].parent);
    }
  }

  lemma FrontPending(m: Snapshot, rank: map<Item, nat>, front: set<Item>, x: Item)
    requires Forest(m, rank) && x in front && x in m
    ensures Pending(m, rank, front, x)
  {
    assert Within(m, rank, x, x);
  }

  lemma ChildrenOf(m: Snapshot, rank: map<Item, nat>, x: Item)
    requires Forest(m, rank) && x in m
    ensures forall a :: a in Children(m, x) ==> a in m && m[a].parent == x
  {
  }

  /** One step of the walk: visit `x`, its children join what is to come. */
  lemma WalkStep(m: Snapshot, rank: map<Item, nat>, root: Item, visited: seq<Item>, front: set<Item>, x: Item)
    requires Forest(m, rank) && root in m && WalkInv(m, rank, root, visited, front) && x in front
    ensures x !in visited && WalkInv(m, rank, root, visited + [x], front - {x} + Children(m, x))
  {
    hide Forest, Within;
    var visited', front' := visited + [x], front - {x} + Children(m, x);
    FrontApart(m, rank, root, visited, front, x);
    FrontPending(m, rank, front, x);
    ChildrenOf(m, rank, x);
    forall y | y in m
      ensures Pending(m, rank, front', y) <==> Pending(m, rank, front, y) && y != x
    {
      StepPending(m, rank, root, visited, front, x, y);
    }
    forall a | a in front'
      ensures a in m && m[a].parent != null && (m[a].parent == root || m[a].parent in visited')
    {
    }
  }

  lemma StepPending(m: Snapshot, rank: map<Item, nat>, root: Item, visited: seq<Item>, front: set<Item>, x: Item, y: Item)
    requires Forest(m, rank) && root in m && WalkInv(m, rank, root, visited, front) && x in front && y in m
    requires !Pending(m, rank, front - {x}, x)
    ensures Pending(m, rank, front - {x} + Children(m, x), y) <==> Pending(m, rank, front, y) && y != x
  {
    WithinChild(m, rank, y, x);
    ChildWithin(m, rank, y, x);
    var rest := front - {x};
    assert Pending(m, rank, front, y) <==> Pending(m, rank, rest, y) || Within(m, rank, y, x);
    assert Pending(m, rank, rest + Children(m, x), y) <==> Pending(m, rank, rest, y) || Pending(m, rank, Children(m, x), y);
  }

  lemma WalkStart(m: Snapshot, rank: map<Item, nat>, root: Item)
    requires Forest(m, rank) && root in m
    ensures WalkInv(m, rank, root, [], Children(m, root))
  {
    forall x | x in m
      ensures Pending(m, rank, Children(m, root), x) <==> Below(m, rank, x, root)
    {
      WithinChild(m, rank, x, root);
      ChildWithin(m, rank, x, root);
    }
  }

  /** When nothing is to come, exactly the contents were visited. */
  lemma WalkEnd(m: Snapshot, rank: map<Item, nat>, root: Item, visited: seq<Item>)
    requires Forest(m, rank) && root in m && WalkInv(m, rank, root, visited, {})
    ensures forall x :: x in visited <==> x in m && Below(m, rank, x, root)
  {
  }

  // ---------------------------------------------------------------- the queue of containers

  ghost function QueueFront(m: Snapshot, over: seq<Item>): set<Item>
    requires forall c :: c in over ==> c in m
  {
    if over == [] then {} else Children(m, over[0]) + QueueFront(m, over[1..])
  }

  /** What is to come: the rest of the front container's list, then the queued containers. */
  ghost function FrontOf(m: Snapshot, over: seq<Item>, cur: nat): set<Item>
    requires forall c :: c in over ==> c in m
  {
    if over == [] then {}
    else (set y | y in m[over[0]].list[Min(cur, |m[over[0]].list|)..]) + QueueFront(m, over[1..])
  }

  lemma {:induction false} QueueFrontSnoc(m: Snapshot, over: seq<Item>, x: Item)
    requires x in m && forall c :: c in over ==> c in m
    ensures QueueFront(m, over + [x]) == QueueFront(m, over) + Children(m, x)
  {
    if over == [] {
      assert over + [x] == [x] && [x][1..] == [];
    } else {
      assert (over + [x])[1..] == over[1..] + [x];
      QueueFrontSnoc(m, over[1..], x);
    }
  }

  lemma {:induction false} QueueFrontParents(m: Snapshot, rank: map<Item, nat>, over: seq<Item>, x: Item)
    requires Forest(m, rank) && (forall c :: c in over ==> c in m) && x in QueueFront(m, over)
    ensures x in m && m[x].parent in over
  {
    if x !in Children(m, over[0]) { QueueFrontParents(m, rank, over[1..], x); }
  }

  ghost predicate QueueInv(m: Snapshot, root: Item, visited: seq<Item>, over: seq<Item>) {
    && Distinct(over)
    && forall c :: c in over ==> c in m && (c == root || c in visited)
  }

  /** Passing the item at the cursor takes it off what is to come. */
  lemma FrontPass(m: Snapshot, rank: map<Item, nat>, over: seq<Item>, cur: nat)
    requires Forest(m, rank) && over != [] && Distinct(over) && (forall c :: c in over ==> c in m)
    requires cur < |m[over[0]].list|
    ensures var x := m[over[0]].list[cur];
            && x in m && x in FrontOf(m, over, cur)
            && FrontOf(m, over, cur + 1) == FrontOf(m, over, cur) - {x}
  {
    hide Up;
    var list := m[over[0]].list;
    var x := list[cur];
    assert m[x].parent == over[0];
    assert list[cur..] == [x] + list[cur + 1..];
    assert x !in list[cur + 1..];
    if x in QueueFront(m, over[1..]) { QueueFrontParents(m, rank, over[1..], x); }
  }

  /** A container that joins the queue brings its children. */
  lemma FrontPush(m: Snapshot, over: seq<Item>, cur: nat, x: Item)
    requires over != [] && (forall c :: c in over ==> c in m) && x in m
    ensures FrontOf(m, over + [x], cur) == FrontOf(m, over, cur) + Children(m, x)
  {
    assert (over + [x])[1..] == over[1..] + [x];
    QueueFrontSnoc(m, over[1..], x);
  }

  /** Popping an exhausted container changes nothing. */
  lemma FrontPop(m: Snapshot, over: seq<Item>)
    requires over != [] && forall c :: c in over ==> c in m
    ensures FrontOf(m, over, |m[over[0]].list|) == QueueFront(m, over[1..]) == FrontOf(m, over[1..], 0)
  {
    var list := m[over[0]].list;
    assert list[|list|..] == [];
    if |over| > 1 {
      var next := m[over[1]].list;
      assert next[0..] == next;
      assert over[1..][0] == over[1];
    }
  }

  lemma {:induction false} DistinctFits(visited: seq<Item>, s: set<Item>)
    requires Distinct(visited) && forall x :: x in visited ==> x in s
    ensures |visited| <= |s|
    ensures (forall x :: x in s ==> x in visited) ==> |visited| == |s|
  {
    if visited != [] {
      var x, rest := visited[0], visited[1..];
      assert x !in rest;
      DistinctFits(rest, s - {x});
    } else if s != {} {
      var x :| x in s;
    }
  }

  // ---------------------------------------------------------------- the iterator

  /** The cursor stands in the front container; all queued containers hold something. */
  ghost predicate Consistent(m: Snapshot, rank: map<Item, nat>, root: Item, visited: seq<Item>, over: seq<Item>, cur: nat)
    requires Forest(m, rank) && root in m
  {
    && QueueInv(m, root, visited, over)
    && (over != [] ==> cur < |m[over[0]].list|)
    && (forall c :: c in over ==> m[c].list != [])
    && WalkInv(m, rank, root, visited, FrontOf(m, over, cur))
  }

  /** The queue after a step: the item joins it when it holds something, and a container walked
      through to its end leaves it. */
  function Pushed(m: Snapshot, over: seq<Item>, x: Item): seq<Item>
    requires x in m
  {
    if m[x].list != [] then over + [x] else over
  }

  lemma AdvanceKeeps(m: Snapshot, rank: map<Item, nat>, root: Item, visited: seq<Item>, over: seq<Item>, cur: nat)
    requires Forest(m, rank) && root in m && Consistent(m, rank, root, visited, over, cur) && over != []
    ensures var x := m[over[0]].list[cur];
            && x in m && x !in visited
            && (cur + 1 < |m[over[0]].list| ==> Consistent(m, rank, root, visited + [x], Pushed(m, over, x), cur + 1))
            && (cur + 1 == |m[over[0]].list| ==> Consistent(m, rank, root, visited + [x], Pushed(m, over, x)[1..], 0))
  {
    hide Lists, Down, Up, WalkInv, FrontOf, QueueFront;
    var x := m[over[0]].list[cur];
    FrontPass(m, rank, over, cur);
    var front := FrontOf(m, over, cur);
    WalkStep(m, rank, root, visited, front, x);
    FrontPush(m, over, cur + 1, x);
    assert m[x].list == [] ==> Children(m, x) == {};
    assert x != root && x !in over by { NotQueued(m, rank, root, visited, over, front, x); }
    var over' := Pushed(m, over, x);
    assert FrontOf(m, over', cur + 1) == front - {x} + Children(m, x);
    FrontPop(m, over');
  }

  /** What is still to come is neither the root nor visited. */
  lemma NotQueued(m: Snapshot, rank: map<Item, nat>, root: Item, visited: seq<Item>, over: seq<Item>, front: set<Item>, x: Item)
    requires Forest(m, rank) && root in m && WalkInv(m, rank, root, visited, front) && QueueInv(m, root, visited, over)
    requires x in front
    ensures x in m && x != root && x !in over
  {
    assert Within(m, rank, x, x) && Pending(m, rank, front, x);
  }

  class ContainerIterator {
    var over: seq<Item>
    var cur: nat
    ghost const game: Game
    ghost const root: Item
    ghost var visited: seq<Item>

    /** The items walked over lie as they did when the walk began. */
    ghost predicate Valid()
      reads this, game, game.world
    {
      && game.Valid() && root in game.world
      && Consistent(View(game.world, game.types), game.rank, root, visited, over, cur)
    }

    /** Container::iterator */
    constructor (game: Game, c: Item)
      requires game.Valid() && c in game.world && c.isContainer
      ensures Valid() && this.game == game && root == c && visited == []
    {
      over, cur := if c.itemlist != [] then [c] else [], 0;
      this.game, root, visited := game, c, [];
      new;
      ghost var m := View(game.world, game.types);
      WalkStart(m, game.rank, c);
      assert c.itemlist[0..] == c.itemlist;
      assert FrontOf(m, over, cur) == Children(m, c);
    }

    predicate HasNext()
      reads this
    {
      over != []
    }

    function Current(): Item
      requires Valid() && HasNext()
      reads this, game, game.world
    {
      over[0].itemlist[cur]
    }

    /** AdvanceKeeps, seen from the objects. */
    lemma StepKeeps()
      requires Valid() && HasNext()
      ensures cur < |over[0].itemlist|
      ensures var x := over[0].itemlist[cur];
              && x in game.world && x !in visited && (!x.isContainer ==> x.itemlist == [])
              && var over' := if x.itemlist != [] then over + [x] else over;
                 && (cur + 1 < |over[0].itemlist| ==>
                       Consistent(View(game.world, game.types), game.rank, root, visited + [x], over', cur + 1))
                 && (cur + 1 == |over[0].itemlist| ==>
                       Consistent(View(game.world, game.types), game.rank, root, visited + [x], over'[1..], 0))
    {
      hide Lists, Down, Up, Weighed, WalkInv, FrontOf, Distinct;
      AdvanceKeeps(View(game.world, game.types), game.rank, root, visited, over, cur);
      game.PlainIsEmpty(over[0].itemlist[cur]);
    }

    method Advance()
      requires Valid() && HasNext()
      modifies this
      ensures Valid() && visited == old(visited) + [old(Current())]
      ensures old(Current()) in game.world && old(Current()) !in old(visited)
    {
      hide View, Forest, Weighed, Consistent;
      StepKeeps();
      var i := over[0].itemlist[cur];
      if i.isContainer {
        if i.itemlist != [] {
          over := over + [i];
        }
      }
      visited := visited + [i];
      cur := cur + 1;
      if cur == |over[0].itemlist| {
        over := over[1..];
        cur := 0;
      }
    }
  }

  // ---------------------------------------------------------------- what is built on the walk

  /** Everything that lies in `c`, at any depth. */
  ghost function Contents(game: Game, c: Item): set<Item>
    requires game.Valid() && c in game.world
    reads game, game.world
  {
    set x | x in game.world && Below(View(game.world, game.types), game.rank, x, c)
  }

  /** A walk is within the contents, and at its end it is all of them, each once. */
  lemma WalkVisits(it: ContainerIterator)
    requires it.Valid()
    ensures Distinct(it.visited) && (forall x :: x in it.visited ==> x in Contents(it.game, it.root))
    ensures |it.visited| <= |Contents(it.game, it.root)|
    ensures !it.HasNext() ==>
              && (forall x :: x in Contents(it.game, it.root) ==> x in it.visited)
              && |it.visited| == |Contents(it.game, it.root)|
    ensures it.HasNext() ==> |it.visited| < |Contents(it.game, it.root)| && it.Current() in Contents(it.game, it.root)
  {
    var m := View(it.game.world, it.game.types);
    var all := Contents(it.game, it.root);
    DistinctFits(it.visited, all);
    if it.HasNext() {
      var x := it.Current();
      AdvanceKeeps(m, it.game.rank, it.root, it.visited, it.over, it.cur);
      StillBelow(m, it.game.rank, it.root, it.visited, FrontOf(m, it.over, it.cur), it.over, it.cur);
      DistinctFits(it.visited + [x], all);
    } else {
      WalkEnd(m, it.game.rank, it.root, it.visited);
    }
  }

  lemma StillBelow(m: Snapshot, rank: map<Item, nat>, root: Item, visited: seq<Item>, front: set<Item>, over: seq<Item>, cur: nat)
    requires Forest(m, rank) && root in m && WalkInv(m, rank, root, visited, front)
    requires over != [] && QueueInv(m, root, visited, over) && front == FrontOf(m, over, cur) && cur < |m[over[0]].list|
    ensures var x := m[over[0]].list[cur]; x in m && Below(m, rank, x, root)
  {
    var x := m[over[0]].list[cur];
    FrontPass(m, rank, over, cur);
    assert Within(m, rank, x, x) && Pending(m, rank, front, x);
  }

  /** Container::getItemHoldingCount */
  method GetItemHoldingCount(game: Game, c: Item) returns (counter: nat)
    requires game.Valid() && c in game.world && c.isContainer
    ensures counter == |Contents(game, c)|
  {
    hide Sound, Contents, Consistent;
    counter := 0;
    var it := new ContainerIterator(game, c);
    WalkVisits(it);
    while it.HasNext()
      invariant it.Valid() && it.game == game && it.root == c && counter == |it.visited| <= |Contents(game, c)|
      decreases |Contents(game, c)| - |it.visited|
    {
      it.Advance();
      WalkVisits(it);
      counter := counter + 1;
    }
    WalkVisits(it);
  }

  /** Container::isHoldingItem */
  method IsHoldingItem(game: Game, c: Item, item: Item) returns (holding: bool)
    requires game.Valid() && c in game.world && c.isContainer
    ensures holding <==> item in Contents(game, c)
  {
    hide Sound, Contents, Consistent;
    var it := new ContainerIterator(game, c);
    WalkVisits(it);
    while it.HasNext()
      invariant it.Valid() && it.game == game && it.root == c && item !in it.visited
      invariant |it.visited| <= |Contents(game, c)|
      decreases |Contents(game, c)| - |it.visited|
    {
      WalkVisits(it);
      if it.Current() == item {
        return true;
      }
      it.Advance();
      WalkVisits(it);
    }
    WalkVisits(it);
    return false;
  }
}
