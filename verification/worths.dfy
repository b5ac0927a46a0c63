/** What coins are worth: of the whole world, of a set of items, and of what two containers hold. */
module Worths {
  import opened ItemForest
  import opened Containers
  import opened Moves
  import opened Iteration

  // ---------------------------------------------------------------- worth of the whole world

  /** The worth of everything that lies in containers. */
  ghost function Total(m: map<Item, Stack>, types: Catalogue): int {
    if m == map[] then 0
    else
      var x :| x in m;
      m[x].Of(m[x].id) * types(m[x].id).worth + Total(m - {x}, types)
  }

  lemma {:induction false} TotalSplit(m: map<Item, Stack>, x: Item, types: Catalogue)
    requires x in m
    ensures Total(m, types) == m[x].Of(m[x].id) * types(m[x].id).worth + Total(m - {x}, types)
    decreases |m|
  {
    var y :| y in m && Total(m, types) == m[y].Of(m[y].id) * types(m[y].id).worth + Total(m - {y}, types);
    if x != y {
      TotalSplit(m - {y}, x, types);
      TotalSplit(m - {x}, y, types);
      assert m - {y} - {x} == m - {x} - {y};
    }
  }

  /** Sum of worth(k) * f(k) over a set of ids. */
  ghost function WorthSum(ids: set<nat>, types: Catalogue, f: nat -> int): int {
    if ids == {} then 0
    else
      var k :| k in ids;
      f(k) * types(k).worth + WorthSum(ids - {k}, types, f)
  }

  lemma {:induction false} WorthSumSplit(ids: set<nat>, k: nat, types: Catalogue, f: nat -> int)
    requires k in ids
    ensures WorthSum(ids, types, f) == f(k) * types(k).worth + WorthSum(ids - {k}, types, f)
    decreases |ids|
  {
    var j :| j in ids && WorthSum(ids, types, f) == f(j) * types(j).worth + WorthSum(ids - {j}, types, f);
    if j != k {
      WorthSumSplit(ids - {j}, k, types, f);
      WorthSumSplit(ids - {k}, j, types, f);
      assert ids - {j} - {k} == ids - {k} - {j};
    }
  }

  /** Two such sums whose terms differ at one id only. */
  lemma {:induction false} WorthSumDiffers(ids: set<nat>, k: nat, d: int, types: Catalogue, f: nat -> int, g: nat -> int)
    requires forall j :: j in ids ==> g(j) == f(j) + (if j == k then d else 0)
    ensures WorthSum(ids, types, g) == WorthSum(ids, types, f) + (if k in ids then d * types(k).worth else 0)
    decreases |ids|
  {
    hide WorthSum;
    if ids == {} {
      NothingSums(types, f);
      NothingSums(types, g);
    } else {
      var j :| j in ids;
      WorthSumSplit(ids, j, types, f);
      WorthSumSplit(ids, j, types, g);
      WorthSumDiffers(ids - {j}, k, d, types, f, g);
      if j == k { Distribute(f(j), d, types(j).worth); }
    }
  }

  lemma NothingSums(types: Catalogue, f: nat -> int)
    ensures WorthSum({}, types, f) == 0
  {
  }

  lemma Distribute(a: int, b: int, c: int)
    ensures (a + b) * c == a * c + b * c
  {
  }

  ghost function Amounts(m: map<Item, Stack>): nat -> int {
    (k: nat) => Amount(m, k)
  }

  lemma AmountsWithout(m: map<Item, Stack>, x: Item)
    requires x in m
    ensures forall k: nat :: Amounts(m)(k) == Amounts(m - {x})(k) + (if k == m[x].id then m[x].Of(m[x].id) else 0)
  {
    forall k: nat
      ensures Amounts(m)(k) == Amounts(m - {x})(k) + (if k == m[x].id then m[x].Of(m[x].id) else 0)
    {
      AmountSplit(m, x, k);
    }
  }

  /** The total is the sum over the amounts of all ids. */
  lemma {:induction false} TotalByAmounts(m: map<Item, Stack>, types: Catalogue, ids: set<nat>)
    requires forall x :: x in m ==> m[x].id in ids
    ensures Total(m, types) == WorthSum(ids, types, Amounts(m))
    decreases |m|
  {
    if m == map[] {
      WorthSumZero(ids, types, Amounts(m));
    } else {
      var x :| x in m;
      var rest := m - {x};
      TotalSplit(m, x, types);
      TotalByAmounts(rest, types, ids);
      AmountsWithout(m, x);
      WorthSumDiffers(ids, m[x].id, m[x].Of(m[x].id), types, Amounts(rest), Amounts(m));
    }
  }

  lemma {:induction false} WorthSumZero(ids: set<nat>, types: Catalogue, f: nat -> int)
    requires forall k :: f(k) == 0
    ensures WorthSum(ids, types, f) == 0
    decreases |ids|
  {
    if ids != {} {
      var j :| j in ids && WorthSum(ids, types, f) == f(j) * types(j).worth + WorthSum(ids - {j}, types, f);
      WorthSumZero(ids - {j}, types, f);
    }
  }

  /** When the amount of one id changes and no other, the total changes by its worth. */
  lemma TotalChanges(m: map<Item, Stack>, n: map<Item, Stack>, types: Catalogue, id: nat, d: int)
    requires forall k :: Amount(n, k) == Amount(m, k) + (if k == id then d else 0)
    ensures Total(n, types) == Total(m, types) + d * types(id).worth
  {
    var ids := (set x | x in m :: m[x].id) + (set x | x in n :: n[x].id) + {id};
    TotalByAmounts(m, types, ids);
    TotalByAmounts(n, types, ids);
    WorthSumDiffers(ids, id, d, types, Amounts(m), Amounts(n));
  }

  ghost function WorldWorth(game: Game): int
    reads game, game.world
  {
    Total(Stacks(game.world), game.types)
  }

  /** What the amounts say about the worth of the world. */
  lemma WorthFollows(before: map<Item, Stack>, game: Game, id: nat, d: int)
    requires forall k :: game.Placed(k) == Amount(before, k) + (if k == id then d else 0)
    ensures WorldWorth(game) == Total(before, game.types) + d * game.types(id).worth
  {
    assert forall k :: Amount(Stacks(game.world), k) == game.Placed(k);
    TotalChanges(before, Stacks(game.world), game.types, id, d);
  }

  // ---------------------------------------------------------------- worth of a set of items

  /** Item::getWorth; containers are searched, never counted. */
  function Worth(x: Item, types: Catalogue): nat
    reads x
  {
    if x.isContainer then 0 else x.count * types(x.id).worth
  }

  ghost function SetWorth(s: set<Item>, types: Catalogue): nat
    reads s
  {
    if s == {} then 0
    else
      var x :| x in s;
      Worth(x, types) + SetWorth(s - {x}, types)
  }

  lemma {:induction false} SetWorthSplit(s: set<Item>, x: Item, types: Catalogue)
    requires x in s
    ensures SetWorth(s, types) == Worth(x, types) + SetWorth(s - {x}, types)
    decreases |s|
  {
    var y :| y in s && SetWorth(s, types) == Worth(y, types) + SetWorth(s - {y}, types);
    if x != y {
      SetWorthSplit(s - {y}, x, types);
      SetWorthSplit(s - {x}, y, types);
      assert s - {y} - {x} == s - {x} - {y};
    }
  }

  ghost function Part(m: map<Item, Stack>, s: set<Item>): map<Item, Stack> {
    map x | x in m && x in s :: m[x]
  }

  /** The total of a world is that of a part and of the rest. */
  lemma {:induction false} TotalParts(m: map<Item, Stack>, s: set<Item>, types: Catalogue)
    ensures Total(m, types) == Total(Part(m, s), types) + Total(m - s, types)
    decreases |m|
  {
    if m == map[] {
      assert Part(m, s) == map[] && m - s == map[];
    } else {
      var x :| x in m;
      TotalParts(m - {x}, s, types);
      TotalSplit(m, x, types);
      if x in s {
        TotalSplit(Part(m, s), x, types);
        assert Part(m - {x}, s) == Part(m, s) - {x} && (m - {x}) - s == m - s;
      } else {
        TotalSplit(m - s, x, types);
        assert Part(m - {x}, s) == Part(m, s) && (m - {x}) - s == (m - s) - {x};
      }
    }
  }

  ghost function Plain(s: set<Item>): set<Item> {
    set x | x in s && !x.isContainer
  }

  /** The worth of a set of items that lie somewhere is the total of the plain ones among them. */
  lemma {:induction false} SetWorthIsTotal(world: set<Item>, s: set<Item>, types: Catalogue)
    requires s <= world && forall x :: x in s ==> x.parent != null
    ensures SetWorth(s, types) == Total(Part(Stacks(world), Plain(s)), types)
    decreases |s|
  {
    if s == {} {
      assert Part(Stacks(world), Plain(s)) == map[];
    } else {
      var x :| x in s;
      SetWorthSplit(s, x, types);
      SetWorthIsTotal(world, s - {x}, types);
      var part := Part(Stacks(world), Plain(s));
      if x.isContainer {
        assert Plain(s - {x}) == Plain(s);
      } else {
        TotalSplit(part, x, types);
        assert Part(Stacks(world), Plain(s - {x})) == part - {x};
      }
    }
  }

  // ---------------------------------------------------------------- what two containers hold

  /** What happens when money is taken and paid: only taken plain items vanish, only stacks right in the
      two containers change their count, only the lists of these two and those around taken items
      change, and whatever is new lies right in one of the two. */
  ghost predicate Elsewhere(m: map<Item, Thing>, n: map<Item, Thing>, cylinder: Item, ground: Item, taken: set<Item>) {
    && (forall x :: x in m && (x !in taken || x.isContainer) ==> x in n)
    && (forall x :: x in m && x in n ==>
          n[x].id == m[x].id && n[x].parent == m[x].parent
          && (n[x].count == m[x].count || (!x.isContainer && m[x].parent in {cylinder, ground})))
    && (forall x :: x in m && x in n && x != cylinder && x != ground && Clear(m, taken, x) ==> n[x].list == m[x].list)
    && (forall x :: x in n && x !in m ==> !x.isContainer && n[x].parent in {cylinder, ground})
  }

  /** Nothing taken lay right in `x`. */
  ghost predicate Clear(m: map<Item, Thing>, taken: set<Item>, x: Item) {
    forall y :: y in taken && y in m ==> m[y].parent != x
  }

  lemma ElsewhereSame(m: map<Item, Thing>, cylinder: Item, ground: Item, taken: set<Item>)
    ensures Elsewhere(m, m, cylinder, ground, taken)
  {
  }

  lemma ElsewhereOn(m: map<Item, Thing>, n: map<Item, Thing>, k: map<Item, Thing>, cylinder: Item, ground: Item, taken: set<Item>)
    requires Elsewhere(m, n, cylinder, ground, taken) && Elsewhere(n, k, cylinder, ground, taken) && taken <= m.Keys
    requires forall x :: x in m && x in k ==> x in n
    ensures Elsewhere(m, k, cylinder, ground, taken)
  {
  }

  lemma ElsewhereMore(m: map<Item, Thing>, n: map<Item, Thing>, cylinder: Item, ground: Item, taken: set<Item>, more: set<Item>)
    requires Elsewhere(m, n, cylinder, ground, taken) && taken <= more
    ensures Elsewhere(m, n, cylinder, ground, more)
  {
  }

  /** Everything that lies in one of the two, at any depth. */
  ghost function Reach(links: Snapshot, rank: map<Item, nat>, cylinder: Item, ground: Item): set<Item>
    requires Forest(links, rank)
  {
    set x | x in links && (Below(links, rank, x, cylinder) || Below(links, rank, x, ground))
  }

  /** The coins in the two containers, each counted once. */
  ghost function Purse(game: Game, cylinder: Item, ground: Item): nat
    requires game.Valid() && cylinder in game.world && ground in game.world
    reads game, game.world
  {
    SetWorth(Contents(game, cylinder) + Contents(game, ground), game.types)
  }

  /** Of two containers around an item one lies in the other. */
  lemma {:induction false} Comparable(m: Snapshot, rank: map<Item, nat>, x: Item, a: Item, b: Item)
    requires Forest(m, rank) && x in m && a in m && b in m && Within(m, rank, x, a) && Within(m, rank, x, b)
    ensures Within(m, rank, a, b) || Within(m, rank, b, a)
    decreases Higher(m, rank, x)
  {
    if x != a && x != b {
      HigherShrinks(m, rank, x);
      Comparable(m, rank, m[x].parent, a, b);
    }
  }

  lemma {:induction false} SetWorthUnion(s: set<Item>, t: set<Item>, types: Catalogue)
    requires s !! t
    ensures SetWorth(s + t, types) == SetWorth(s, types) + SetWorth(t, types)
    decreases |s|
  {
    if s == {} {
      assert s + t == t;
    } else {
      var x :| x in s;
      SetWorthSplit(s, x, types);
      SetWorthSplit(s + t, x, types);
      SetWorthUnion(s - {x}, t, types);
      assert s + t - {x} == (s - {x}) + t;
    }
  }

  /** When neither container lies in the other, the purse is what the one holds and what the other holds. */
  lemma PurseSplits(game: Game, cylinder: Item, ground: Item)
    requires game.Valid() && cylinder in game.world && ground in game.world && cylinder != ground
    requires cylinder !in Contents(game, ground) && ground !in Contents(game, cylinder)
    ensures Purse(game, cylinder, ground) == SetWorth(Contents(game, cylinder), game.types) + SetWorth(Contents(game, ground), game.types)
  {
    hide Sound, Forest;
    var links := View(game.world, game.types);
    game.RanksForest();
    forall x | x in Contents(game, cylinder) && x in Contents(game, ground)
      ensures false
    {
      Comparable(links, game.rank, x, cylinder, ground);
    }
    SetWorthUnion(Contents(game, cylinder), Contents(game, ground), game.types);
  }

  lemma RootsApart(game: Game, a: Item, b: Item)
    requires game.Valid() && a in game.world && b in game.world && a != b && a.parent == null
    ensures a !in Contents(game, b)
  {
    hide Sound, Forest;
    game.RanksForest();
  }

  /** The links and the things are of the same objects. */
  ghost predicate Match(links: Snapshot, rank: map<Item, nat>, things: map<Item, Thing>) {
    Forest(links, rank) && links.Keys == things.Keys && forall x :: x in things ==> links[x].parent == things[x].parent
  }

  ghost function StacksOf(things: map<Item, Thing>): map<Item, Stack> {
    map x | x in things :: Stack(things[x].id, things[x].count, things[x].parent != null)
  }

  lemma Matches(game: Game)
    requires game.Valid()
    ensures Match(View(game.world, game.types), game.rank, Things(game.world)) && Stacks(game.world) == StacksOf(Things(game.world))
  {
    hide Sound;
    game.RanksForest();
  }

  /** Objects with the same parents lie in the same containers. */
  lemma {:induction false} WithinSame(m: Snapshot, rank: map<Item, nat>, n: Snapshot, rank': map<Item, nat>, x: Item, a: Item)
    requires Forest(m, rank) && Forest(n, rank') && x in m && x in n
    requires forall y :: y in m && y in n ==> n[y].parent == m[y].parent
    ensures Within(m, rank, x, a) <==> Within(n, rank', x, a)
    decreases Higher(m, rank, x)
  {
    if m[x].parent != null {
      HigherShrinks(m, rank, x);
      HigherShrinks(n, rank', x);
      WithinSame(m, rank, n, rank', m[x].parent, a);
    }
  }

  lemma ChildBelow(m: Snapshot, rank: map<Item, nat>, x: Item, c: Item)
    requires Forest(m, rank) && x in m && m[x].parent == c
    ensures Below(m, rank, x, c)
  {
    HigherShrinks(m, rank, x);
    assert Within(m, rank, c, c);
  }

  /** Outside the two containers nothing of worth changed. */
  lemma OutsideSame(links: Snapshot, rank: map<Item, nat>, m: map<Item, Thing>,
                    links': Snapshot, rank': map<Item, nat>, n: map<Item, Thing>, cylinder: Item, ground: Item, taken: set<Item>)
    requires Match(links, rank, m) && Match(links', rank', n) && Elsewhere(m, n, cylinder, ground, taken)
    requires taken <= Reach(links, rank, cylinder, ground)
    ensures StacksOf(m) - Plain(Reach(links, rank, cylinder, ground)) == StacksOf(n) - Plain(Reach(links', rank', cylinder, ground))
  {
    hide Forest, Below;
    var s, s' := Plain(Reach(links, rank, cylinder, ground)), Plain(Reach(links', rank', cylinder, ground));
    forall x | x in m && x !in s
      ensures x in n && x !in s' && StacksOf(n)[x] == StacksOf(m)[x]
    {
      SameReach(links, rank, links', rank', x, cylinder, ground);
      if m[x].parent in {cylinder, ground} { ChildBelow(links, rank, x, m[x].parent); }
    }
    forall x | x in n && x !in s'
      ensures x in m && x !in s
    {
      if x in m {
        SameReach(links, rank, links', rank', x, cylinder, ground);
      } else {
        ChildBelow(links', rank', x, n[x].parent);
      }
    }
  }

  lemma SameReach(links: Snapshot, rank: map<Item, nat>, links': Snapshot, rank': map<Item, nat>, x: Item, cylinder: Item, ground: Item)
    requires Forest(links, rank) && Forest(links', rank')
    requires forall y :: y in links && y in links' ==> links'[y].parent == links[y].parent
    ensures x in links && x in links' ==> (x in Reach(links, rank, cylinder, ground) <==> x in Reach(links', rank', cylinder, ground))
  {
    hide Forest;
    if x in links && x in links' {
      WithinSame(links, rank, links', rank', x, cylinder);
      WithinSame(links, rank, links', rank', x, ground);
    }
  }

  /** The purse is the total of the plain items in reach. */
  lemma PurseIs(game: Game, cylinder: Item, ground: Item)
    requires game.Valid() && cylinder in game.world && ground in game.world
    ensures Match(View(game.world, game.types), game.rank, Things(game.world))
    ensures Purse(game, cylinder, ground) == PurseIn(View(game.world, game.types), game.rank, Things(game.world), cylinder, ground, game.types)
  {
    hide Sound, Total, SetWorth;
    Matches(game);
    var links := View(game.world, game.types);
    var s := Reach(links, game.rank, cylinder, ground);
    assert s == Contents(game, cylinder) + Contents(game, ground);
    assert forall x :: x in s ==> links[x].parent != null && x.parent == links[x].parent;
    SetWorthIsTotal(game.world, s, game.types);
  }

  ghost function PurseIn(links: Snapshot, rank: map<Item, nat>, things: map<Item, Thing>, cylinder: Item, ground: Item, types: Catalogue): int
    requires Match(links, rank, things)
  {
    Total(Part(StacksOf(things), Plain(Reach(links, rank, cylinder, ground))), types)
  }

  /** What the purse gains is what the world gains. */
  lemma PurseFollows(links: Snapshot, rank: map<Item, nat>, m: map<Item, Thing>, game: Game, cylinder: Item, ground: Item, taken: set<Item>)
    requires game.Valid() && cylinder in game.world && ground in game.world
    requires Match(links, rank, m) && Elsewhere(m, Things(game.world), cylinder, ground, taken)
    requires taken <= Reach(links, rank, cylinder, ground)
    ensures Purse(game, cylinder, ground) - PurseIn(links, rank, m, cylinder, ground, game.types)
            == WorldWorth(game) - Total(StacksOf(m), game.types)
  {
    hide Sound, Total, SetWorth, Reach, Elsewhere, Purse;
    Matches(game);
    PurseIs(game, cylinder, ground);
    var links', n := View(game.world, game.types), Things(game.world);
    OutsideSame(links, rank, m, links', game.rank, n, cylinder, ground, taken);
    TotalParts(StacksOf(m), Plain(Reach(links, rank, cylinder, ground)), game.types);
    TotalParts(StacksOf(n), Plain(Reach(links', game.rank, cylinder, ground)), game.types);
  }
}
