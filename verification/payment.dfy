/** Game::getMoney and Game::removeMoney: gathering nested coins and paying with them. */
module Payment {
  import opened Sequences
  import opened ItemForest
  import opened Containers
  import opened Moves
  import opened Iteration
  import opened Money
  import opened Worths

  class Player {
    var balance: nat
  }

  ghost function ListWorth(list: seq<Item>, types: Catalogue): nat
    reads list
  {
    if list == [] then 0 else ListWorth(list[..|list| - 1], types) + Worth(list[|list| - 1], types)
  }

  /** Summing along a list without repetition is summing over the set. */
  lemma {:induction false} ListIsSet(list: seq<Item>, s: set<Item>, types: Catalogue)
    requires Distinct(list) && forall x :: x in list <==> x in s
    ensures ListWorth(list, types) == SetWorth(s, types)
  {
    if list == [] {
      assert s == {};
    } else {
      var x, rest := list[|list| - 1], list[..|list| - 1];
      assert list == rest + [x] && x in list;
      assert forall y :: y in rest <==> y in s - {x};
      ListIsSet(rest, s - {x}, types);
      SetWorthSplit(s, x, types);
    }
  }

  // ---------------------------------------------------------------- the multimap of coins

  /** An entry of the multimap: an item under its worth. */
  datatype Piece = Piece(worth: nat, item: Item)

  /** Insertion into a std::multimap: behind the entries with the same key. */
  function Insert(pieces: seq<Piece>, p: Piece): seq<Piece> {
    if pieces == [] || p.worth < pieces[0].worth then [p] + pieces
    else [pieces[0]] + Insert(pieces[1..], p)
  }

  ghost function PiecesWorth(pieces: seq<Piece>): nat {
    if pieces == [] then 0 else pieces[0].worth + PiecesWorth(pieces[1..])
  }

  ghost function Held(pieces: seq<Piece>): set<Item> {
    set p | p in pieces :: p.item
  }

  /** Keys ascend and every item occurs once. */
  ghost predicate Ordered(pieces: seq<Piece>) {
    pieces == [] ||
    (&& pieces[0].item !in Held(pieces[1..])
     && (|pieces| > 1 ==> pieces[0].worth <= pieces[1].worth)
     && Ordered(pieces[1..]))
  }

  /** Every item stands under its worth. */
  ghost predicate Priced(pieces: seq<Piece>, types: Catalogue)
    reads Held(pieces)
  {
    forall p :: p in pieces ==> !p.item.isContainer && p.worth == Worth(p.item, types)
  }

  lemma {:induction false} InsertKeeps(pieces: seq<Piece>, p: Piece)
    requires Ordered(pieces) && p.item !in Held(pieces)
    ensures Ordered(Insert(pieces, p)) && PiecesWorth(Insert(pieces, p)) == PiecesWorth(pieces) + p.worth
    ensures forall q :: q in Insert(pieces, p) <==> q == p || q in pieces
  {
    if pieces == [] || p.worth < pieces[0].worth {
      assert ([p] + pieces)[1..] == pieces;
    } else {
      var rest := Insert(pieces[1..], p);
      assert ([pieces[0]] + rest)[1..] == rest;
      assert forall q :: q in pieces <==> q == pieces[0] || q in pieces[1..];
      InsertKeeps(pieces[1..], p);
    }
  }

  // ---------------------------------------------------------------- gathering

  /** The loops' state: `over` are the containers still to be searched, the first from `cur` on. */
  ghost predicate Walking(game: Game, root: Item, visited: seq<Item>, over: seq<Item>, cur: nat)
    requires game.Valid() && root in game.world
    reads game, game.world
  {
    var m := View(game.world, game.types);
    && (forall c :: c in over ==> c in game.world)
    && QueueInv(m, root, visited, over) && WalkInv(m, game.rank, root, visited, FrontOf(m, over, cur))
  }

  lemma WalkOn(game: Game, root: Item, visited: seq<Item>, over: seq<Item>, cur: nat)
    requires game.Valid() && root in game.world && Walking(game, root, visited, over, cur)
    requires over != [] && cur < |over[0].itemlist|
    ensures var x := over[0].itemlist[cur];
            && x in game.world && x !in visited
            && Walking(game, root, visited + [x], if x.isContainer then over + [x] else over, cur + 1)
  {
    hide Lists, Down, Up, WalkInv, FrontOf, QueueFront, Weighed;
    var m, rank := View(game.world, game.types), game.rank;
    var x, front := m[over[0]].list[cur], FrontOf(m, over, cur);
    FrontPass(m, rank, over, cur);
    WalkStep(m, rank, root, visited, front, x);
    FrontPush(m, over, cur + 1, x);
    NotQueued(m, rank, root, visited, over, front, x);
    PlainChildless(game, x);
    assert front - {x} + {} == front - {x};
  }

  lemma PlainChildless(game: Game, x: Item)
    requires game.Valid() && x in game.world
    ensures !x.isContainer ==> Children(View(game.world, game.types), x) == {}
  {
    game.PlainIsEmpty(x);
  }

  lemma WalkNext(game: Game, root: Item, visited: seq<Item>, over: seq<Item>)
    requires game.Valid() && root in game.world && over != [] && over[0] in game.world
    requires Walking(game, root, visited, over, |over[0].itemlist|)
    ensures Walking(game, root, visited, over[1..], 0)
  {
    hide Sound, WalkInv, FrontOf, QueueFront;
    FrontPop(View(game.world, game.types), over);
  }

  lemma WalkBegin(game: Game, c: Item)
    requires game.Valid() && c in game.world
    ensures Walking(game, c, [], [c], 0)
  {
    var m := View(game.world, game.types);
    WalkStart(m, game.rank, c);
    assert c.itemlist[0..] == c.itemlist;
    assert FrontOf(m, [c], 0) == Children(m, c);
  }

  /** What was visited lies in the container, and when the queue is empty it is everything. */
  lemma WalkWithin(game: Game, root: Item, visited: seq<Item>, over: seq<Item>)
    requires game.Valid() && root in game.world && Walking(game, root, visited, over, 0)
    ensures Distinct(visited) && (forall x :: x in visited ==> x in Contents(game, root) && x.parent != null)
    ensures |visited| <= |Contents(game, root)|
    ensures over == [] ==> forall x :: x in Contents(game, root) ==> x in visited
  {
    var m := View(game.world, game.types);
    DistinctFits(visited, Contents(game, root));
    forall x | x in visited
      ensures x.parent != null
    {
      assert m[x].parent == x.parent;
    }
    if over == [] { WalkEnd(m, game.rank, root, visited); }
  }

  /** What the loops have counted and stored: the visited items that are worth something. */
  ghost predicate Gathered(types: Catalogue, visited: seq<Item>, moneyCount: nat, pieces: seq<Piece>)
    reads visited, Held(pieces)
  {
    && moneyCount == PiecesWorth(pieces) == ListWorth(visited, types)
    && Ordered(pieces) && Priced(pieces, types)
    && (forall x :: x in visited && Worth(x, types) > 0 ==> x in Held(pieces))
    && (forall x :: x in Held(pieces) ==> x in visited && Worth(x, types) > 0)
  }

  lemma GatherStep(types: Catalogue, visited: seq<Item>, moneyCount: nat, pieces: seq<Piece>, x: Item)
    requires Gathered(types, visited, moneyCount, pieces) && x !in visited
    ensures var w := Worth(x, types);
            Gathered(types, visited + [x], moneyCount + w, if w > 0 then Insert(pieces, Piece(w, x)) else pieces)
  {
    var w := Worth(x, types);
    assert (visited + [x])[..|visited|] == visited;
    if w > 0 {
      var after := Insert(pieces, Piece(w, x));
      InsertKeeps(pieces, Piece(w, x));
      assert Held(after) == Held(pieces) + {x} by {
        assert Piece(w, x) in after;
        forall y | y in Held(pieces) ensures y in Held(after) {
          var q :| q in pieces && q.item == y;
          assert q in after;
        }
      }
    }
  }

  /** One container: its containers join the queue, its coins the multimap. */
  method Scan(game: Game, ghost root: Item, container: Item, list: seq<Item>, ghost visited: seq<Item>, moneyCount: nat, pieces: seq<Piece>)
    returns (list': seq<Item>, ghost visited': seq<Item>, moneyCount': nat, pieces': seq<Piece>)
    requires game.Valid() && root in game.world && container in game.world
    requires Walking(game, root, visited, [container] + list, 0) && Gathered(game.types, visited, moneyCount, pieces)
    ensures Walking(game, root, visited', list', 0) && Gathered(game.types, visited', moneyCount', pieces')
    ensures |visited'| == |visited| + |container.itemlist|
    ensures container.itemlist == [] ==> list' == list
  {
    hide Game.Valid, Walking, Gathered, Insert;
    list', visited', moneyCount', pieces' := list, visited, moneyCount, pieces;
    for i := 0 to |container.itemlist|
      invariant Walking(game, root, visited', [container] + list', i)
      invariant Gathered(game.types, visited', moneyCount', pieces')
      invariant |visited'| == |visited| + i && (i == 0 ==> list' == list)
    {
      var item := container.itemlist[i];
      WalkOn(game, root, visited', [container] + list', i);
      GatherStep(game.types, visited', moneyCount', pieces', item);
      visited' := visited' + [item];
      if item.isContainer {
        assert [container] + list' + [item] == [container] + (list' + [item]);
        list' := list' + [item];
      } else if Worth(item, game.types) != 0 {
        moneyCount' := moneyCount' + Worth(item, game.types);
        pieces' := Insert(pieces', Piece(Worth(item, game.types), item));
      }
    }
    WalkNext(game, root, visited', [container] + list');
    assert ([container] + list')[1..] == list';
  }

  /** The worth of what lies in a container at any depth. */
  ghost function ContentsWorth(game: Game, c: Item): nat
    requires game.Valid() && c in game.world
    reads game, game.world
  {
    SetWorth(Contents(game, c), game.types)
  }

  /** The searching part of getMoney and removeMoney: what lies in the cylinder at any depth, each
      item once, whatever the nesting. */
  method Gather(game: Game, cylinder: Item) returns (moneyCount: nat, pieces: seq<Piece>)
    requires game.Valid() && cylinder in game.world
    ensures moneyCount == ContentsWorth(game, cylinder) == PiecesWorth(pieces)
    ensures Ordered(pieces) && Priced(pieces, game.types)
    ensures forall x :: x in Held(pieces) <==> x in Contents(game, cylinder) && Worth(x, game.types) > 0
    ensures PriceMap(pieces) == Coins(game, cylinder)
    ensures forall x :: x in Contents(game, cylinder) && Worth(x, game.types) > 0 ==> Piece(Worth(x, game.types), x) in pieces
    ensures forall x :: x in Held(pieces) ==> x.parent != null
  {
    hide Game.Valid, Walking, Gathered, Contents, ContentsWorth, PiecesWorth, Ordered, Priced, Held, Worth, Coins, PriceMap;
    ghost var visited := [];
    GatherStart(game.types);
    WalkBegin(game, cylinder);
    assert [cylinder] + [] == [cylinder];
    var listContainer;
    listContainer, visited, moneyCount, pieces := Scan(game, cylinder, cylinder, [], visited, 0, []);
    WalkWithin(game, cylinder, visited, listContainer);
    while listContainer != []
      invariant Walking(game, cylinder, visited, listContainer, 0)
      invariant Gathered(game.types, visited, moneyCount, pieces)
      invariant |visited| <= |Contents(game, cylinder)|
      decreases |Contents(game, cylinder)| - |visited|, |listContainer|
    {
      var container := listContainer[0];
      QueuedHere(game, cylinder, visited, listContainer);
      assert [container] + listContainer[1..] == listContainer;
      listContainer, visited, moneyCount, pieces := Scan(game, cylinder, container, listContainer[1..], visited, moneyCount, pieces);
      WalkWithin(game, cylinder, visited, listContainer);
    }
    GatherEnd(game, cylinder, visited, moneyCount, pieces);
  }

  /** With nothing left to search, everything was counted and stored. */
  lemma GatherEnd(game: Game, cylinder: Item, visited: seq<Item>, moneyCount: nat, pieces: seq<Piece>)
    requires game.Valid() && cylinder in game.world
    requires Walking(game, cylinder, visited, [], 0) && Gathered(game.types, visited, moneyCount, pieces)
    ensures moneyCount == ContentsWorth(game, cylinder) == PiecesWorth(pieces)
    ensures Ordered(pieces) && Priced(pieces, game.types)
    ensures forall x :: x in Held(pieces) <==> x in Contents(game, cylinder) && Worth(x, game.types) > 0
    ensures PriceMap(pieces) == Coins(game, cylinder)
    ensures forall x :: x in Contents(game, cylinder) && Worth(x, game.types) > 0 ==> Piece(Worth(x, game.types), x) in pieces
    ensures forall x :: x in Held(pieces) ==> x.parent != null
  {
    hide Game.Valid, Walking, Contents, PiecesWorth, Ordered, Priced, Worth, Coins, PriceMap;
    WalkWithin(game, cylinder, visited, []);
    ListIsSet(visited, Contents(game, cylinder), game.types);
    EachListed(game, cylinder, pieces);
    CoinsAre(game, cylinder, pieces);
  }

  lemma GatherStart(types: Catalogue)
    ensures Gathered(types, [], 0, [])
  {
  }

  lemma QueuedHere(game: Game, root: Item, visited: seq<Item>, over: seq<Item>)
    requires game.Valid() && root in game.world && Walking(game, root, visited, over, 0)
    ensures forall c :: c in over ==> c in game.world
  {
  }

  // ---------------------------------------------------------------- getMoney and removeMoney

  /** What a cylinder can pay: the coins in it and, when it is a player, the bank balance. */
  ghost function Funds(game: Game, cylinder: Item, p: Player?): nat
    requires game.Valid() && cylinder in game.world
    reads game, game.world, if p == null then {} else {p}
  {
    ContentsWorth(game, cylinder) + (if p == null then 0 else p.balance)
  }

  method GetMoney(game: Game, cylinder: Item, p: Player?) returns (moneyCount: nat)
    requires game.Valid() && cylinder in game.world
    ensures moneyCount == Funds(game, cylinder, p)
  {
    hide Game.Valid, ContentsWorth, Contents;
    var pieces;
    moneyCount, pieces := Gather(game, cylinder);
    if p != null {
      moneyCount := moneyCount + p.balance;
    }
  }

  /** Game::internalRemoveItem of a whole plain item. */
  method RemoveItem(game: Game, cylinder: Item, ground: Item, item: Item)
    requires game.Valid() && Stacked(game) && item in game.world && item.parent != null && !item.isContainer
    modifies game`world, game.world
    ensures game.Valid() && Stacked(game) && game.world == old(game.world) - {item}
    ensures forall x :: x in game.world ==> unchanged(x`id, x`count, x`parent)
    ensures Elsewhere(old(Things(game.world)), Things(game.world), cylinder, ground, {item})
    ensures WorldWorth(game) == old(WorldWorth(game)) - old(Worth(item, game.types))
  {
    hide Game.Valid, Amount, Stacks, Total, Elsewhere;
    ghost var before, m, from := Stacks(game.world), Things(game.world), item.parent;
    game.PlainIsEmpty(item);
    var ret := InternalRemoveItem(game, item, -1, true, false);
    RemovedElsewhere(m, Things(game.world), cylinder, ground, item, from);
    WorthFollows(before, game, m[item].id, 0 - m[item].count);
    Negated(m[item].count, game.types(m[item].id).worth);
    assert forall x :: x in game.world ==> Things(game.world)[x].(list := []) == m[x].(list := []);
  }

  lemma RemovedElsewhere(m: map<Item, Thing>, n: map<Item, Thing>, cylinder: Item, ground: Item, item: Item, from: Item)
    requires item in m && !item.isContainer && m[item].parent == from && n.Keys == m.Keys - {item} && Framed(m, n, {from}, {item})
    ensures Elsewhere(m, n, cylinder, ground, {item})
  {
    assert !Clear(m, {item}, from);
  }

  lemma Negated(a: int, b: int)
    ensures (0 - a) * b == 0 - a * b
  {
  }

  // ---------------------------------------------------------------- the change that is due

  ghost predicate Cheapest(coins: map<Item, nat>, x: Item) {
    x in coins && forall y :: y in coins ==> coins[x] <= coins[y]
  }

  lemma {:induction false} CheapestExists(coins: map<Item, nat>)
    requires coins != map[]
    ensures exists x :: Cheapest(coins, x)
    decreases |coins|
  {
    var y :| y in coins;
    var rest := coins - {y};
    assert forall u :: u in coins ==> u == y || u in rest;
    if rest == map[] {
      assert Cheapest(coins, y);
    } else {
      CheapestExists(rest);
      var z :| Cheapest(rest, z);
      assert Cheapest(coins, if coins[y] <= coins[z] then y else z);
    }
  }

  /** What paying `money` out of coins with known worths gives back, when the cheapest always goes
      first: nothing, or what the coin that completes the sum is worth too much. */
  ghost function ChangeDue(coins: map<Item, nat>, money: int): nat
    decreases |coins|
  {
    if money <= 0 || coins == map[] then 0
    else
      CheapestExists(coins);
      var x :| Cheapest(coins, x);
      if coins[x] > money then coins[x] - money else ChangeDue(coins - {x}, money - coins[x])
  }

  lemma CheapestLeft(coins: map<Item, nat>, x: Item, y: Item)
    requires Cheapest(coins, y) && x in coins && x != y
    ensures Cheapest(coins - {x}, y) && |coins - {x}| < |coins|
  {
    assert coins.Keys == (coins - {x}).Keys + {x};
  }

  /** It does not matter which of several cheapest coins is taken. */
  lemma {:induction false} ChangeDueBy(coins: map<Item, nat>, x: Item, money: int)
    requires Cheapest(coins, x) && money > 0
    ensures ChangeDue(coins, money) == if coins[x] > money then coins[x] - money else ChangeDue(coins - {x}, money - coins[x])
    decreases |coins|
  {
    var y :| Cheapest(coins, y) && ChangeDue(coins, money) ==
             if coins[y] > money then coins[y] - money else ChangeDue(coins - {y}, money - coins[y]);
    assert Cheapest(coins, y);
    var rest := money - coins[x];
    if x != y && rest > 0 {
      CheapestLeft(coins, y, x);
      CheapestLeft(coins, x, y);
      ChangeDueBy(coins - {y}, x, rest);
      ChangeDueBy(coins - {x}, y, rest);
      assert coins - {y} - {x} == coins - {x} - {y};
    }
  }

  /** The same along the multimap. */
  ghost function ChangeIn(pieces: seq<Piece>, money: int): nat {
    if money <= 0 || pieces == [] then 0
    else if pieces[0].worth > money then pieces[0].worth - money
    else ChangeIn(pieces[1..], money - pieces[0].worth)
  }

  ghost function PriceMap(pieces: seq<Piece>): map<Item, nat> {
    if pieces == [] then map[] else PriceMap(pieces[1..])[pieces[0].item := pieces[0].worth]
  }

  lemma {:induction false} PricesAre(pieces: seq<Piece>)
    requires Ordered(pieces)
    ensures PriceMap(pieces).Keys == Held(pieces) && forall p :: p in pieces ==> PriceMap(pieces)[p.item] == p.worth
  {
    if pieces != [] {
      PricesAre(pieces[1..]);
      assert forall p :: p in pieces <==> p == pieces[0] || p in pieces[1..];
      assert forall p :: p in pieces[1..] ==> p.item in Held(pieces[1..]);
    }
  }

  lemma {:induction false} ChangeAgrees(pieces: seq<Piece>, money: int)
    requires Ordered(pieces)
    ensures ChangeDue(PriceMap(pieces), money) == ChangeIn(pieces, money)
    decreases |pieces|
  {
    if money > 0 && pieces != [] {
      FirstIsCheapest(pieces);
      ChangeDueBy(PriceMap(pieces), pieces[0].item, money);
      ChangeAgrees(pieces[1..], money - pieces[0].worth);
    }
  }

  lemma FirstIsCheapest(pieces: seq<Piece>)
    requires Ordered(pieces) && pieces != []
    ensures var m := PriceMap(pieces);
            Cheapest(m, pieces[0].item) && m[pieces[0].item] == pieces[0].worth && m - {pieces[0].item} == PriceMap(pieces[1..])
  {
    PricesAre(pieces);
    PricesAre(pieces[1..]);
    var m := PriceMap(pieces);
    forall y | y in m
      ensures pieces[0].worth <= m[y]
    {
      var p :| p in pieces && p.item == y;
      var j :| 0 <= j < |pieces| && pieces[j] == p;
      Ascending(pieces, 0, j);
    }
  }

  lemma {:induction false} Ascending(pieces: seq<Piece>, i: nat, j: nat)
    requires Ordered(pieces) && i <= j < |pieces|
    ensures pieces[i].worth <= pieces[j].worth
    decreases j
  {
    if i > 0 {
      Ascending(pieces[1..], i - 1, j - 1);
    } else if j > 0 {
      Ascending(pieces[1..], 0, j - 1);
    }
  }

  /** The coins that lie in a cylinder at any depth, with their worths. */
  ghost function Coins(game: Game, cylinder: Item): map<Item, nat>
    requires game.Valid() && cylinder in game.world
    reads game, game.world
  {
    map x | x in Contents(game, cylinder) && Worth(x, game.types) > 0 :: Worth(x, game.types)
  }

  lemma CoinsAre(game: Game, cylinder: Item, pieces: seq<Piece>)
    requires game.Valid() && cylinder in game.world && Ordered(pieces) && Priced(pieces, game.types)
    requires forall x :: x in Held(pieces) <==> x in Contents(game, cylinder) && Worth(x, game.types) > 0
    ensures PriceMap(pieces) == Coins(game, cylinder)
  {
    hide Game.Valid, Contents, Ordered, Worth;
    PricesAre(pieces);
    forall x | x in PriceMap(pieces)
      ensures PriceMap(pieces)[x] == Worth(x, game.types)
    {
      var p :| p in pieces && p.item == x;
    }
    forall x | x in Coins(game, cylinder)
      ensures x in PriceMap(pieces)
    {
      assert x in Contents(game, cylinder);
      assert Worth(x, game.types) > 0;
      assert x in Held(pieces);
    }
    forall x | x in Held(pieces)
      ensures x in Coins(game, cylinder)
    {
      assert Worth(x, game.types) > 0;
    }
  }

  /** The pieces are there to be taken. */
  ghost predicate Owned(game: Game, pieces: seq<Piece>)
    reads game, game.world, Held(pieces)
  {
    && Ordered(pieces) && Priced(pieces, game.types)
    && forall p :: p in pieces ==> p.item in game.world && p.item.parent != null
  }

  /** Nothing is paid back on nothing. */
  lemma NoChange(game: Game, coins: seq<Coin>, pieces: seq<Piece>)
    requires MoneyMap(coins, game.types)
    ensures GreedyWorth(coins, 0) == 0 && pieces[0..] == pieces && PiecesWorth(pieces[|pieces|..]) == 0
  {
    GreedyZero(coins);
  }

  /** Of the pieces exactly the first n are gone. */
  ghost predicate CheapestTaken(world: set<Item>, pieces: seq<Piece>, n: nat)
    requires n <= |pieces|
  {
    (forall p :: p in pieces[..n] ==> p.item !in world) && (forall p :: p in pieces[n..] ==> p.item in world)
  }

  lemma NoneTaken(game: Game, pieces: seq<Piece>)
    requires Owned(game, pieces)
    ensures CheapestTaken(game.world, pieces, 0)
  {
    assert pieces[0..] == pieces;
  }

  lemma OneTaken(world: set<Item>, pieces: seq<Piece>, n: nat)
    requires n < |pieces| && CheapestTaken(world, pieces, n) && Ordered(pieces[n..])
    ensures CheapestTaken(world - {pieces[n].item}, pieces, n + 1)
  {
    assert pieces[..n + 1] == pieces[..n] + [pieces[n]] && pieces[n..][1..] == pieces[n + 1..];
    assert forall p :: p in pieces[n + 1..] ==> p in pieces[n..] && p.item in Held(pieces[n + 1..]);
  }

  lemma StillTaken(world: set<Item>, grown: set<Item>, pieces: seq<Piece>, n: nat)
    requires n <= |pieces| && CheapestTaken(world, pieces, n)
    requires world <= grown && grown - world !! Held(pieces)
    ensures CheapestTaken(grown, pieces, n)
  {
    assert forall p :: p in pieces[..n] ==> p in pieces && p.item in Held(pieces);
  }

  /** Cheapest stacks first, until the sum is paid: of the ascending pieces exactly the first `taken`
      leave the world, all but the last of them do not cover the sum, and what they are worth too
      much comes back as change. */
  method Spend(game: Game, cylinder: Item, ground: Item, coins: seq<Coin>, pieces: seq<Piece>, money: nat, flags: Flags)
    returns (owed: nat, ghost change: nat, ghost taken: nat)
    requires game.Valid() && Stacked(game) && !flags.childIsOwner && Owned(game, pieces)
    requires cylinder in game.world && cylinder.isContainer && ground in game.world && ground.isContainer
    requires MoneyMap(coins, game.types) && coins != [] && coins[|coins| - 1].worth == 1
    modifies game, game.world
    ensures game.Valid() && Stacked(game) && cylinder in game.world && ground in game.world
    ensures WorldWorth(game) == old(WorldWorth(game)) - (money - owed) - (change - GreedyWorth(coins, change))
    ensures owed == (if money <= PiecesWorth(pieces) then 0 else money - PiecesWorth(pieces))
    ensures Elsewhere(old(Things(game.world)), Things(game.world), cylinder, ground, Held(pieces))
    ensures change == ChangeIn(pieces, money) && (change > 0 ==> exists p :: p in pieces && change < p.worth)
    ensures taken <= |pieces| && CheapestTaken(game.world, pieces, taken)
    ensures taken > 0 ==> PiecesWorth(pieces) - PiecesWorth(pieces[taken - 1..]) < money
    ensures money - owed + change == PiecesWorth(pieces) - PiecesWorth(pieces[taken..])
  {
    hide Game.Valid, Stacked, WorldWorth, GreedyWorth, PiecesWorth, Ordered, Priced, CheapestTaken, Elsewhere, Things;
    ghost var m := Things(game.world);
    ElsewhereSame(m, cylinder, ground, Held(pieces));
    owed, change, taken := money, 0, 0;
    NoneTaken(game, pieces);
    NoChange(game, coins, pieces);
    var i := 0;
    while i < |pieces| && owed > 0
      invariant game.Valid() && Stacked(game) && cylinder in game.world && ground in game.world
      invariant fresh(game.world - old(game.world))
      invariant i <= |pieces| && owed <= money
      invariant owed > 0 ==> change == 0 && Owned(game, pieces[i..])
      invariant Elsewhere(m, Things(game.world), cylinder, ground, Held(pieces))
      invariant taken == i && CheapestTaken(game.world, pieces, i)
      invariant money - owed + change == PiecesWorth(pieces) - PiecesWorth(pieces[i..])
      invariant i > 0 ==> PiecesWorth(pieces) - PiecesWorth(pieces[i - 1..]) < money
      invariant owed == 0 ==> money <= PiecesWorth(pieces)
      invariant WorldWorth(game) == old(WorldWorth(game)) - (money - owed) - (change - GreedyWorth(coins, change))
      invariant change > 0 ==> exists p :: p in pieces && change < p.worth
      invariant ChangeIn(pieces, money) == if owed > 0 then ChangeIn(pieces[i..], owed) else change
    {
      assert pieces[i..][1..] == pieces[i + 1..] && pieces[i..][0] == pieces[i] && pieces[i] in pieces;
      assert pieces[i].item in Held(pieces);
      owed, change := SpendOne(game, cylinder, ground, coins, pieces, i, owed, flags, m);
      i, taken := i + 1, i + 1;
    }
  }

  /** One piece is taken, and if it is worth more than is owed, the difference comes back. */
  method SpendOne(game: Game, cylinder: Item, ground: Item, coins: seq<Coin>, pieces: seq<Piece>, i: nat, money: nat, flags: Flags,
                  ghost m: map<Item, Thing>)
    returns (owed: nat, ghost change: nat)
    requires game.Valid() && Stacked(game) && !flags.childIsOwner && i < |pieces| && Owned(game, pieces[i..]) && money > 0
    requires cylinder in game.world && cylinder.isContainer && ground in game.world && ground.isContainer
    requires MoneyMap(coins, game.types) && coins != [] && coins[|coins| - 1].worth == 1
    requires CheapestTaken(game.world, pieces, i) && Held(pieces) <= m.Keys
    requires Elsewhere(m, Things(game.world), cylinder, ground, Held(pieces))
    modifies game, game.world
    ensures game.Valid() && Stacked(game) && fresh(game.world - old(game.world)) && cylinder in game.world && ground in game.world
    ensures CheapestTaken(game.world, pieces, i + 1) && Elsewhere(m, Things(game.world), cylinder, ground, Held(pieces))
    ensures var worth := pieces[i].worth;
            && owed == (if worth > money then 0 else money - worth) && change == (if worth > money then worth - money else 0)
            && PiecesWorth(pieces[i..]) == worth + PiecesWorth(pieces[i + 1..])
            && WorldWorth(game) == old(WorldWorth(game)) - worth + GreedyWorth(coins, change)
    ensures owed > 0 ==> Owned(game, pieces[i + 1..])
  {
    hide Game.Valid, Stacked, WorldWorth, GreedyWorth, PiecesWorth, Ordered, Priced, CheapestTaken, Elsewhere, Things, Purse;
    NoChange(game, coins, pieces);
    owed, change := money, 0;
    var piece := pieces[i];
    ghost var world, n := game.world, Things(game.world);
    assert pieces[i..][1..] == pieces[i + 1..] && piece in pieces && piece.item in Held(pieces);
    TakePiece(game, cylinder, ground, pieces[i..]);
    OneTaken(world, pieces, i);
    ElsewhereMore(n, Things(game.world), cylinder, ground, {piece.item}, Held(pieces));
    ElsewhereOn(m, n, Things(game.world), cylinder, ground, Held(pieces));
    if piece.worth > owed {
      ghost var world, n := game.world, Things(game.world);
      change := piece.worth - owed;
      var ret := AddMoney(game, cylinder, ground, coins, piece.worth - owed, flags, true);
      StillTaken(world, game.world, pieces, i + 1);
      ElsewhereMore(n, Things(game.world), cylinder, ground, {}, Held(pieces));
      ElsewhereOn(m, n, Things(game.world), cylinder, ground, Held(pieces));
      owed := 0;
    } else {
      owed := owed - piece.worth;
    }
  }

  /** No piece that is left is cheaper than one that is gone. */
  ghost predicate NoneSpared(world: set<Item>, pieces: seq<Piece>) {
    forall p, q :: p in pieces && q in pieces && p.item in world && q.item !in world ==> q.worth <= p.worth
  }

  lemma TakenSparesNone(world: set<Item>, pieces: seq<Piece>, n: nat)
    requires Ordered(pieces) && n <= |pieces| && CheapestTaken(world, pieces, n)
    ensures NoneSpared(world, pieces)
  {
    hide Ordered;
    forall p, q | p in pieces && q in pieces && p.item in world && q.item !in world
      ensures q.worth <= p.worth
    {
      assert pieces == pieces[..n] + pieces[n..];
      var i :| 0 <= i < n && pieces[..n][i] == q;
      var j :| 0 <= j < |pieces| - n && pieces[n..][j] == p;
      Ascending(pieces, i, n + j);
    }
  }

  /** Removing the cheapest piece leaves the others in place. */
  method TakePiece(game: Game, cylinder: Item, ground: Item, pieces: seq<Piece>)
    requires game.Valid() && Stacked(game) && Owned(game, pieces) && pieces != []
    modifies game`world, game.world
    ensures game.Valid() && Stacked(game) && game.world == old(game.world) - {pieces[0].item} && !pieces[0].item.isContainer
    ensures Owned(game, pieces[1..])
    ensures PiecesWorth(pieces) == pieces[0].worth + PiecesWorth(pieces[1..])
    ensures WorldWorth(game) == old(WorldWorth(game)) - pieces[0].worth
    ensures Elsewhere(old(Things(game.world)), Things(game.world), cylinder, ground, {pieces[0].item})
  {
    hide Game.Valid, Stacked, WorldWorth, Elsewhere, Things;
    var piece := pieces[0];
    assert forall p :: p in pieces[1..] ==> p in pieces && p.item in Held(pieces[1..]);
    assert forall p :: p in pieces[1..] ==> p.worth == Worth(p.item, game.types) && p.item in game.world && p.item != piece.item;
    RemoveItem(game, cylinder, ground, piece.item);
    forall p | p in pieces[1..]
      ensures p.item in game.world && p.item.parent != null && !p.item.isContainer && p.worth == Worth(p.item, game.types)
    {
    }
  }

  /** The change of a stack of the catalogue's coins is small enough when no id is worth more than
      the largest denomination. */
  ghost predicate Dense(coins: seq<Coin>, types: Catalogue) {
    && coins != [] && (forall id :: types(id).worth <= coins[0].worth)
    && (forall i :: 0 < i < |coins| ==> coins[i - 1].worth <= UINT16 * coins[i].worth)
  }

  lemma PiecesBounded(game: Game, coins: seq<Coin>, pieces: seq<Piece>)
    requires Stacked(game) && Owned(game, pieces) && Dense(coins, game.types)
    ensures forall p :: p in pieces ==> p.worth <= 100 * coins[0].worth
  {
    forall p | p in pieces
      ensures p.worth <= 100 * coins[0].worth
    {
      ScaleBoth(p.item.count, 100, game.types(p.item.id).worth, coins[0].worth);
    }
  }

  lemma ChangeFits(types: Catalogue, coins: seq<Coin>, pieces: seq<Piece>, change: nat)
    requires MoneyMap(coins, types) && Dense(coins, types)
    requires forall p :: p in pieces ==> p.worth <= 100 * coins[0].worth
    requires change > 0 ==> exists p :: p in pieces && change < p.worth
    ensures CountsFit(coins, change)
  {
    assert coins[0].worth > 0;
    DenseFits(coins, change);
  }

  lemma ScaleBoth(a: nat, b: nat, v: nat, w: nat)
    requires a <= b && v <= w
    ensures a * v <= b * w
  {
    assert a * v <= b * v && b * v <= b * w by {
      assert (b - a) * v >= 0 && b * (w - v) >= 0;
    }
  }

  /** Game::removeMoney: it succeeds exactly when the funds suffice.  The change that is due follows from
      the coins in the cylinder, and exactly the sum is gone from coins and balance if and only if that
      change can be paid out in full. */
  method RemoveMoney(game: Game, cylinder: Item, p: Player?, ground: Item, coins: seq<Coin>, money: int, flags: Flags)
    returns (ok: bool)
    requires game.Valid() && Stacked(game) && !flags.childIsOwner
    requires cylinder in game.world && cylinder.isContainer && ground in game.world && ground.isContainer
    requires MoneyMap(coins, game.types) && coins != [] && coins[|coins| - 1].worth == 1
    modifies game, game.world, if p == null then {} else {p}
    ensures game.Valid() && Stacked(game) && cylinder in game.world && ground in game.world
    ensures ok <==> money <= 0 || old(Funds(game, cylinder, p)) >= money
    ensures !ok || money <= 0 ==> Untouched(game, p)
    ensures var due := old(ChangeDue(Coins(game, cylinder), money));
            ok && money > 0 ==>
              && Wealth(game, cylinder, ground, p) == old(Wealth(game, cylinder, ground, p)) - money - (due - GreedyWorth(coins, due))
              && (Wealth(game, cylinder, ground, p) == old(Wealth(game, cylinder, ground, p)) - money <==> CountsFit(coins, due))
              && (Dense(coins, game.types) ==> CountsFit(coins, due))
    ensures ok && p != null ==> p.balance == old(p.balance) - Max(0, money - old(ContentsWorth(game, cylinder)))
    ensures Elsewhere(old(Things(game.world)), Things(game.world), cylinder, ground, old(Contents(game, cylinder)))
    ensures CheapestGone(game, old(Contents(game, cylinder)))
  {
    hide Game.Valid, Stacked, Purse, GreedyWorth, PiecesWorth, Contents, ContentsWorth, Dense, CountsFit, Elsewhere, Things, Worth,
      ChangeDue, ChangeIn, Coins, PriceMap;
    InWorld(game, cylinder);
    ElsewhereSame(Things(game.world), cylinder, ground, Contents(game, cylinder));
    if money <= 0 {
      return true;
    }
    var moneyCount, pieces := Afford(game, cylinder, p);
    if moneyCount < money {
      return false;
    }
    OwnedOrdered(game, pieces);
    ChangeAgrees(pieces, money);
    ghost var change;
    ok, change := Settle(game, cylinder, p, ground, coins, pieces, money, flags);
  }

  /** The paying part of removeMoney, when the funds suffice: what the coins do not cover comes from the
      balance. */
  method Settle(game: Game, cylinder: Item, p: Player?, ground: Item, coins: seq<Coin>, pieces: seq<Piece>, money: nat, flags: Flags)
    returns (ok: bool, ghost change: nat)
    requires game.Valid() && Stacked(game) && !flags.childIsOwner && Owned(game, pieces)
    requires cylinder in game.world && cylinder.isContainer && ground in game.world && ground.isContainer
    requires MoneyMap(coins, game.types) && coins != [] && coins[|coins| - 1].worth == 1
    requires Held(pieces) <= Contents(game, cylinder)
    requires forall x :: x in Contents(game, cylinder) && Worth(x, game.types) > 0 ==> Piece(Worth(x, game.types), x) in pieces
    requires money <= PiecesWorth(pieces) + (if p == null then 0 else p.balance)
    modifies game, game.world, if p == null then {} else {p}
    ensures game.Valid() && Stacked(game) && cylinder in game.world && ground in game.world
    ensures ok && Wealth(game, cylinder, ground, p) == old(Wealth(game, cylinder, ground, p)) - money - (change - GreedyWorth(coins, change))
    ensures p != null ==> p.balance == old(p.balance) - Max(0, money - PiecesWorth(pieces))
    ensures Elsewhere(old(Things(game.world)), Things(game.world), cylinder, ground, old(Contents(game, cylinder)))
    ensures CheapestGone(game, old(Contents(game, cylinder)))
    ensures change == ChangeIn(pieces, money) && (CountsFit(coins, change) <==> change == GreedyWorth(coins, change))
    ensures Dense(coins, game.types) ==> CountsFit(coins, change)
  {
    hide Game.Valid, Stacked, Purse, GreedyWorth, PiecesWorth, Contents, Dense, CountsFit, Elsewhere, Things, Worth, Owned, ChangeIn;
    var owed;
    owed, change := PayFrom(game, cylinder, ground, coins, pieces, money, flags);
    if owed > 0 && p != null && p.balance >= owed {
      p.balance := p.balance - owed;
      return true, change;
    }
    return owed == 0, change;
  }

  /** The coins in the cylinder, the coins on its tile, and the balance. */
  ghost function Wealth(game: Game, cylinder: Item, ground: Item, p: Player?): nat
    requires game.Valid() && cylinder in game.world && ground in game.world
    reads game, game.world, if p == null then {} else {p}
  {
    Purse(game, cylinder, ground) + (if p == null then 0 else p.balance)
  }

  /** No coins that are left are worth less than a stack that is gone. */
  twostate predicate CheapestGone(game: Game, contents: set<Item>)
    reads game
  {
    forall x, y :: x in contents && y in contents && x in game.world && y !in game.world && old(Worth(x, game.types)) > 0 ==>
      old(Worth(y, game.types)) <= old(Worth(x, game.types))
  }

  twostate predicate Untouched(game: Game, p: Player?)
    reads game, game.world, if p == null then {} else {p}
  {
    unchanged(game) && (forall x :: x in game.world ==> unchanged(x)) && (p != null ==> unchanged(p))
  }

  /** The searching part of removeMoney. */
  method Afford(game: Game, cylinder: Item, p: Player?) returns (moneyCount: nat, pieces: seq<Piece>)
    requires game.Valid() && cylinder in game.world
    ensures moneyCount == old(Funds(game, cylinder, p)) == PiecesWorth(pieces) + (if p == null then 0 else p.balance)
    ensures Owned(game, pieces) && Held(pieces) <= Contents(game, cylinder) && PriceMap(pieces) == Coins(game, cylinder)
    ensures forall x :: x in Contents(game, cylinder) && Worth(x, game.types) > 0 ==> Piece(Worth(x, game.types), x) in pieces
  {
    hide Game.Valid, PiecesWorth, ContentsWorth, Contents, Ordered, Priced, Coins, PriceMap;
    moneyCount, pieces := Gather(game, cylinder);
    HeldInWorld(game, cylinder, pieces);
    if p != null {
      moneyCount := moneyCount + p.balance;
    }
  }

  lemma HeldInWorld(game: Game, cylinder: Item, pieces: seq<Piece>)
    requires game.Valid() && cylinder in game.world
    requires forall x :: x in Held(pieces) ==> x in Contents(game, cylinder) && x.parent != null
    ensures forall p :: p in pieces ==> p.item in game.world && p.item.parent != null
  {
    forall p | p in pieces
      ensures p.item in game.world && p.item.parent != null
    {
      assert p.item in Held(pieces);
    }
  }

  lemma InWorld(game: Game, cylinder: Item)
    requires game.Valid() && cylinder in game.world
    ensures Contents(game, cylinder) <= game.world
  {
  }

  lemma EachListed(game: Game, cylinder: Item, pieces: seq<Piece>)
    requires game.Valid() && cylinder in game.world && Priced(pieces, game.types)
    requires forall x :: x in Contents(game, cylinder) && Worth(x, game.types) > 0 ==> x in Held(pieces)
    ensures forall x :: x in Contents(game, cylinder) && Worth(x, game.types) > 0 ==> Piece(Worth(x, game.types), x) in pieces
  {
    forall x | x in Contents(game, cylinder) && Worth(x, game.types) > 0
      ensures Piece(Worth(x, game.types), x) in pieces
    {
      assert x in Held(pieces);
    }
  }

  /** A container that is not the cylinder and does not lie in it holds nothing that is taken; so its
      list stays as it is, unless it is the tile. */
  lemma OutsideIsClear(game: Game, cylinder: Item, x: Item)
    requires game.Valid() && cylinder in game.world && x in game.world && x != cylinder && x !in Contents(game, cylinder)
    ensures Clear(Things(game.world), Contents(game, cylinder), x)
  {
    hide Sound, Forest;
    var m := View(game.world, game.types);
    game.RanksForest();
    forall y | y in Contents(game, cylinder)
      ensures Things(game.world)[y].parent != x
    {
      assert Below(m, game.rank, y, cylinder) && m[y].parent == y.parent;
      ParentWithin(m, game.rank, y, cylinder);
    }
  }

  lemma ParentWithin(m: Snapshot, rank: map<Item, nat>, y: Item, c: Item)
    requires Forest(m, rank) && y in m && Below(m, rank, y, c)
    ensures m[y].parent != null && m[y].parent in m && (m[y].parent == c || Below(m, rank, m[y].parent, c))
  {
    HigherShrinks(m, rank, y);
  }

  lemma InReach(game: Game, cylinder: Item, ground: Item)
    requires game.Valid() && cylinder in game.world
    ensures Forest(View(game.world, game.types), game.rank)
    ensures Contents(game, cylinder) <= Reach(View(game.world, game.types), game.rank, cylinder, ground)
  {
    game.RanksForest();
  }

  lemma OwnedOrdered(game: Game, pieces: seq<Piece>)
    requires Owned(game, pieces)
    ensures Ordered(pieces)
  {
  }

  /** Spend, with what is known of the change. */
  method PayFrom(game: Game, cylinder: Item, ground: Item, coins: seq<Coin>, pieces: seq<Piece>, money: nat, flags: Flags)
    returns (owed: nat, ghost change: nat)
    requires game.Valid() && Stacked(game) && !flags.childIsOwner && Owned(game, pieces)
    requires cylinder in game.world && cylinder.isContainer && ground in game.world && ground.isContainer
    requires MoneyMap(coins, game.types) && coins != [] && coins[|coins| - 1].worth == 1
    requires Held(pieces) <= Contents(game, cylinder)
    modifies game, game.world
    ensures game.Valid() && Stacked(game)
    ensures cylinder in game.world && ground in game.world
    ensures Purse(game, cylinder, ground) == old(Purse(game, cylinder, ground)) - (money - owed) - (change - GreedyWorth(coins, change))
    ensures owed == (if money <= PiecesWorth(pieces) then 0 else money - PiecesWorth(pieces))
    ensures Elsewhere(old(Things(game.world)), Things(game.world), cylinder, ground, old(Contents(game, cylinder)))
    ensures NoneSpared(game.world, pieces)
    ensures change == ChangeIn(pieces, money) && (CountsFit(coins, change) <==> change == GreedyWorth(coins, change))
    ensures Dense(coins, game.types) ==> CountsFit(coins, change)
  {
    hide Game.Valid, Total, Stacks, GreedyWorth, PiecesWorth, Ordered, Dense, CountsFit, CheapestTaken, NoneSpared, Elsewhere, Things, Purse,
      View, Contents, Held, Stacked, Owned, ChangeIn;
    ghost var links, rank, m, contents := View(game.world, game.types), game.rank, Things(game.world), Contents(game, cylinder);
    Matches(game);
    PurseIs(game, cylinder, ground);
    InReach(game, cylinder, ground);
    OwnedOrdered(game, pieces);
    if Dense(coins, game.types) { PiecesBounded(game, coins, pieces); }
    ghost var taken;
    owed, change, taken := Spend(game, cylinder, ground, coins, pieces, money, flags);
    TakenSparesNone(game.world, pieces, taken);
    PurseFollows(links, rank, m, game, cylinder, ground, Held(pieces));
    ElsewhereMore(m, Things(game.world), cylinder, ground, Held(pieces), contents);
    GreedyExact(coins, change);
    if Dense(coins, game.types) { ChangeFits(game.types, coins, pieces, change); }
  }
}
