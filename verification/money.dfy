/** Game::getMoney, removeMoney and addMoney over container cylinders. */
module Money {
  import opened ItemForest
  import opened Containers
  import opened Moves
  import opened Sequences
  import opened Worths

  // ---------------------------------------------------------------- minting coins

  const UINT16 := 0x1_0000

  /** The stack one round of addMoney creates for `tmp` coins still owed: the size is computed in
      16 bits, and CreateItem turns a size of 0 into a single coin. */
  function StackSize(tmp: nat): nat
    requires tmp > 0
  {
    var size := Min(100, tmp % UINT16);
    if size == 0 then 1 else size
  }

  /** The coins created for a count of `tmp`: every round pays off up to 100 of it. */
  function Minted(tmp: nat): nat {
    if tmp == 0 then 0 else StackSize(tmp) + Minted(tmp - Min(100, tmp))
  }

  /** Never too many coins, and exactly `tmp` of them just when `tmp` fits into 16 bits. */
  lemma {:induction false} MintedExact(tmp: nat)
    ensures Minted(tmp) <= tmp
    ensures Minted(tmp) == tmp <==> tmp < UINT16
  {
    if tmp != 0 {
      MintedExact(tmp - Min(100, tmp));
      assert tmp < UINT16 ==> tmp % UINT16 == tmp;
      assert UINT16 <= tmp < UINT16 + 100 ==> tmp % UINT16 == tmp - UINT16;
    }
  }

  /** The smallest count that comes out short: the first round creates a single coin for a hundred. */
  lemma MintedShort()
    ensures Minted(UINT16) == UINT16 - 99
  {
    MintedStep(UINT16);
    MintedExact(UINT16 - 100);
  }

  lemma MintedStep(tmp: nat)
    ensures Minted(tmp) == if tmp == 0 then 0 else StackSize(tmp) + Minted(tmp - Min(100, tmp))
  {
  }

  /** A coin: its worth and the item id that has it. */
  datatype Coin = Coin(worth: nat, id: nat)

  /** The money map from the largest worth down; the ids stack, can be carried and have the worth
      they are listed under. */
  ghost predicate MoneyMap(coins: seq<Coin>, types: Catalogue) {
    forall i :: 0 <= i < |coins| ==>
      coins[i].worth > 0 && types(coins[i].id).worth == coins[i].worth
      && types(coins[i].id).stackable && types(coins[i].id).pickupable
  }

  /** The worth of what the greedy loop creates for `money`. */
  function GreedyWorth(coins: seq<Coin>, money: nat): nat
    requires forall i :: 0 <= i < |coins| ==> coins[i].worth > 0
  {
    if coins == [] then 0
    else
      Minted(money / coins[0].worth) * coins[0].worth + GreedyWorth(coins[1..], money % coins[0].worth)
  }

  /** The coins with an id that the greedy loop creates: as many as possible of each denomination, from
      the largest down. */
  function GreedyCoins(coins: seq<Coin>, money: nat, id: nat): nat
    requires forall i :: 0 <= i < |coins| ==> coins[i].worth > 0
  {
    if coins == [] then 0
    else
      (if coins[0].id == id then Minted(money / coins[0].worth) else 0) + GreedyCoins(coins[1..], money % coins[0].worth, id)
  }

  /** No denomination is needed 65536 times or more. */
  predicate CountsFit(coins: seq<Coin>, money: nat)
    requires forall i :: 0 <= i < |coins| ==> coins[i].worth > 0
  {
    coins == [] || (money / coins[0].worth < UINT16 && CountsFit(coins[1..], money % coins[0].worth))
  }

  /** With a coin of worth 1 at the end, the greedy loop pays at most the amount, and the whole
      amount exactly when every count fits. */
  lemma {:induction false} GreedyExact(coins: seq<Coin>, money: nat)
    requires forall i :: 0 <= i < |coins| ==> coins[i].worth > 0
    requires coins != [] && coins[|coins| - 1].worth == 1
    ensures GreedyWorth(coins, money) <= money
    ensures GreedyWorth(coins, money) == money <==> CountsFit(coins, money)
  {
    hide Minted, GreedyWorth, CountsFit;
    GreedyFirst(coins, money);
    var w := coins[0].worth;
    var tmp, rest := money / w, money % w;
    MintedExact(tmp);
    if |coins| == 1 {
      NothingLeft(coins[1..], rest);
    } else {
      GreedyExact(coins[1..], rest);
    }
    GreedySum(Minted(tmp), tmp, w, GreedyWorth(coins[1..], rest), rest);
  }

  /** Each denomination is used as often as it can be: behind the first `k` of them less than one coin of
      the last of these is still owed. */
  lemma {:induction false} GreedyLeaves(coins: seq<Coin>, money: nat, k: nat)
    requires 0 < k <= |coins| && (forall i :: 0 <= i < |coins| ==> coins[i].worth > 0) && CountsFit(coins, money)
    ensures money - coins[k - 1].worth < GreedyWorth(coins[..k], money) <= money
  {
    hide Minted, GreedyWorth, CountsFit;
    GreedyFirst(coins, money);
    GreedyFirst(coins[..k], money);
    var w := coins[0].worth;
    MintedExact(money / w);
    if k == 1 {
      NothingLeft(coins[..1][1..], money % w);
    } else {
      assert coins[..k][1..] == coins[1..][..k - 1];
      GreedyLeaves(coins[1..], money % w, k - 1);
    }
  }

  /** 65536 pieces of a coin of worth 1. */
  lemma GreedyShort(id: nat)
    ensures GreedyWorth([Coin(1, id)], UINT16) == UINT16 - 99
  {
    hide Minted;
    var coins := [Coin(1, id)];
    MintedShort();
    GreedyFirst(coins, UINT16);
    NothingLeft(coins[1..], 0);
  }

  lemma NothingLeft(coins: seq<Coin>, rest: nat)
    requires coins == []
    ensures GreedyWorth(coins, rest) == 0 && CountsFit(coins, rest)
  {
  }

  /** The first denomination and the others. */
  lemma GreedyFirst(coins: seq<Coin>, money: nat)
    requires coins != [] && forall i :: 0 <= i < |coins| ==> coins[i].worth > 0
    ensures var w := coins[0].worth;
            && money == money / w * w + money % w && 0 <= money % w < w && money / w >= 0
            && GreedyWorth(coins, money) == Minted(money / w) * w + GreedyWorth(coins[1..], money % w)
            && (CountsFit(coins, money) <==> money / w < UINT16 && CountsFit(coins[1..], money % w))
  {
    hide Minted;
  }

  lemma GreedySum(minted: nat, tmp: nat, w: nat, g: nat, rest: nat)
    requires minted <= tmp && g <= rest && w > 0
    ensures minted * w + g <= tmp * w + rest
    ensures minted * w + g == tmp * w + rest <==> minted == tmp && g == rest
  {
    Scale(minted, tmp, w);
  }

  lemma Scale(a: nat, b: nat, w: nat)
    requires a <= b && w > 0
    ensures a * w <= b * w && (a * w == b * w <==> a == b)
  {
    assert b * w - a * w == (b - a) * w;
  }

  /** Denominations no further apart than 65536 always fit. */
  lemma {:induction false} DenseFits(coins: seq<Coin>, money: nat)
    requires forall i :: 0 <= i < |coins| ==> coins[i].worth > 0
    requires coins != [] ==> money < UINT16 * coins[0].worth
    requires forall i :: 0 < i < |coins| ==> coins[i - 1].worth <= UINT16 * coins[i].worth
    ensures CountsFit(coins, money)
  {
    if coins != [] {
      var w := coins[0].worth;
      assert money / w < UINT16 by { Quotient(money, w); }
      DenseFits(coins[1..], money % w);
    }
  }

  lemma Quotient(money: nat, w: nat)
    requires w > 0 && money < UINT16 * w
    ensures money / w < UINT16
  {
    var q := money / w;
    assert money == q * w + money % w;
    if q >= UINT16 { Scale(UINT16, q, w); }
  }

  // ---------------------------------------------------------------- paying out

  /** Without limits the ground takes every coin. */
  lemma GroundTakes(game: Game, ground: Item, item: Item, flags: Flags)
    requires game.Valid() && ground in game.world && ground.isContainer && item in game.world && item != ground
    requires !item.isContainer && game.types(item.id).pickupable && flags.noLimit
    ensures AddChecks(game, ground, INDEX_WHEREEVER, item, flags) == NoError
  {
    hide Sound, View, Game.Inside, Game.MaxCount;
    game.PlainNotAround(ground, item);
    game.DestinationInWorld(ground, INDEX_WHEREEVER, item, flags);
    game.DestinationSettles(ground, INDEX_WHEREEVER, item, flags);
  }

  /** A container with a free slot, or without limits, takes every coin. */
  lemma RoomTakes(game: Game, c: Item, item: Item, flags: Flags)
    requires game.Valid() && c in game.world && c.isContainer && item in game.world && item != c && !flags.childIsOwner
    requires !item.isContainer && game.types(item.id).pickupable && game.types(item.id).stackable && item.count <= 100
    requires flags.noLimit || |c.itemlist| < c.capacity
    ensures AddChecks(game, c, INDEX_WHEREEVER, item, flags) == NoError
  {
    hide Sound, View, Game.Inside, Game.Rooms;
    game.PlainNotAround(c, item);
    game.DestinationInWorld(c, INDEX_WHEREEVER, item, flags);
    game.DestinationSettles(c, INDEX_WHEREEVER, item, flags);
    SumNonNegative(game.Rooms(c.itemlist, item));
  }

  /** What was poured into `c` has not taken anything off its list, and anything poured elsewhere has
      left the list alone. */
  lemma ListGrows(m: map<Item, Thing>, n: map<Item, Thing>, to: Item, item: Item, c: Item)
    requires Poured(m, n, to, item) && c in m && c in n
    ensures |n[c].list| >= |m[c].list| && (c != to ==> n[c].list == m[c].list)
  {
  }

  /** A new stack that was poured into one of the two containers. */
  lemma PouredElsewhere(m: map<Item, Thing>, loose: map<Item, Thing>, n: map<Item, Thing>, cylinder: Item, ground: Item, item: Item, to: Item)
    requires item !in m && !item.isContainer && item in loose && loose == m[item := loose[item]]
    requires Poured(loose, n, to, item) && to in {cylinder, ground}
    ensures Elsewhere(m, n, cylinder, ground, {})
  {
  }

  /** One stack: into the cylinder, or onto its tile when it may be dropped. */
  method PayStack(game: Game, cylinder: Item, ground: Item, coin: Coin, size: nat, flags: Flags, canDrop: bool) returns (ok: bool)
    requires game.Valid() && Stacked(game) && !flags.childIsOwner
    requires cylinder in game.world && cylinder.isContainer && ground in game.world && ground.isContainer
    requires MoneyMap([coin], game.types) && 1 <= size <= 100
    modifies game, game.world
    ensures game.Valid() && Stacked(game) && fresh(game.world - old(game.world)) && old(game.world) <= game.world
    ensures canDrop ==> ok
    ensures WorldWorth(game) == old(WorldWorth(game)) + (if ok then size * coin.worth else 0)
    ensures forall k :: game.Placed(k) == old(game.Placed(k)) + (if ok && k == coin.id then size else 0)
    ensures Elsewhere(old(Things(game.world)), Things(game.world), cylinder, ground, {})
    ensures |cylinder.itemlist| >= old(|cylinder.itemlist|)
    ensures HasRoom(cylinder, flags) ==> ok && Elsewhere(old(Things(game.world)), Things(game.world), cylinder, cylinder, {})
  {
    hide Game.Valid, Stacked, Amount, Total, Stacks, AddChecks, Things, Poured, Elsewhere, Roomy, Framed;
    assert [coin][0] == coin;
    ThingIs(game.world, cylinder);
    ghost var before, m := Stacks(game.world), Things(game.world);
    var item := MakeStack(game, coin.id, size);
    ghost var loose, takes := Things(game.world), AddChecks(game, cylinder, INDEX_WHEREEVER, item, flags) == NoError;
    if HasRoom(cylinder, flags) { RoomTakes(game, cylinder, item, flags); }
    ok := PlaceStack(game, cylinder, ground, item, flags, canDrop);
    ThingIs(game.world, cylinder);
    if takes {
      PouredElsewhere(m, loose, Things(game.world), cylinder, ground, item, cylinder);
      PouredElsewhere(m, loose, Things(game.world), cylinder, cylinder, item, cylinder);
      ListGrows(loose, Things(game.world), cylinder, item, cylinder);
    } else if ok {
      PouredElsewhere(m, loose, Things(game.world), cylinder, ground, item, ground);
      ListGrows(loose, Things(game.world), ground, item, cylinder);
      if cylinder == ground { PouredElsewhere(m, loose, Things(game.world), cylinder, cylinder, item, ground); }
    } else {
      assert loose - {item} == m;
      ElsewhereSame(m, cylinder, ground, {});
    }
    WorthFollows(before, game, coin.id, if ok then size else 0);
  }

  /** There is a free slot, or none is needed. */
  predicate HasRoom(c: Item, flags: Flags)
    reads c
  {
    flags.noLimit || |c.itemlist| < c.capacity
  }

  /** The stack goes into the cylinder exactly if the checks let it; otherwise onto the tile, if it may. */
  method PlaceStack(game: Game, cylinder: Item, ground: Item, item: Item, flags: Flags, canDrop: bool) returns (ok: bool)
    requires game.Valid() && Stacked(game) && !flags.childIsOwner && item in game.world && item.parent == null && !item.isContainer
    requires cylinder in game.world && cylinder.isContainer && ground in game.world && ground.isContainer
    requires game.types(item.id).pickupable
    modifies game, game.world
    ensures game.Valid() && Stacked(game) && fresh(game.world - old(game.world)) && old(game.world) - {item} <= game.world
    ensures ok <==> canDrop || old(AddChecks(game, cylinder, INDEX_WHEREEVER, item, flags)) == NoError
    ensures var m, n := old(Things(game.world)), Things(game.world);
            if old(AddChecks(game, cylinder, INDEX_WHEREEVER, item, flags)) == NoError then Poured(m, n, cylinder, item)
            else if canDrop then Poured(m, n, ground, item)
            else n == m - {item}
    ensures forall k :: game.Placed(k) == old(game.Placed(k)) + (if ok && k == old(item.id) then old(item.count) else 0)
  {
    hide Game.Valid, Game.Placed, Stacked, Roomy, Things, Poured, AddChecks, Stuck, Overfills, Game.Destination;
    game.DestinationSettles(cylinder, INDEX_WHEREEVER, item, flags);
    Unstuck(game, cylinder, item, flags);
    var ret, remainderCount := InternalAddItem(game, cylinder, item, INDEX_WHEREEVER, flags, false);
    if ret == NoError {
      return true;
    }
    if !canDrop {
      FreeLoose(game, item);
      return false;
    }
    // with no index named there is never a remainder, so the stack is dropped as it is
    GroundTakes(game, ground, item, NO_LIMIT);
    game.DestinationSettles(ground, INDEX_WHEREEVER, item, NO_LIMIT);
    Unstuck(game, ground, item, NO_LIMIT);
    ret, remainderCount := InternalAddItem(game, ground, item, INDEX_WHEREEVER, NO_LIMIT, false);
    return true;
  }

  /** One denomination: stacks of at most 100 until the count is paid off. */
  method PayCoins(game: Game, cylinder: Item, ground: Item, coin: Coin, count: nat, flags: Flags, canDrop: bool) returns (ok: bool)
    requires game.Valid() && Stacked(game) && !flags.childIsOwner
    requires cylinder in game.world && cylinder.isContainer && ground in game.world && ground.isContainer
    requires MoneyMap([coin], game.types)
    modifies game, game.world
    ensures game.Valid() && Stacked(game) && fresh(game.world - old(game.world)) && old(game.world) <= game.world
    ensures canDrop ==> ok
    ensures ok ==> WorldWorth(game) == old(WorldWorth(game)) + Minted(count) * coin.worth
    ensures ok ==> forall k :: game.Placed(k) == old(game.Placed(k)) + (if k == coin.id then Minted(count) else 0)
    ensures Elsewhere(old(Things(game.world)), Things(game.world), cylinder, ground, {})
    ensures |cylinder.itemlist| >= old(|cylinder.itemlist|)
    ensures HasRoom(cylinder, flags) ==> ok && Elsewhere(old(Things(game.world)), Things(game.world), cylinder, cylinder, {})
  {
    hide Game.Valid, Game.Placed, WorldWorth, Stacked, Minted, Elsewhere, Things;
    ghost var m := Things(game.world);
    ElsewhereSame(m, cylinder, ground, {});
    ElsewhereSame(m, cylinder, cylinder, {});
    var tmp := count;
    ghost var paid := 0;
    MintedStep(0);
    while tmp > 0
      invariant game.Valid() && Stacked(game) && 0 <= tmp <= count
      invariant fresh(game.world - old(game.world)) && old(game.world) <= game.world
      invariant Elsewhere(m, Things(game.world), cylinder, ground, {}) && |cylinder.itemlist| >= old(|cylinder.itemlist|)
      invariant HasRoom(cylinder, flags) ==> Elsewhere(m, Things(game.world), cylinder, cylinder, {})
      invariant paid + Minted(tmp) == Minted(count)
      invariant WorldWorth(game) == old(WorldWorth(game)) + paid * coin.worth
      invariant forall k :: game.Placed(k) == old(game.Placed(k)) + (if k == coin.id then paid else 0)
      decreases tmp
    {
      var size := Min(100, tmp % UINT16);
      if size == 0 { size := 1; }
      ghost var n := Things(game.world);
      ok := PayStack(game, cylinder, ground, coin, size, flags, canDrop);
      ElsewhereOn(m, n, Things(game.world), cylinder, ground, {});
      if HasRoom(cylinder, flags) { ElsewhereOn(m, n, Things(game.world), cylinder, cylinder, {}); }
      if !ok {
        return false;
      }
      MintedStep(tmp);
      Distribute(paid, size, coin.worth);
      paid := paid + size;
      tmp := tmp - Min(100, tmp);
    }
    return true;
  }

  /** Game::addMoney for a non-negative amount.  The new coins lie in the cylinder or, when that has no
      free slot left, on its tile, and what these two hold grows by what the greedy loop pays. */
  method AddMoney(game: Game, cylinder: Item, ground: Item, coins: seq<Coin>, money: nat, flags: Flags, canDrop: bool) returns (ok: bool)
    requires game.Valid() && Stacked(game) && !flags.childIsOwner
    requires cylinder in game.world && cylinder.isContainer && ground in game.world && ground.isContainer
    requires MoneyMap(coins, game.types) && coins != [] && coins[|coins| - 1].worth == 1
    modifies game, game.world
    ensures game.Valid() && Stacked(game) && fresh(game.world - old(game.world)) && old(game.world) <= game.world
    ensures canDrop ==> ok
    ensures ok ==> Purse(game, cylinder, ground) == old(Purse(game, cylinder, ground)) + GreedyWorth(coins, money)
    ensures ok ==> WorldWorth(game) == old(WorldWorth(game)) + GreedyWorth(coins, money)
    ensures ok ==> forall k :: game.Placed(k) == old(game.Placed(k)) + GreedyCoins(coins, money, k)
    ensures Elsewhere(old(Things(game.world)), Things(game.world), cylinder, ground, {})
    ensures HasRoom(cylinder, flags) ==> ok && Elsewhere(old(Things(game.world)), Things(game.world), cylinder, cylinder, {})
    ensures GreedyWorth(coins, money) == money <==> CountsFit(coins, money)
  {
    hide Game.Valid, Game.Placed, Total, Stacks, Stacked, Elsewhere, Things, Purse, View, GreedyWorth, GreedyCoins, CountsFit;
    ghost var links, rank, m := View(game.world, game.types), game.rank, Things(game.world);
    Matches(game);
    PurseIs(game, cylinder, ground);
    GreedyExact(coins, money);
    if money == 0 {
      GreedyZero(coins);
      ElsewhereSame(m, cylinder, ground, {});
      ElsewhereSame(m, cylinder, cylinder, {});
      return true;
    }
    ok := PayAll(game, cylinder, ground, coins, money, flags, canDrop);
    PurseFollows(links, rank, m, game, cylinder, ground, {});
  }

  /** The loop of addMoney, from the largest denomination down. */
  method PayAll(game: Game, cylinder: Item, ground: Item, coins: seq<Coin>, money: nat, flags: Flags, canDrop: bool) returns (ok: bool)
    requires game.Valid() && Stacked(game) && !flags.childIsOwner
    requires cylinder in game.world && cylinder.isContainer && ground in game.world && ground.isContainer
    requires MoneyMap(coins, game.types)
    modifies game, game.world
    ensures game.Valid() && Stacked(game) && fresh(game.world - old(game.world)) && old(game.world) <= game.world
    ensures canDrop ==> ok
    ensures ok ==> WorldWorth(game) == old(WorldWorth(game)) + GreedyWorth(coins, money)
    ensures ok ==> forall k :: game.Placed(k) == old(game.Placed(k)) + GreedyCoins(coins, money, k)
    ensures Elsewhere(old(Things(game.world)), Things(game.world), cylinder, ground, {})
    ensures |cylinder.itemlist| >= old(|cylinder.itemlist|)
    ensures HasRoom(cylinder, flags) ==> ok && Elsewhere(old(Things(game.world)), Things(game.world), cylinder, cylinder, {})
  {
    hide Game.Valid, Game.Placed, WorldWorth, Stacked, GreedyWorth, GreedyCoins, Minted, Elsewhere, Things;
    ghost var m := Things(game.world);
    ElsewhereSame(m, cylinder, ground, {});
    ElsewhereSame(m, cylinder, cylinder, {});
    var owed := money;
    assert coins[0..] == coins;
    for i := 0 to |coins|
      invariant game.Valid() && Stacked(game) && owed >= 0
      invariant fresh(game.world - old(game.world)) && old(game.world) <= game.world
      invariant Elsewhere(m, Things(game.world), cylinder, ground, {}) && |cylinder.itemlist| >= old(|cylinder.itemlist|)
      invariant HasRoom(cylinder, flags) ==> Elsewhere(m, Things(game.world), cylinder, cylinder, {})
      invariant WorldWorth(game) + GreedyWorth(coins[i..], owed) == old(WorldWorth(game)) + GreedyWorth(coins, money)
      invariant forall k :: game.Placed(k) + GreedyCoins(coins[i..], owed, k) == old(game.Placed(k)) + GreedyCoins(coins, money, k)
    {
      GreedyStep(coins, i, owed);
      var tmp := owed / coins[i].worth;
      owed := owed - tmp * coins[i].worth;
      if tmp == 0 {
        continue;
      }
      ghost var n := Things(game.world);
      ok := PayCoins(game, cylinder, ground, coins[i], tmp, flags, canDrop);
      ElsewhereOn(m, n, Things(game.world), cylinder, ground, {});
      if HasRoom(cylinder, flags) { ElsewhereOn(m, n, Things(game.world), cylinder, cylinder, {}); }
      if !ok {
        return false;
      }
    }
    GreedyEnd(coins, owed);
    return true;
  }

  lemma GreedyStep(coins: seq<Coin>, i: nat, owed: nat)
    requires i < |coins| && forall i :: 0 <= i < |coins| ==> coins[i].worth > 0
    ensures var w := coins[i].worth;
            && owed / w >= 0 && owed - owed / w * w == owed % w >= 0
            && GreedyWorth(coins[i..], owed) == Minted(owed / w) * w + GreedyWorth(coins[i + 1..], owed % w)
            && (owed / w == 0 ==> Minted(owed / w) == 0 && Minted(owed / w) * w == 0)
            && forall id :: GreedyCoins(coins[i..], owed, id)
                            == (if coins[i].id == id then Minted(owed / w) else 0) + GreedyCoins(coins[i + 1..], owed % w, id)
  {
    assert coins[i..][0] == coins[i] && coins[i..][1..] == coins[i + 1..];
  }

  lemma GreedyEnd(coins: seq<Coin>, owed: nat)
    ensures GreedyWorth(coins[|coins|..], owed) == 0 && forall id :: GreedyCoins(coins[|coins|..], owed, id) == 0
  {
  }

  lemma {:induction false} GreedyZero(coins: seq<Coin>)
    requires forall i :: 0 <= i < |coins| ==> coins[i].worth > 0
    ensures GreedyWorth(coins, 0) == 0 && forall id :: GreedyCoins(coins, 0, id) == 0
  {
    if coins != [] {
      assert 0 / coins[0].worth == 0 && 0 % coins[0].worth == 0;
      GreedyZero(coins[1..]);
    }
  }
}
