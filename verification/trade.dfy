/** Trading between two players: request and counter-offer, accept, close, and whole runs of them. */
module Trade {

  datatype TradeState = None | Initiated | Accept | Acknowledge | Transfer

  class Item {
  }

  class Player {
    var tradeState: TradeState
    var tradePartner: Player?
    var tradeItem: Item?

    constructor ()
      ensures tradeState == None && tradePartner == null && tradeItem == null
    {
      tradeState, tradePartner, tradeItem := None, null, null;
    }
  }

  /** What a player and his partner looked like when the transfer began, and what each had seen on
      offer from the other when he accepted. */
  datatype Deal = Deal(state: TradeState, item: Item?, seen: Item?, partnerState: TradeState, partnerItem: Item?, partnerSeen: Item?)

  /** An item that changed hands, and the deal it was part of. */
  datatype Handover = Handover(item: Item, from: Player, to: Player, deal: Deal)

  /** Both accepted, both offered something, and it is one of the offers that changed hands. */
  predicate Agreed(h: Handover) {
    && h.deal.state == h.deal.partnerState == Accept && h.from != h.to
    && h.deal.item != null && h.deal.partnerItem != null && h.item in {h.deal.item, h.deal.partnerItem}
    && Informed(h.deal)
  }

  /** The one whose acceptance completes the deal has seen what he gets; his partner has if and only if
      there was an offer to see when he accepted. */
  predicate Informed(deal: Deal) {
    deal.seen == deal.partnerItem && (deal.partnerSeen == deal.item <==> deal.partnerSeen != null)
  }

  /** What the rest of the server answers while a trade is carried out. */
  datatype Answers = Answers(reachable: bool, deny: bool, add1: bool, add2: bool, remove1: bool, remove2: bool, move1: bool, move2: bool)

  datatype Step =
    | Request(player: Player, partner: Player?, item: Item?, passes: bool, holds: (Item, Item) -> bool, deny: bool)
    | PlayerAccept(player: Player, answers: Answers)
    | Close(player: Player)

  // ---------------------------------------------------------------- the invariant on snapshots

  /** The trade fields of one player. */
  datatype Seat = Seat(state: TradeState, partner: Player?, item: Item?)

  const IDLE := Seat(None, null, null)

  type Seats = map<Player, Seat>

  /** Partnership is symmetric, nobody is his own partner, those without a partner are in no trade,
      and two partners are in transfer together. */
  ghost predicate Matched(m: Seats) {
    forall p :: p in m ==>
      && (m[p].state == None <==> m[p].partner == null)
      && (m[p].partner != null ==>
            && m[p].partner in m && m[p].partner != p && m[m[p].partner].partner == p
            && (m[p].state == Transfer <==> m[m[p].partner].state == Transfer))
      && (m[p].state == Initiated ==> m[p].item != null)
      && (m[p].state in {None, Acknowledge} ==> m[p].item == null)
  }

  /** In every pair somebody has offered something. */
  ghost predicate Offering(m: Seats)
    requires Matched(m)
  {
    forall p :: p in m && m[p].partner != null && m[p].state != Transfer ==>
      m[p].item != null || m[m[p].partner].item != null
  }

  /** The register is the map from each offered item to the player who offers it. */
  ghost predicate Registered(m: Seats, t: map<Item, Player>) {
    && (forall p :: p in m && m[p].item != null && m[p].state != Transfer ==> m[p].item in t && t[m[p].item] == p)
    && (forall i :: i in t ==> t[i] in m && m[t[i]].item == i && m[t[i]].state != Transfer)
  }

  ghost predicate Sound(m: Seats, t: map<Item, Player>) {
    Matched(m) && Offering(m) && Registered(m, t)
  }

  /** Nobody is in transfer. */
  ghost predicate Calm(m: Seats) {
    forall p :: p in m ==> m[p].state != Transfer
  }

  ghost predicate MayStart(m: Seats, player: Player, partner: Player)
    requires player in m && partner in m
  {
    && (m[player].state == None || (m[player].state == Acknowledge && m[player].partner == partner))
    && (m[partner].state == None || m[partner].partner == player)
  }

  /** After a request or a counter-offer the two are partners and the item is offered. */
  ghost function Started(m: Seats, player: Player, partner: Player, item: Item): Seats
    requires partner in m
  {
    var state := if m[partner].state == None then Acknowledge else m[partner].state;
    m[player := Seat(Initiated, partner, item)][partner := Seat(state, player, m[partner].item)]
  }

  lemma StartKeeps(m: Seats, t: map<Item, Player>, player: Player, partner: Player, item: Item)
    requires Sound(m, t) && player in m && partner in m && player != partner && item !in t
    requires MayStart(m, player, partner)
    ensures Sound(Started(m, player, partner, item), t[item := player])
    ensures m[partner].state != None ==> m[partner].item != null
    ensures Calm(m) ==> Calm(Started(m, player, partner, item))
  {
    StartMatches(m, player, partner, item);
    hide Matched;
  }

  lemma StartMatches(m: Seats, player: Player, partner: Player, item: Item)
    requires Matched(m) && Offering(m) && player in m && partner in m && player != partner && MayStart(m, player, partner)
    ensures Matched(Started(m, player, partner, item)) && Offering(Started(m, player, partner, item))
    ensures m[player].item == null && m[player].state != Transfer && m[partner].state != Transfer
    ensures m[partner].state != None ==> m[partner].item != null
  {
  }

  /** The pair is free again. */
  ghost function Closed(m: Seats, player: Player): Seats
    requires player in m
  {
    var partner := m[player].partner;
    if partner == null then m[player := IDLE] else m[player := IDLE][partner := IDLE]
  }

  lemma ClosedSame(m: Seats, t: map<Item, Player>, player: Player)
    requires player in m
    ensures var n := m[player := m[player].(state := Accept)];
            Closed(n, player) == Closed(m, player) && Without(n, t, player) == Without(m, t, player)
  {
  }

  /** The register without the offers of the pair. */
  ghost function Without(m: Seats, t: map<Item, Player>, player: Player): map<Item, Player>
    requires player in m
  {
    map i | i in t && t[i] != player && t[i] != m[player].partner :: t[i]
  }

  lemma CloseKeeps(m: Seats, t: map<Item, Player>, player: Player)
    requires Sound(m, t) && player in m && m[player].state != Transfer
    ensures Sound(Closed(m, player), Without(m, t, player))
  {
    CloseMatches(m, player);
    hide Matched;
  }

  lemma CloseMatches(m: Seats, player: Player)
    requires Matched(m) && Offering(m) && player in m
    ensures Matched(Closed(m, player)) && Offering(Closed(m, player))
  {
    var n, partner := Closed(m, player), m[player].partner;
    forall p | p in m && p != player && p != partner
      ensures n[p] == m[p] && m[p].partner != player && (partner != null ==> m[p].partner != partner)
    {
      var q := m[p].partner;
      assert q != null ==> m[q].partner == p;
    }
  }

  lemma AcceptKeeps(m: Seats, t: map<Item, Player>, player: Player)
    requires Sound(m, t) && player in m && m[player].state in {Acknowledge, Initiated}
    ensures Sound(m[player := m[player].(state := Accept)], t)
  {
  }

  /** In the middle of a transfer the pair is set apart, and everybody else is as before. */
  ghost function Apart(m: Seats, player: Player, partner: Player): Seats
    requires player in m && partner in m
  {
    m[player := m[player].(state := Transfer)][partner := m[partner].(state := Transfer)]
  }

  lemma TransferKeeps(m: Seats, t: map<Item, Player>, player: Player)
    requires Sound(m, t) && player in m && m[player].partner != null && m[player].state == Accept
    ensures Sound(Apart(m, player, m[player].partner), Without(m, t, player))
  {
  }

  lemma PairKnown(m: Seats, t: map<Item, Player>, player: Player)
    requires Sound(m, t) && player in m
    ensures m[player].state in {Acknowledge, Initiated, Accept} ==> m[player].partner != null
    ensures Calm(m) ==> m[player].state != Transfer && Calm(Closed(m, player)) && Calm(m[player := m[player].(state := Accept)])
    ensures var q := m[player].partner;
            q != null ==> q in m && q != player && m[q].partner == player && (m[player].state == Transfer <==> m[q].state == Transfer)
    ensures forall i :: i in t ==> t[i] in m && m[t[i]].item == i
    ensures m[player].item != null && m[player].state != Transfer ==> m[player].item in t && t[m[player].item] == player
    ensures var q := m[player].partner;
            q != null && m[q].item != null && m[q].state != Transfer ==> m[q].item in t && t[m[q].item] == q
  {
  }

  /** Who has accepted an offer is still offered just that. */
  ghost predicate Standing(m: Seats, seen: map<Player, Item?>) {
    forall p :: p in m && m[p].state == Accept && p in seen && seen[p] != null ==>
      m[p].partner in m && m[m[p].partner].item == seen[p]
  }

  lemma StartStands(m: Seats, t: map<Item, Player>, seen: map<Player, Item?>, player: Player, partner: Player, item: Item)
    requires Sound(m, t) && player in m && partner in m && player != partner && MayStart(m, player, partner)
    requires Standing(m, seen)
    ensures Standing(Started(m, player, partner, item), seen)
  {
    StartMatches(m, player, partner, item);
  }

  lemma CloseStands(m: Seats, t: map<Item, Player>, seen: map<Player, Item?>, player: Player)
    requires Sound(m, t) && player in m && Standing(m, seen)
    ensures Standing(Closed(m, player), seen)
  {
    CloseMatches(m, player);
  }

  lemma AcceptStands(m: Seats, t: map<Item, Player>, seen: map<Player, Item?>, player: Player)
    requires Sound(m, t) && player in m && m[player].state in {Acknowledge, Initiated} && Standing(m, seen)
    ensures m[player].partner in m
    ensures Standing(m[player := m[player].(state := Accept)], seen[player := m[m[player].partner].item])
  {
  }

  /** The deal that two players who have both accepted come to. */
  lemma DealInforms(m: Seats, t: map<Item, Player>, seen: map<Player, Item?>, player: Player, partner: Player)
    requires Sound(m, t) && Standing(m, seen) && player in m && partner in m && m[player].partner == partner && player in seen
    requires m[player].state == m[partner].state == Accept && seen[player] == m[partner].item
    requires m[player].item != null
    ensures var partnerSeen := if partner in seen then seen[partner] else null;
            Informed(Deal(Accept, m[player].item, seen[player], Accept, m[partner].item, partnerSeen))
  {
  }

  ghost function Minus(t: map<Item, Player>, item: Item?): map<Item, Player> {
    map i | i in t && i != item :: t[i]
  }

  lemma WithoutPair(m: Seats, t: map<Item, Player>, player: Player)
    requires Sound(m, t) && player in m && m[player].state != Transfer
    ensures var q := m[player].partner;
            Without(m, t, player) == Minus(Minus(t, m[player].item), if q == null then null else m[q].item)
    ensures m[player].partner == null ==> m[player].item == null && Minus(t, null) == t
  {
    PairKnown(m, t, player);
  }

  /** What one accepted trade hands over: the second item only after the first, neither unless all
      tests passed and both are there. */
  ghost function Exchange(player: Player, partner: Player, deal: Deal, a: Answers): (hs: seq<Handover>)
    ensures player != partner ==> forall h :: h in hs ==> (Agreed(h) <==> deal.state == deal.partnerState == Accept && Informed(deal))
    ensures hs != [] ==> deal.item != null && deal.partnerItem != null && hs[0].item == deal.item
  {
    if deal.item == null || deal.partnerItem == null || !(a.add1 && a.add2 && a.remove1 && a.remove2 && a.move1) then []
    else
      var first := Handover(deal.item, player, partner, deal);
      if a.move2 then [first, Handover(deal.partnerItem, partner, player, deal)] else [first]
  }

  // ---------------------------------------------------------------- the game

  class Game {
    ghost var players: set<Player>
    var tradeItems: map<Item, Player>
    ghost var handed: seq<Handover>
    ghost var seen: map<Player, Item?>

    constructor ()
      ensures Valid() && players == {} && tradeItems == map[] && handed == []
    {
      players, tradeItems, handed, seen := {}, map[], [], map[];
    }

    ghost function View(): (m: Seats)
      reads this`players, players
      ensures m.Keys == players
    {
      map p | p in players :: Seat(p.tradeState, p.tradePartner, p.tradeItem)
    }

    /** The invariant between steps: nobody is in transfer, and what changed hands was agreed on. */
    ghost predicate Valid()
      reads this, players
    {
      && Sound(View(), tradeItems)
      && Calm(View()) && Standing(View(), seen)
      && (forall h :: h in handed ==> Agreed(h))
    }

    /** What was offered to the player when he last accepted. */
    ghost function Seen(p: Player): Item?
      reads this`seen
    {
      if p in seen then seen[p] else null
    }

    lemma SeatOf(p: Player)
      requires p in players
      ensures View()[p] == Seat(p.tradeState, p.tradePartner, p.tradeItem)
    {
    }

    /** Those in no trade have no partner, partners are partners of each other, and nobody is in transfer. */
    lemma PartnersAre(player: Player, partner: Player)
      requires Valid() && player in players && partner in players
      ensures player.tradeState == None <==> player.tradePartner == null
      ensures partner.tradeState == None <==> partner.tradePartner == null
      ensures player.tradePartner == partner <==> partner.tradePartner == player
      ensures player.tradeState == None ==> player.tradeItem == null
      ensures player.tradeState == Acknowledge ==> player.tradeItem == null
      ensures partner.tradeState in {None, Acknowledge} ==> partner.tradeItem == null
      ensures player.tradeState != Transfer && partner.tradeState != Transfer
    {
      assert View()[player].partner == player.tradePartner && View()[partner].partner == partner.tradePartner;
    }

    ghost method Join(p: Player)
      requires Valid() && p !in players && p.tradeState == None && p.tradePartner == null && p.tradeItem == null
      modifies this`players
      ensures Valid() && players == old(players) + {p}
    {
      var m := View();
      players := players + {p};
      assert View() == m[p := IDLE];
    }

    /** The loop of playerRequestTrade over the registered items: none of them may be the item, hold
        it or lie in it. */
    method Overlaps(item: Item, holds: (Item, Item) -> bool) returns (found: bool)
      ensures found <==> exists key :: key in tradeItems && (item == key || holds(item, key) || holds(key, item))
    {
      var keys := tradeItems.Keys;
      while keys != {}
        invariant keys <= tradeItems.Keys
        invariant forall key :: key in tradeItems && key !in keys ==> !(item == key || holds(item, key) || holds(key, item))
        decreases |keys|
      {
        var key :| key in keys;
        if item == key || holds(item, key) || holds(key, item) {
          return true;
        }
        keys := keys - {key};
      }
      return false;
    }

    /** Game::playerRequestTrade; `passes` stands for the checks on distance, path and item kind. */
    method PlayerRequestTrade(player: Player, partner: Player?, item: Item?, passes: bool, holds: (Item, Item) -> bool, deny: bool)
      returns (ok: bool)
      requires Valid() && player in players && (partner != null ==> partner in players)
      modifies this`tradeItems, players
      ensures Valid()
      ensures ok <==>
                && partner != null && partner != player && item != null && passes && !deny
                && (forall key :: key in old(tradeItems) ==> item != key && !holds(item, key) && !holds(key, item))
                && old((player.tradeState == None && partner.tradeState == None)
                       || (player.tradeState == Acknowledge && player.tradePartner == partner))
      ensures View() == if ok then Started(old(View()), player, partner, item) else old(View())
      ensures tradeItems == if ok then old(tradeItems)[item := player] else old(tradeItems)
    {
      hide Sound, Calm, View, MayStart, Standing;
      if partner == null || partner == player {
        return false;
      }
      if item == null || !passes {
        return false;
      }
      var overlaps := Overlaps(item, holds);
      if overlaps || deny {
        return false;
      }
      ok := InternalStartTrade(player, partner, item);
    }

    /** Game::internalStartTrade: a request between two free players, or the counter-offer of one who has
        been asked, whatever his partner's state; everybody else in a trade is refused. */
    method InternalStartTrade(player: Player, partner: Player, item: Item) returns (ok: bool)
      requires Valid() && player in players && partner in players && player != partner && item !in tradeItems
      modifies this`tradeItems, player, partner`tradeState, partner`tradePartner
      ensures Valid()
      ensures View() == if ok then Started(old(View()), player, partner, item) else old(View())
      ensures tradeItems == if ok then old(tradeItems)[item := player] else old(tradeItems)
      ensures ok <==> old((player.tradeState == None && partner.tradeState == None)
                          || (player.tradeState == Acknowledge && player.tradePartner == partner))
      ensures ok ==> player.tradeState == Initiated && player.tradePartner == partner && player.tradeItem == item
      ensures ok ==> partner.tradeState == (if old(partner.tradeState) == None then Acknowledge else old(partner.tradeState))
      ensures ok ==> partner.tradePartner == player && unchanged(partner`tradeItem)
    {
      hide Sound, Calm, Standing;
      ghost var m := View();
      PartnersAre(player, partner);
      if player.tradeState != None && !(player.tradeState == Acknowledge && player.tradePartner == partner) {
        return false;
      } else if partner.tradeState != None && partner.tradePartner != player {
        return false;
      }
      StartKeeps(m, tradeItems, player, partner, item);
      StartStands(m, tradeItems, seen, player, partner, item);
      player.tradePartner, player.tradeItem, player.tradeState := partner, item, Initiated;
      tradeItems := tradeItems[item := player];
      if partner.tradeState == None {
        partner.tradeState, partner.tradePartner := Acknowledge, player;
      } else {
        // the partner's own offer is shown to the player: there is one
        var counterItem: Item := partner.tradeItem;
      }
      assert View() == Started(m, player, partner, item);
      return true;
    }

    /** Takes an offer off the register; nothing happens for a player without one. */
    method Withdraw(item: Item?)
      modifies this`tradeItems
      ensures tradeItems == Minus(old(tradeItems), item)
    {
      if item != null && item in tradeItems {
        tradeItems := map i | i in tradeItems && i != item :: tradeItems[i];
      }
    }

    /** Game::internalCloseTrade.  It may also be called in the middle of a transfer, and then does
        nothing to the pair in transfer; otherwise it frees both players and both offers. */
    method InternalCloseTrade(player: Player) returns (ok: bool)
      requires Sound(View(), tradeItems) && player in players
      modifies this`tradeItems, player, if player.tradePartner == null then {} else {player.tradePartner}
      ensures ok && Sound(View(), tradeItems)
      ensures View() == if old(player.tradeState) == Transfer then old(View()) else Closed(old(View()), player)
      ensures tradeItems == if old(player.tradeState) == Transfer then old(tradeItems) else Without(old(View()), old(tradeItems), player)
    {
      hide Sound, Calm, Standing;
      ghost var m, t := View(), tradeItems;
      PairKnown(m, t, player);
      if player.tradeState != Transfer { CloseKeeps(m, t, player); }
      var partner := player.tradePartner;
      if (partner != null && partner.tradeState == Transfer) || player.tradeState == Transfer {
        return true;
      }
      Free(player);
      if partner != null {
        Free(partner);
      }
      WithoutPair(m, t, player);
      return true;
    }

    /** One player's half of internalCloseTrade. */
    method Free(p: Player)
      requires p in players
      modifies this`tradeItems, p
      ensures View() == old(View())[p := IDLE] && tradeItems == Minus(old(tradeItems), old(p.tradeItem))
    {
      if p.tradeItem != null {
        Withdraw(p.tradeItem);
        p.tradeItem := null;
      }
      p.tradeState, p.tradePartner := None, null;
    }

    /** Game::playerAcceptTrade.  Items change hands only when the partner had accepted before and
        both have offered; whatever comes of it, the pair is then free. */
    method PlayerAcceptTrade(player: Player, a: Answers)
      requires Valid() && player in players
      modifies this`tradeItems, this`handed, this`seen, player, if player.tradePartner == null then {} else {player.tradePartner}
      ensures Valid()
      ensures var m := old(View());
              if m[player].state !in {Acknowledge, Initiated} || !a.reachable then
                View() == m && tradeItems == old(tradeItems) && handed == old(handed)
              else if m[m[player].partner].state != Accept || a.deny then
                View() == m[player := m[player].(state := Accept)] && tradeItems == old(tradeItems) && handed == old(handed)
              else
                && View() == Closed(m, player) && tradeItems == Without(m, old(tradeItems), player)
                && var q := m[player].partner;
                   handed == old(handed) + Exchange(player, q, Deal(Accept, m[player].item, m[q].item, m[q].state, m[q].item, old(Seen(q))), a)
      ensures var m := old(View());
              seen == if m[player].state in {Acknowledge, Initiated} && a.reachable then old(seen)[player := m[m[player].partner].item] else old(seen)
      ensures handed != old(handed) <==>
                && old(player.tradeState in {Acknowledge, Initiated} && player.tradeItem != null)
                && old(player.tradePartner != null && player.tradePartner.tradeState == Accept && player.tradePartner.tradeItem != null)
                && a.reachable && !a.deny && a.add1 && a.add2 && a.remove1 && a.remove2 && a.move1
      ensures handed != old(handed) ==> |handed| == |old(handed)| + (if a.move2 then 2 else 1)
    {
      hide Sound, Calm, View, Standing, Closed, Without;
      ghost var m := View();
      SeatOf(player);
      PairKnown(m, tradeItems, player);
      if !(player.tradeState == Acknowledge || player.tradeState == Initiated) {
        return;
      }
      var partner := player.tradePartner;
      SeatOf(partner);
      if !a.reachable {
        return;
      }
      AcceptKeeps(m, tradeItems, player);
      AcceptStands(m, tradeItems, seen, player);
      MarkAccepted(player, partner);
      if partner.tradeState == Accept {
        if a.deny {
          return;
        }
        ClosedSame(m, tradeItems, player);
        CarryOut(player, partner, a);
      }
    }

    method MarkAccepted(player: Player, partner: Player)
      requires player in players
      modifies this`seen, player`tradeState
      ensures View() == old(View())[player := old(View())[player].(state := Accept)] && player.tradeState == Accept
      ensures seen == old(seen)[player := partner.tradeItem]
    {
      player.tradeState := Accept;
      seen := seen[player := partner.tradeItem];
    }

    /** What the two players look like now. */
    ghost function TermsOf(player: Player, partner: Player): Deal
      reads this, player, partner
    {
      Deal(player.tradeState, player.tradeItem, Seen(player), partner.tradeState, partner.tradeItem, Seen(partner))
    }

    /** The transfer itself.  What changes hands is recorded with the states found here, before the
        pair is set apart. */
    method CarryOut(player: Player, partner: Player, a: Answers)
      requires Valid() && player in players && partner == player.tradePartner && partner in players && partner != player
      requires player.tradeState == partner.tradeState == Accept && player in seen && Seen(player) == partner.tradeItem
      modifies this`tradeItems, this`handed, player, partner
      ensures Valid()
      ensures View() == Closed(old(View()), player) && tradeItems == Without(old(View()), old(tradeItems), player)
      ensures handed == old(handed) + Exchange(player, partner, old(TermsOf(player, partner)), a)
    {
      hide Sound, Calm, View, Standing;
      ghost var m, t := View(), tradeItems;
      SeatOf(player);
      SeatOf(partner);
      PairKnown(m, t, player);
      TransferKeeps(m, t, player);
      CloseKeeps(m, t, player);
      CloseStands(m, t, seen, player);
      WithoutPair(m, t, player);
      if player.tradeItem != null { DealInforms(m, t, seen, player, partner); }
      var item1, item2 := player.tradeItem, partner.tradeItem;
      ghost var deal := TermsOf(player, partner);
      Reserve(player, partner, item1, item2);
      var isSuccess := HandOver(player, partner, item1, item2, deal, a);
      Leave(player);
      Leave(partner);
      assert View() == Closed(m, player);
    }

    /** Both are in transfer and their offers off the register. */
    method Reserve(player: Player, partner: Player, item1: Item?, item2: Item?)
      requires player in players && partner in players
      modifies this`tradeItems, player`tradeState, partner`tradeState
      ensures View() == Apart(old(View()), player, partner) && player.tradeState == Transfer
      ensures tradeItems == Minus(Minus(old(tradeItems), item1), item2)
    {
      hide View;
      SetApart(player, partner);
      Withdraw(item1);
      Withdraw(item2);
    }

    method SetApart(player: Player, partner: Player)
      requires player in players && partner in players
      modifies player`tradeState, partner`tradeState
      ensures View() == Apart(old(View()), player, partner) && player.tradeState == Transfer
    {
      player.tradeState, partner.tradeState := Transfer, Transfer;
    }

    method Leave(p: Player)
      requires p in players
      modifies p
      ensures View() == old(View())[p := IDLE]
    {
      p.tradeState, p.tradeItem, p.tradePartner := None, null, null;
    }

    /** The tests and the two moves; the result of the second move is not looked at.  Everybody but
        the pair may close a trade meanwhile. */
    method HandOver(player: Player, partner: Player, item1: Item?, item2: Item?, ghost deal: Deal, a: Answers) returns (isSuccess: bool)
      requires Sound(View(), tradeItems) && player in players && player.tradeState == Transfer
      requires item1 == deal.item && item2 == deal.partnerItem
      modifies this`handed
      ensures handed == old(handed) + Exchange(player, partner, deal, a)
      ensures isSuccess <==> handed != old(handed)
    {
      hide Sound, Calm, View, Standing;
      var ret1 := item1 != null && a.add1;
      var ret2 := item2 != null && a.add2;
      if ret1 && ret2 {
        ret1, ret2 := a.remove1, a.remove2;
        if ret1 && ret2 {
          ret1 := a.move1;
          if ret1 {
            handed := handed + [Handover(item1, player, partner, deal)];
            if a.move2 {
              handed := handed + [Handover(item2, partner, player, deal)];
            }
            return true;
          }
        }
      }
      return false;
    }

    /** Any run: the invariant holds throughout, every item that ever changed hands was offered
        against another in a deal both had accepted, and only accept steps hand anything over. */
    method Run(steps: seq<Step>)
      requires Valid()
      requires forall s :: s in steps ==> s.player in players && (s.Request? && s.partner != null ==> s.partner in players)
      modifies this`tradeItems, this`handed, this`seen, players
      ensures Valid() && old(handed) <= handed
      ensures (forall s :: s in steps ==> !s.PlayerAccept?) ==> handed == old(handed)
    {
      hide Sound, Calm, View, Standing;
      for i := 0 to |steps|
        invariant Valid() && old(handed) <= handed
        invariant (forall s :: s in steps[..i] ==> !s.PlayerAccept?) ==> handed == old(handed)
      {
        assert steps[i] in steps && steps[..i + 1] == steps[..i] + [steps[i]];
        Perform(steps[i]);
      }
      assert steps[..|steps|] == steps;
    }

    method Perform(step: Step)
      requires Valid() && step.player in players && (step.Request? && step.partner != null ==> step.partner in players)
      modifies this`tradeItems, this`handed, this`seen, players
      ensures Valid() && old(handed) <= handed
      ensures !step.PlayerAccept? ==> handed == old(handed)
    {
      hide Sound, Calm, View, Standing, MayStart, Started, Closed, Without, Exchange;
      PairKnown(View(), tradeItems, step.player);
      SeatOf(step.player);
      match step {
        case Request(player, partner, item, passes, holds, deny) =>
          var ok := PlayerRequestTrade(player, partner, item, passes, holds, deny);
        case PlayerAccept(player, answers) =>
          PlayerAcceptTrade(player, answers);
        case Close(player) =>
          CloseStands(View(), tradeItems, seen, player);
          var ok := InternalCloseTrade(player);
      }
    }
  }

  const YES := Answers(true, false, true, true, true, true, true, true)

  lemma IdleSeat(m: Seats, t: map<Item, Player>, p: Player)
    requires Sound(m, t) && p in m && m[p].state == None
    ensures m[p] == IDLE && forall i :: i in t ==> t[i] != p
  {
  }

  /** Player `a` offers something to `b` and accepts at once, whatever will be offered to him. */
  method AcceptEarly(game: Game, a: Player, b: Player, x: Item) returns (ghost waiting: Seats)
    requires game.Valid() && a in game.players && b in game.players && a != b && a.tradeState == b.tradeState == None
    requires x !in game.tradeItems
    modifies game`tradeItems, game`handed, game`seen, game.players
    ensures game.Valid() && game.View() == waiting && a in waiting && b in waiting
    ensures waiting[a] == Seat(Accept, b, x) && waiting[b] == Seat(Acknowledge, a, null)
    ensures game.tradeItems == old(game.tradeItems)[x := a] && game.handed == old(game.handed) && game.Seen(a) == null
  {
    hide Sound, Calm, Game.View, Standing, Closed, Without;
    ghost var m := game.View();
    game.SeatOf(a);
    game.SeatOf(b);
    IdleSeat(m, game.tradeItems, a);
    IdleSeat(m, game.tradeItems, b);
    var ok := game.PlayerRequestTrade(a, b, x, true, (i: Item, j: Item) => false, false);
    game.SeatOf(a);
    game.PlayerAcceptTrade(a, YES);
    waiting := game.View();
  }

  /** Player `b` then offers what he likes and accepts, too.  So `a` gives `x` for something he has
      never agreed to, or keeps it if the second move fails. */
  method AcceptedUnseen(game: Game, a: Player, b: Player, x: Item, y: Item, second: bool)
    requires game.Valid() && a in game.players && b in game.players && a != b && a.tradeState == b.tradeState == None
    requires x != y && x !in game.tradeItems && y !in game.tradeItems
    modifies game`tradeItems, game`handed, game`seen, game.players
    ensures var deal := Deal(Accept, y, x, Accept, x, null);
            game.handed == old(game.handed) + [Handover(y, b, a, deal)] + (if second then [Handover(x, a, b, deal)] else [])
  {
    hide Sound, Calm, Game.View, Standing, Closed, Without;
    ghost var waiting := AcceptEarly(game, a, b, x);
    game.SeatOf(a);
    game.SeatOf(b);
    var ok := game.PlayerRequestTrade(b, a, y, true, (i: Item, j: Item) => false, false);
    game.SeatOf(b);
    game.PlayerAcceptTrade(b, YES.(move2 := second));
  }

  lemma ClosedPair(m: Seats, t: map<Item, Player>, x: Item, y: Item, b: Player)
    requires b in m && m[b].partner != null && m[b].partner in m && x !in t && y !in t
    requires forall i :: i in t ==> t[i] !in {m[b].partner, b}
    ensures var n, a: Player := Closed(m, b), m[b].partner;
            n[b] == n[a] == IDLE && Without(m, t[x := a][y := b], b) == t
  {
  }

  /** The ordinary trade: a request, a counter-offer, and both accept.  Both items change hands, and
      each player has seen what he gets. */
  method OrdinaryTrade(game: Game, a: Player, b: Player, x: Item, y: Item)
    requires game.Valid() && a in game.players && b in game.players && a != b && a.tradeState == b.tradeState == None
    requires x != y && x !in game.tradeItems && y !in game.tradeItems
    modifies game`tradeItems, game`handed, game`seen, game.players
    ensures var deal := Deal(Accept, y, x, Accept, x, y);
            game.handed == old(game.handed) + [Handover(y, b, a, deal), Handover(x, a, b, deal)]
    ensures a.tradeState == b.tradeState == None && a.tradePartner == b.tradePartner == null && game.tradeItems == old(game.tradeItems)
  {
    hide Sound, Calm, Game.View, Standing, Closed, Without;
    ghost var t := game.tradeItems;
    ghost var offered := OfferBoth(game, a, b, x, y);
    game.SeatOf(a);
    game.PlayerAcceptTrade(a, YES);
    game.SeatOf(b);
    ClosedPair(game.View(), t, x, y, b);
    game.PlayerAcceptTrade(b, YES);
    game.SeatOf(a);
    game.SeatOf(b);
  }

  /** A request and the counter-offer to it. */
  method OfferBoth(game: Game, a: Player, b: Player, x: Item, y: Item) returns (ghost offered: Seats)
    requires game.Valid() && a in game.players && b in game.players && a != b && a.tradeState == b.tradeState == None
    requires x != y && x !in game.tradeItems && y !in game.tradeItems
    modifies game`tradeItems, game.players
    ensures game.Valid() && game.View() == offered && a in offered && b in offered
    ensures offered[a] == Seat(Initiated, b, x) && offered[b] == Seat(Initiated, a, y)
    ensures game.tradeItems == old(game.tradeItems)[x := a][y := b]
    ensures forall i :: i in old(game.tradeItems) ==> old(game.tradeItems[i]) !in {a, b}
  {
    hide Sound, Calm, Game.View, Standing;
    ghost var m := game.View();
    game.SeatOf(a);
    game.SeatOf(b);
    IdleSeat(m, game.tradeItems, a);
    IdleSeat(m, game.tradeItems, b);
    var ok := game.PlayerRequestTrade(a, b, x, true, (i: Item, j: Item) => false, false);
    game.SeatOf(a);
    game.SeatOf(b);
    ok := game.PlayerRequestTrade(b, a, y, true, (i: Item, j: Item) => false, false);
    offered := game.View();
  }
}
