/** The creature-check wheel: ten vectors, one of them visited in every round, with scripts that may
    add and remove creatures while it turns. */
module CreatureWheel {
  import opened Sequences

  /** EVENT_CREATURECOUNT */
  const COUNT := 10

  // ---------------------------------------------------------------- the rounds of a slot

  /** The rounds from `a` to `b` in which the vector `slot` is visited. */
  ghost function Rounds(a: int, b: int, slot: nat): (s: seq<int>)
    ensures forall t :: t in s <==> a <= t <= b && t % COUNT == slot
    decreases b - a + 1
  {
    if b < a then [] else Rounds(a, b - 1, slot) + (if b % COUNT == slot then [b] else [])
  }

  lemma {:induction false} RoundsSplit(a: int, m: int, b: int, slot: nat)
    requires a <= m + 1 <= b + 1
    ensures Rounds(a, b, slot) == Rounds(a, m, slot) + Rounds(m + 1, b, slot)
    decreases b - m
  {
    if b > m {
      RoundsSplit(a, m, b - 1, slot);
    }
  }

  /** Ten rounds in a row visit a slot exactly once. */
  lemma OncePerTurn(a: int, slot: nat)
    requires slot < COUNT
    ensures exists t :: a <= t < a + COUNT && t % COUNT == slot && Rounds(a, a + COUNT - 1, slot) == [t]
  {
    hide Rounds;
    var t := a + (slot - a) % COUNT;
    TurnOf(a, slot, t);
    RoundsSplit(a, t - 1, a + COUNT - 1, slot);
    RoundsSplit(t, t, a + COUNT - 1, slot);
    NoRounds(a, t - 1, slot);
    NoRounds(t + 1, a + COUNT - 1, slot);
    RoundsNext(t, t, slot);
    NoRounds(t, t - 1, slot);
  }

  /** The one round of ten in a row that belongs to a slot. */
  lemma TurnOf(a: int, slot: nat, t: int)
    requires slot < COUNT && t == a + (slot - a) % COUNT
    ensures a <= t < a + COUNT && t % COUNT == slot
    ensures forall u :: a <= u < a + COUNT && u != t ==> u % COUNT != slot
  {
    forall u | a <= u < a + COUNT && u != t
      ensures u % COUNT != slot
    {
      Apart(t, u, slot);
    }
  }

  lemma Apart(t: int, u: int, slot: nat)
    requires t % COUNT == slot && -COUNT < u - t < COUNT && u != t
    ensures u % COUNT != slot
  {
  }

  lemma RoundsNext(a: int, b: int, slot: nat)
    requires a <= b && b % COUNT == slot
    ensures Rounds(a, b, slot) == Rounds(a, b - 1, slot) + [b]
  {
  }

  lemma RoundsSkip(a: int, b: int, slot: nat)
    requires b % COUNT != slot
    ensures Rounds(a, b, slot) == Rounds(a, b - 1, slot)
  {
  }

  lemma {:induction false} NoRounds(a: int, b: int, slot: nat)
    requires forall t :: a <= t <= b ==> t % COUNT != slot
    ensures Rounds(a, b, slot) == []
    decreases b - a + 1
  {
    if a <= b {
      assert b % COUNT != slot;
      NoRounds(a, b - 1, slot);
    }
  }

  // ---------------------------------------------------------------- the invariant on lists

  class Creature {
    var checkVector: int
    var checked: bool
    var refs: nat

    constructor ()
      ensures checkVector == -1 && !checked && refs == 0
    {
      checkVector, checked, refs := -1, false, 0;
    }
  }

  /** A creature in the wheel: its vector, whether it is still pending, the round in which it came in,
      and the rounds in which it was visited since. */
  datatype Seat = Seat(slot: nat, pending: bool, joined: int, visits: seq<int>)

  type Seats = map<Creature, Seat>
  type Vectors = seq<seq<Creature>>

  /** Every seated creature is in its vector or in the pending list, once, and nothing else is. */
  ghost predicate Listed(vs: Vectors, toAdd: seq<Creature>, seats: Seats) {
    && |vs| == COUNT && Distinct(toAdd) && (forall k :: 0 <= k < COUNT ==> Distinct(vs[k]))
    && (forall c :: c in toAdd ==> c in seats && seats[c].pending)
    && (forall k, c :: 0 <= k < COUNT && c in vs[k] ==> c in seats && !seats[c].pending && seats[c].slot == k)
    && (forall c :: c in seats ==> seats[c].slot < COUNT && c in (if seats[c].pending then toAdd else vs[seats[c].slot]))
  }

  /** Nobody missed a visit; those in `todo` are still to be visited in the round that is going on. */
  ghost predicate OnTurn(seats: Seats, round: int, todo: seq<Creature>) {
    && (forall c :: c in seats && !seats[c].pending ==> seats[c].joined <= (if c in todo then round else round + 1))
    && (forall c :: c in seats ==>
          seats[c].visits ==
            if seats[c].pending then []
            else Rounds(seats[c].joined, if c in todo then round - 1 else round, seats[c].slot))
  }

  ghost predicate Sound(vs: Vectors, toAdd: seq<Creature>, seats: Seats, round: int, todo: seq<Creature>) {
    Listed(vs, toAdd, seats) && OnTurn(seats, round, todo)
  }

  lemma AddKeeps(vs: Vectors, toAdd: seq<Creature>, seats: Seats, round: int, todo: seq<Creature>, c: Creature, slot: nat)
    requires Sound(vs, toAdd, seats, round, todo) && c !in seats && slot < COUNT
    ensures Sound(vs, toAdd + [c], seats[c := Seat(slot, true, round, [])], round, todo)
  {
    hide Rounds, Distinct;
    AddLists(vs, toAdd, seats, c, Seat(slot, true, round, []));
  }

  lemma AddLists(vs: Vectors, toAdd: seq<Creature>, seats: Seats, c: Creature, seat: Seat)
    requires Listed(vs, toAdd, seats) && c !in seats && seat.slot < COUNT && seat.pending
    ensures Listed(vs, toAdd + [c], seats[c := seat])
  {
    assert c !in toAdd && Distinct(toAdd + [c]);
    assert forall k :: 0 <= k < COUNT ==> c !in vs[k];
  }

  /** The next pending creature goes into its vector; its first round is the one going on, which has
      not visited any vector yet. */
  ghost function Entered(seat: Seat, round: int): Seat {
    seat.(pending := false, joined := round)
  }

  lemma EnterKeeps(vs: Vectors, toAdd: seq<Creature>, seats: Seats, round: int)
    requires Sound(vs, toAdd, seats, round - 1, []) && toAdd != []
    ensures var c := toAdd[0];
            && c in seats && seats[c].slot < COUNT == |vs|
            && Sound(vs[seats[c].slot := vs[seats[c].slot] + [c]], toAdd[1..], seats[c := Entered(seats[c], round)], round - 1, [])
  {
    hide Rounds;
    var c := toAdd[0];
    EnterLists(vs, toAdd, seats, round);
    assert Rounds(round, round - 1, seats[c].slot) == [] by { NoRounds(round, round - 1, seats[c].slot); }
  }

  lemma EnterLists(vs: Vectors, toAdd: seq<Creature>, seats: Seats, round: int)
    requires Listed(vs, toAdd, seats) && toAdd != []
    ensures var c := toAdd[0];
            && c in seats && seats[c].pending && seats[c].slot < COUNT == |vs|
            && Listed(vs[seats[c].slot := vs[seats[c].slot] + [c]], toAdd[1..], seats[c := Entered(seats[c], round)])
  {
    hide Distinct, Listed;
    var c := toAdd[0];
    EnteringSits(vs, toAdd, seats, c);
    DistinctTail(toAdd);
    DistinctSnoc(vs[seats[c].slot], c);
    ListsEntered(vs, toAdd, seats, c, toAdd[1..], vs[seats[c].slot] + [c], round);
  }

  lemma EnteringSits(vs: Vectors, toAdd: seq<Creature>, seats: Seats, c: Creature)
    requires Listed(vs, toAdd, seats) && c in toAdd
    ensures c in seats && seats[c].pending && seats[c].slot < COUNT == |vs| && c !in vs[seats[c].slot] && Distinct(toAdd)
    ensures Distinct(vs[seats[c].slot])
  {
  }

  lemma ListsEntered(vs: Vectors, toAdd: seq<Creature>, seats: Seats, c: Creature, tail: seq<Creature>, longer: seq<Creature>, round: int)
    requires Listed(vs, toAdd, seats) && c in toAdd && c in seats && seats[c].slot < |vs| && Distinct(tail) && Distinct(longer)
    requires c !in tail && forall d :: d in toAdd <==> d == c || d in tail
    requires forall d :: d in longer <==> d == c || d in vs[seats[c].slot]
    ensures Listed(vs[seats[c].slot := longer], tail, seats[c := Entered(seats[c], round)])
  {
    hide Distinct;
  }

  /** A new round begins: the creatures of its vector are to be visited. */
  lemma RoundKeeps(vs: Vectors, toAdd: seq<Creature>, seats: Seats, round: nat)
    requires Sound(vs, toAdd, seats, round - 1, [])
    ensures Sound(vs, toAdd, seats, round, vs[round % COUNT])
    ensures Distinct(vs[round % COUNT])
  {
    hide Rounds, Distinct;
    forall c | c in seats && c !in vs[round % COUNT] && !seats[c].pending
      ensures Rounds(seats[c].joined, round, seats[c].slot) == Rounds(seats[c].joined, round - 1, seats[c].slot)
    {
      RoundsSkip(seats[c].joined, round, seats[c].slot);
    }
  }

  /** A creature that is not checked any more leaves the vector being visited. */
  lemma LeaveKeeps(vs: Vectors, toAdd: seq<Creature>, seats: Seats, round: int, k: nat, i: nat)
    requires k < |vs| && i < |vs[k]| && Sound(vs, toAdd, seats, round, vs[k][i..])
    ensures Sound(vs[k := Cut(vs[k], i)], toAdd, seats - {vs[k][i]}, round, vs[k][i + 1..])
    ensures Cut(vs[k], i)[i..] == vs[k][i + 1..] && vs[k][i] in seats && |vs| == COUNT
  {
    hide Rounds, Distinct;
    LeaveLists(vs, toAdd, seats, k, i);
    CutOut(vs[k], i);
  }

  lemma LeaveLists(vs: Vectors, toAdd: seq<Creature>, seats: Seats, k: nat, i: nat)
    requires k < |vs| && i < |vs[k]| && Listed(vs, toAdd, seats)
    ensures Listed(vs[k := Cut(vs[k], i)], toAdd, seats - {vs[k][i]})
    ensures vs[k][i] in seats && Distinct(vs[k])
  {
    hide Distinct, Cut;
    CutOut(vs[k], i);
    ListsWithout(vs, toAdd, seats, k, vs[k][i], Cut(vs[k], i));
  }

  lemma ListsWithout(vs: Vectors, toAdd: seq<Creature>, seats: Seats, k: nat, x: Creature, rest: seq<Creature>)
    requires k < |vs| && x in vs[k] && Listed(vs, toAdd, seats)
    requires Distinct(rest) && forall y :: y in rest <==> y in vs[k] && y != x
    ensures Listed(vs[k := rest], toAdd, seats - {x}) && x in seats
  {
    hide Distinct;
    assert seats[x].slot == k && !seats[x].pending;
    var vs' := vs[k := rest];
    forall j, c | 0 <= j < COUNT && c in vs'[j]
      ensures c != x && c in vs[j]
    {
      if j != k { assert c in vs[j]; }
    }
    forall c | c in seats && c != x && !seats[c].pending
      ensures c in vs'[seats[c].slot]
    {
      assert c in vs[seats[c].slot];
    }
  }

  /** A creature is visited where it sits. */
  ghost function VisitedIn(seat: Seat, round: int): Seat {
    seat.(visits := seat.visits + [round])
  }

  lemma VisitKeeps(vs: Vectors, toAdd: seq<Creature>, seats: Seats, round: nat, i: nat)
    requires round % COUNT < |vs| && i < |vs[round % COUNT]| && Sound(vs, toAdd, seats, round, vs[round % COUNT][i..])
    ensures var c := vs[round % COUNT][i];
            && c in seats && |vs| == COUNT
            && Sound(vs, toAdd, seats[c := VisitedIn(seats[c], round)], round, vs[round % COUNT][i + 1..])
  {
    hide Rounds, Distinct;
    var k := round % COUNT;
    var c := vs[k][i];
    SeatHere(vs, toAdd, seats, round, i);
    CutOut(vs[k], i);
    RoundsNext(seats[c].joined, round, k);
  }

  lemma SeatHere(vs: Vectors, toAdd: seq<Creature>, seats: Seats, round: nat, i: nat)
    requires round % COUNT < |vs| && i < |vs[round % COUNT]| && Sound(vs, toAdd, seats, round, vs[round % COUNT][i..])
    ensures var c := vs[round % COUNT][i];
            && c in seats && !seats[c].pending && seats[c].slot == round % COUNT && Distinct(vs[round % COUNT])
            && seats[c].visits == Rounds(seats[c].joined, round - 1, round % COUNT)
            && seats[c].joined <= round
  {
    var k := round % COUNT;
    assert vs[k][i] == vs[k][i..][0] && vs[k][i] in vs[k][i..];
  }

  // ---------------------------------------------------------------- the wheel

  /** What a script does; the slot is the random number drawn for a new creature. */
  datatype Action = Add(creature: Creature, isRemoved: bool, slot: nat) | Remove(creature: Creature)

  type Script = Creature -> seq<Action>

  /** The scripts behind the callbacks of one round, and what health the two loops find. */
  datatype Scripts = Scripts(onAttacking: Script, onThink: Script, onDeath: Script,
                             fights: Creature -> bool, alive: Creature -> bool, dies: Creature -> bool)

  /** A creature thinks at its visit unless it dies there. */
  predicate Thinks(scripts: Scripts, c: Creature) {
    scripts.alive(c) || !scripts.dies(c)
  }

  /** Who of a list thinks: those who are not dropped and do not die, in their order. */
  ghost function Thinkers(scripts: Scripts, list: seq<Creature>, dropped: set<Creature>): seq<Creature> {
    if list == [] then []
    else
      var last := list[|list| - 1];
      Thinkers(scripts, list[..|list| - 1], dropped) + (if last !in dropped && Thinks(scripts, last) then [last] else [])
  }

  lemma ThinkersStep(scripts: Scripts, list: seq<Creature>, j: nat, dropped: set<Creature>, dropped': set<Creature>)
    requires j < |list| && Distinct(list) && dropped <= dropped' <= dropped + {list[j]} && list[j] !in dropped
    ensures Thinkers(scripts, list[..j + 1], dropped')
            == Thinkers(scripts, list[..j], dropped) + (if list[j] !in dropped' && Thinks(scripts, list[j]) then [list[j]] else [])
  {
    assert list[..j + 1][..j] == list[..j];
    NotBefore(list, j);
    ThinkersSame(scripts, list[..j], dropped, dropped');
  }

  lemma {:induction false} ThinkersSame(scripts: Scripts, list: seq<Creature>, dropped: set<Creature>, dropped': set<Creature>)
    requires forall c :: c in list ==> (c in dropped <==> c in dropped')
    ensures Thinkers(scripts, list, dropped) == Thinkers(scripts, list, dropped')
  {
    if list != [] { ThinkersSame(scripts, list[..|list| - 1], dropped, dropped'); }
  }

  ghost predicate Known(actions: seq<Action>, creatures: set<Creature>) {
    forall a :: a in actions ==> a.creature in creatures && (a.Add? ==> a.slot < COUNT)
  }

  ghost predicate AllKnown(scripts: Scripts, creatures: set<Creature>) {
    forall c :: c in creatures ==>
      && Known(scripts.onAttacking(c), creatures)
      && Known(scripts.onThink(c), creatures)
      && Known(scripts.onDeath(c), creatures)
  }

  /** Whatever the script does to the creature, it leaves its flag as it is given. */
  ghost predicate Steady(actions: seq<Action>, c: Creature, flag: bool) {
    forall a :: a in actions && a.creature == c ==> (a.Add? <==> flag)
  }

  ghost predicate AllSteady(scripts: Scripts, creatures: set<Creature>, c: Creature, flag: bool) {
    forall d :: d in creatures ==>
      Steady(scripts.onAttacking(d), c, flag) && Steady(scripts.onThink(d), c, flag) && Steady(scripts.onDeath(d), c, flag)
  }

  /** What happens to the wheel: a round, or somebody adds or removes a creature between two rounds. */
  datatype Event = Round(scripts: Scripts) | Do(action: Action)

  ghost predicate Expected(event: Event, creatures: set<Creature>) {
    match event
    case Round(scripts) => AllKnown(scripts, creatures)
    case Do(action) => Known([action], creatures)
  }

  /** Whatever the event does to the creature, it leaves its flag as it is given. */
  ghost predicate Spares(event: Event, creatures: set<Creature>, c: Creature, flag: bool) {
    match event
    case Round(scripts) => AllSteady(scripts, creatures, c, flag)
    case Do(action) => Steady([action], c, flag)
  }

  ghost predicate LeftAlone(events: seq<Event>, creatures: set<Creature>, c: Creature, flag: bool) {
    forall e :: e in events ==> Spares(e, creatures, c, flag)
  }

  ghost function RoundCount(events: seq<Event>): nat {
    if events == [] then 0
    else RoundCount(events[..|events| - 1]) + (if events[|events| - 1].Round? then 1 else 0)
  }

  lemma CountStep(events: seq<Event>, i: nat)
    requires i < |events|
    ensures RoundCount(events[..i + 1]) == RoundCount(events[..i]) + (if events[i].Round? then 1 else 0)
    ensures events[i] in events
  {
    assert events[..i + 1][..i] == events[..i];
  }

  /** The turn of a vector has come since `from`. */
  ghost predicate Passed(slot: nat, from: nat, round: nat) {
    exists t :: from < t <= round && t % COUNT == slot
  }

  lemma PassedStep(slot: nat, from: nat, round: nat)
    requires from <= round
    ensures Passed(slot, from, round + 1) <==> Passed(slot, from, round) || (round + 1) % COUNT == slot
  {
    if (round + 1) % COUNT == slot {
      assert from < round + 1;
    }
  }

  /** Nobody among the seated has missed a visit. */
  ghost predicate SeatsKept(seats: Seats, round: int) {
    forall c :: c in seats ==>
      && seats[c].slot < COUNT
      && seats[c].visits == (if seats[c].pending then [] else Rounds(seats[c].joined, round, seats[c].slot))
      && (!seats[c].pending ==> seats[c].joined <= round + 1)
  }

  class Wheel {
    var checkCreatureVectors: Vectors
    var toAddCheckCreatureVector: seq<Creature>
    var checkCreatureLastIndex: nat
    ghost var creatures: set<Creature>
    ghost var others: map<Creature, nat>
    ghost var round: nat
    ghost var seats: Seats
    ghost var thoughts: seq<Creature>

    constructor ()
      ensures Valid() && creatures == {} && seats == map[] && round == 0 && thoughts == []
    {
      checkCreatureVectors := [[], [], [], [], [], [], [], [], [], []];
      toAddCheckCreatureVector, checkCreatureLastIndex := [], 0;
      creatures, others, round, seats, thoughts := {}, map[], 0, map[], [];
    }

    /** The number of the vector is kept in the creature just while it is in the wheel, which then
        holds one reference; only what is in the wheel is checked. */
    ghost predicate Marked()
      reads this`creatures, this`others, this`seats, creatures
    {
      && seats.Keys <= creatures == others.Keys
      && forall c :: c in creatures ==>
           && c.checkVector == (if c in seats then seats[c].slot else -1)
           && (c.checked ==> c in seats)
           && c.refs == others[c] + (if c in seats then 1 else 0)
    }

    ghost predicate Ready(at: int, todo: seq<Creature>)
      reads this, creatures
    {
      Sound(checkCreatureVectors, toAddCheckCreatureVector, seats, at, todo) && Marked()
    }

    /** The invariant between events. */
    ghost predicate Valid()
      reads this, creatures
    {
      Ready(round, []) && checkCreatureLastIndex == round % COUNT
    }

    ghost method Meet(creature: Creature)
      requires Valid() && creature !in creatures && creature.checkVector == -1 && !creature.checked
      modifies this`creatures, this`others
      ensures Valid() && creatures == old(creatures) + {creature}
    {
      hide Sound;
      creatures, others := creatures + {creature}, others[creature := creature.refs];
    }

    /** Those seated before sit as they did, and those who have come are pending. */
    twostate predicate Kept()
      reads this`seats
    {
      && (forall c :: c in old(seats) ==> c in seats && seats[c] == old(seats)[c])
      && (forall c :: c in seats && c !in old(seats) ==> seats[c].pending && seats[c].visits == [])
    }

    /** No flag changed that the scripts leave alone. */
    twostate predicate Steadfast(scripts: Scripts)
      reads this`creatures, creatures
    {
      old(creatures) == creatures &&
      forall c :: c in old(creatures) && AllSteady(scripts, creatures, c, old(c.checked)) ==> c.checked == old(c.checked)
    }

    /** Game::addCreatureCheck */
    method AddCreatureCheck(creature: Creature, isRemoved: bool, slot: nat, ghost at: int, ghost todo: seq<Creature>)
      requires Ready(at, todo) && creature in creatures && slot < COUNT
      modifies this`toAddCheckCreatureVector, this`seats, creature
      ensures Ready(at, todo)
      ensures isRemoved || creature in old(seats) ==> seats == old(seats) && toAddCheckCreatureVector == old(toAddCheckCreatureVector)
      ensures !isRemoved && creature !in old(seats) ==>
                && seats == old(seats)[creature := Seat(slot, true, at, [])]
                && toAddCheckCreatureVector == old(toAddCheckCreatureVector) + [creature]
      ensures creature.checked == (old(creature.checked) || !isRemoved)
    {
      hide Sound;
      if isRemoved {
        return;
      }
      creature.checked := true;
      if creature.checkVector >= 0 {
        return;
      }
      AddKeeps(checkCreatureVectors, toAddCheckCreatureVector, seats, at, todo, creature, slot);
      toAddCheckCreatureVector := toAddCheckCreatureVector + [creature];
      creature.checkVector := slot;
      creature.refs := creature.refs + 1;
      seats := seats[creature := Seat(slot, true, at, [])];
    }

    /** Game::removeCreatureCheck: the creature leaves the wheel only at its next visit. */
    method RemoveCreatureCheck(creature: Creature)
      requires Marked() && creature in creatures
      modifies creature`checked
      ensures Marked() && !creature.checked
    {
      if creature.checkVector == -1 {
        return;
      }
      creature.checked := false;
    }

    /** A callback's script. */
    method RunScript(actions: seq<Action>, ghost at: int, ghost todo: seq<Creature>)
      requires Ready(at, todo) && Known(actions, creatures)
      modifies this`toAddCheckCreatureVector, this`seats, creatures
      ensures Ready(at, todo) && Kept()
      ensures forall c :: c in creatures && Steady(actions, c, old(c.checked)) ==> c.checked == old(c.checked)
    {
      hide Sound;
      for i := 0 to |actions|
        invariant Ready(at, todo) && Kept()
        invariant forall c :: c in creatures && Steady(actions, c, old(c.checked)) ==> c.checked == old(c.checked)
      {
        assert actions[i] in actions;
        match actions[i] {
          case Add(creature, isRemoved, slot) => AddCreatureCheck(creature, isRemoved, slot, at, todo);
          case Remove(creature) => RemoveCreatureCheck(creature);
        }
      }
    }

    /** The attacks of the creatures in one of the other vectors. */
    method Attack(creatureVector: seq<Creature>, scripts: Scripts)
      requires Ready(round - 1, []) && round > 0 && AllKnown(scripts, creatures) && forall c :: c in creatureVector ==> c in creatures
      modifies this`toAddCheckCreatureVector, this`seats, creatures
      ensures Ready(round - 1, []) && Kept() && Steadfast(scripts)
    {
      hide Sound, Known, Steady;
      for i := 0 to |creatureVector|
        invariant Ready(round - 1, []) && Kept() && Steadfast(scripts)
      {
        if creatureVector[i].checked && scripts.fights(creatureVector[i]) {
          RunScript(scripts.onAttacking(creatureVector[i]), round - 1, []);
        }
      }
    }

    method AttackAll(scripts: Scripts)
      requires Ready(round - 1, []) && round > 0 && AllKnown(scripts, creatures)
      modifies this`toAddCheckCreatureVector, this`seats, creatures
      ensures Ready(round - 1, []) && Kept() && Steadfast(scripts)
    {
      hide Sound, Known, AllKnown, AllSteady;
      VectorsKnown(checkCreatureVectors, toAddCheckCreatureVector, seats, round - 1);
      for i := 0 to COUNT
        invariant Ready(round - 1, []) && Kept() && Steadfast(scripts)
      {
        if i != checkCreatureLastIndex {
          Attack(checkCreatureVectors[i], scripts);
        }
      }
    }

    /** The pending creatures go into their vectors. */
    method EnterAll()
      requires Ready(round - 1, []) && round > 0
      modifies this`checkCreatureVectors, this`toAddCheckCreatureVector, this`seats
      ensures Ready(round - 1, []) && toAddCheckCreatureVector == [] && seats.Keys == old(seats.Keys)
      ensures forall c :: c in seats ==>
                seats[c] == if old(seats[c].pending) then Entered(old(seats[c]), round) else old(seats[c])
    {
      hide Sound, Entered, Marked;
      var i := 0;
      assert toAddCheckCreatureVector[0..] == toAddCheckCreatureVector;
      PendingAre(checkCreatureVectors, toAddCheckCreatureVector, seats, round - 1);
      while i < |toAddCheckCreatureVector|
        invariant i <= |toAddCheckCreatureVector| && Marked() && toAddCheckCreatureVector == old(toAddCheckCreatureVector)
        invariant Sound(checkCreatureVectors, toAddCheckCreatureVector[i..], seats, round - 1, [])
        invariant seats.Keys == old(seats.Keys)
        invariant forall c :: c in seats ==>
                    seats[c] == if c in toAddCheckCreatureVector[..i] then Entered(old(seats[c]), round) else old(seats[c])
      {
        ghost var rest := toAddCheckCreatureVector[i..];
        assert rest[0] == toAddCheckCreatureVector[i] && rest[1..] == toAddCheckCreatureVector[i + 1..];
        assert toAddCheckCreatureVector[..i + 1] == toAddCheckCreatureVector[..i] + [toAddCheckCreatureVector[i]];
        NotBefore(toAddCheckCreatureVector, i);
        EnterOne(toAddCheckCreatureVector[i], rest);
        i := i + 1;
      }
      assert toAddCheckCreatureVector[..i] == toAddCheckCreatureVector && toAddCheckCreatureVector[i..] == [];
      toAddCheckCreatureVector := [];
    }

    method EnterOne(creature: Creature, ghost rest: seq<Creature>)
      requires Marked() && Sound(checkCreatureVectors, rest, seats, round - 1, []) && rest != [] && creature == rest[0]
      modifies this`checkCreatureVectors, this`seats
      ensures Marked() && Sound(checkCreatureVectors, rest[1..], seats, round - 1, [])
      ensures creature in old(seats) && seats == old(seats)[creature := Entered(old(seats[creature]), round)]
    {
      hide Sound;
      EnterKeeps(checkCreatureVectors, rest, seats, round);
      var k := creature.checkVector;
      checkCreatureVectors := checkCreatureVectors[k := checkCreatureVectors[k] + [creature]];
      seats := seats[creature := Entered(seats[creature], round)];
    }

    /** What one visit did: a checked creature has one more round in its record, any other is out. */
    twostate predicate Fared(creature: Creature, was: bool)
      reads this`seats, this`round, creature
    {
      && creature in old(seats)
      && (forall c :: c in old(seats) && c != creature ==> c in seats && seats[c] == old(seats)[c])
      && (forall c :: c in seats && c !in old(seats) ==> seats[c].pending)
      && if was then creature in seats && seats[creature] == VisitedIn(old(seats)[creature], round)
         else creature !in seats && creature.checkVector == -1 && !creature.checked
    }

    /** One round of the last loop of checkCreatures. */
    method VisitNext(it: nat, scripts: Scripts) returns (next: nat)
      requires checkCreatureLastIndex == round % COUNT < |checkCreatureVectors|
      requires it < |checkCreatureVectors[checkCreatureLastIndex]| && AllKnown(scripts, creatures)
      requires Ready(round, checkCreatureVectors[checkCreatureLastIndex][it..])
      modifies this`checkCreatureVectors, this`toAddCheckCreatureVector, this`seats, this`thoughts, creatures
      ensures var c := old(checkCreatureVectors[checkCreatureLastIndex][it]);
              thoughts == old(thoughts) + (if old(checkCreatureVectors[checkCreatureLastIndex][it].checked) && Thinks(scripts, c) then [c] else [])
      ensures |checkCreatureVectors| == COUNT && next <= |checkCreatureVectors[checkCreatureLastIndex]|
      ensures checkCreatureVectors[checkCreatureLastIndex][next..] == old(checkCreatureVectors[checkCreatureLastIndex])[it + 1..]
      ensures Ready(round, checkCreatureVectors[checkCreatureLastIndex][next..])
      ensures old(checkCreatureVectors[checkCreatureLastIndex][it]) in creatures
      ensures Fared(old(checkCreatureVectors[checkCreatureLastIndex][it]), old(checkCreatureVectors[checkCreatureLastIndex][it].checked))
      ensures Steadfast(scripts)
    {
      hide Sound, Known, AllSteady;
      var k := checkCreatureLastIndex;
      var creature := checkCreatureVectors[k][it];
      ghost var rest := checkCreatureVectors[k][it + 1..];
      VisitKeeps(checkCreatureVectors, toAddCheckCreatureVector, seats, round, it);
      if creature.checked {
        Think(creature, scripts, rest);
        return it + 1;
      }
      LeaveKeeps(checkCreatureVectors, toAddCheckCreatureVector, seats, round, k, it);
      Drop(creature, k, it);
      return it;
    }

    /** The visit of a creature: its death and thought callbacks, either of which may add and remove
        creatures. */
    method Think(creature: Creature, scripts: Scripts, ghost rest: seq<Creature>)
      requires Marked() && creature in seats && AllKnown(scripts, creatures)
      requires Sound(checkCreatureVectors, toAddCheckCreatureVector, seats[creature := VisitedIn(seats[creature], round)], round, rest)
      modifies this`toAddCheckCreatureVector, this`seats, this`thoughts, creatures
      ensures Ready(round, rest) && Steadfast(scripts)
      ensures thoughts == old(thoughts) + (if Thinks(scripts, creature) then [creature] else [])
      ensures creature in seats && seats[creature] == VisitedIn(old(seats[creature]), round)
      ensures forall c :: c in old(seats) && c != creature ==> c in seats && seats[c] == old(seats)[c]
      ensures forall c :: c in seats && c !in old(seats) ==> seats[c].pending
    {
      hide Sound, Known, AllSteady;
      seats := seats[creature := VisitedIn(seats[creature], round)];
      Call(creature, scripts, rest);
    }

    method Call(creature: Creature, scripts: Scripts, ghost rest: seq<Creature>)
      requires Ready(round, rest) && creature in creatures && AllKnown(scripts, creatures)
      modifies this`toAddCheckCreatureVector, this`seats, this`thoughts, creatures
      ensures Ready(round, rest) && Kept() && Steadfast(scripts)
      ensures thoughts == old(thoughts) + (if Thinks(scripts, creature) then [creature] else [])
    {
      hide Sound, Known, Steady;
      if !scripts.alive(creature) {
        RunScript(scripts.onDeath(creature), round, rest);
      }
      if scripts.alive(creature) || !scripts.dies(creature) {
        OnThink(creature, scripts, rest);
      }
    }

    /** The creature's thought, which may add and remove creatures. */
    method OnThink(creature: Creature, scripts: Scripts, ghost rest: seq<Creature>)
      requires Ready(round, rest) && creature in creatures && AllKnown(scripts, creatures)
      modifies this`toAddCheckCreatureVector, this`seats, this`thoughts, creatures
      ensures Ready(round, rest) && Kept() && thoughts == old(thoughts) + [creature]
      ensures forall c :: c in creatures && Steady(scripts.onThink(creature), c, old(c.checked)) ==> c.checked == old(c.checked)
    {
      hide Sound, Steady;
      RunScript(scripts.onThink(creature), round, rest);
      thoughts := thoughts + [creature];
    }

    method Drop(creature: Creature, k: nat, it: nat)
      requires Marked() && creature in seats && !creature.checked
      requires k < |checkCreatureVectors| && it < |checkCreatureVectors[k]|
      modifies this`checkCreatureVectors, this`seats, creature`checkVector, creature`refs
      ensures Marked() && seats == old(seats) - {creature} && creature.checkVector == -1
      ensures checkCreatureVectors == old(checkCreatureVectors)[k := Cut(old(checkCreatureVectors[k]), it)]
    {
      creature.checkVector := -1;
      creature.refs := creature.refs - 1;
      checkCreatureVectors := checkCreatureVectors[k := checkCreatureVectors[k][..it] + checkCreatureVectors[k][it + 1..]];
      seats := seats - {creature};
    }

    /** The last loop of checkCreatures: `list` is the vector as it was, `j` of its creatures had
        their turn, and those among them that were not checked any more are the `dropped` ones. */
    ghost predicate Visiting(start: Seats, list: seq<Creature>, j: nat, dropped: set<Creature>)
      reads this`seats, this`round
    {
      && j <= |list| && Distinct(list) && (forall c :: c in list ==> c in start)
      && (forall c :: c in dropped ==> c in list[..j])
      && (forall c :: c in start && c !in dropped ==>
            c in seats && seats[c] == if c in list[..j] then VisitedIn(start[c], round) else start[c])
    }

    /** A seat after a round in which it was not given up. */
    ghost predicate SameSeat(before: Seat, after: Seat)
      reads this`round
    {
      after.slot == before.slot && !after.pending && after.joined == (if before.pending then round else before.joined)
    }

    /** Game::checkCreatures.  Only creatures found unchecked at their turn lose their seats, and
        everybody else is visited when it is his turn, and thinks just once unless he dies. */
    method CheckCreatures(scripts: Scripts) returns (ghost dropped: set<Creature>, ghost list: seq<Creature>)
      requires Valid() && AllKnown(scripts, creatures)
      modifies this`checkCreatureVectors, this`toAddCheckCreatureVector, this`checkCreatureLastIndex, this`round
      modifies this`seats, this`thoughts, creatures
      ensures Distinct(list) && forall c :: c in old(seats) ==> (c in list <==> old(seats[c]).slot == round % COUNT)
      ensures thoughts == old(thoughts) + Thinkers(scripts, list, dropped)
      ensures Valid() && round == old(round) + 1
      ensures forall c :: c in old(seats) && c !in dropped ==> c in seats && SameSeat(old(seats)[c], seats[c])
      ensures Steadfast(scripts)
      ensures forall c :: c in old(seats) && AllSteady(scripts, creatures, c, old(c.checked)) ==>
                (c in dropped <==> !old(c.checked) && old(seats[c]).slot == round % COUNT)
    {
      hide Sound, Known, AllKnown, AllSteady, Marked;
      SeatsKnown();
      checkCreatureLastIndex := checkCreatureLastIndex + 1;
      if checkCreatureLastIndex == COUNT {
        checkCreatureLastIndex := 0;
      }
      round := round + 1;
      AttackAll(scripts);
      EnterAll();
      dropped, list := VisitAll(scripts);
    }

    /** The flags that the scripts leave alone are as they were at the start of the loop, and decided
        who of those visited was dropped. */
    ghost predicate Decided(scripts: Scripts, flags: map<Creature, bool>, visited: seq<Creature>, dropped: set<Creature>)
      reads this`creatures, creatures
    {
      && flags.Keys == creatures
      && (forall c :: c in creatures && AllSteady(scripts, creatures, c, flags[c]) ==> c.checked == flags[c])
      && (forall c :: c in visited ==> c in creatures && (AllSteady(scripts, creatures, c, flags[c]) ==> (c in dropped <==> !flags[c])))
    }

    method VisitOne(it: nat, scripts: Scripts, ghost start: Seats, ghost flags: map<Creature, bool>,
                    ghost list: seq<Creature>, ghost j: nat, ghost dropped: set<Creature>)
      returns (next: nat, ghost dropped': set<Creature>)
      requires checkCreatureLastIndex == round % COUNT < |checkCreatureVectors|
      requires it < |checkCreatureVectors[checkCreatureLastIndex]| && AllKnown(scripts, creatures) && j < |list|
      requires checkCreatureVectors[checkCreatureLastIndex][it..] == list[j..] && Ready(round, list[j..])
      requires Visiting(start, list, j, dropped) && Decided(scripts, flags, list[..j], dropped)
      modifies this`checkCreatureVectors, this`toAddCheckCreatureVector, this`seats, this`thoughts, creatures
      ensures list[j] !in dropped && dropped <= dropped' <= dropped + {list[j]}
      ensures thoughts == old(thoughts) + (if list[j] !in dropped' && Thinks(scripts, list[j]) then [list[j]] else [])
      ensures |checkCreatureVectors| == COUNT && next <= |checkCreatureVectors[checkCreatureLastIndex]|
      ensures checkCreatureVectors[checkCreatureLastIndex][next..] == list[j + 1..] && Ready(round, list[j + 1..])
      ensures Visiting(start, list, j + 1, dropped') && Decided(scripts, flags, list[..j + 1], dropped')
    {
      hide Sound, Known, AllKnown, AllSteady, Marked;
      ghost var creature := list[j];
      assert list[j..][0] == creature && list[j..][1..] == list[j + 1..] && list[..j + 1] == list[..j] + [creature];
      assert checkCreatureVectors[checkCreatureLastIndex][it] == creature;
      assert checkCreatureVectors[checkCreatureLastIndex][it..][1..] == checkCreatureVectors[checkCreatureLastIndex][it + 1..];
      NotBefore(list, j);
      dropped' := if creature.checked then dropped else dropped + {creature};
      next := VisitNext(it, scripts);
    }

    method VisitStep(it: nat, scripts: Scripts, ghost start: Seats, ghost flags: map<Creature, bool>,
                     ghost list: seq<Creature>, ghost j: nat, ghost dropped: set<Creature>, ghost thought: seq<Creature>)
      returns (next: nat, ghost dropped': set<Creature>)
      requires checkCreatureLastIndex == round % COUNT < |checkCreatureVectors|
      requires it < |checkCreatureVectors[checkCreatureLastIndex]| && AllKnown(scripts, creatures) && j < |list|
      requires checkCreatureVectors[checkCreatureLastIndex][it..] == list[j..] && Ready(round, list[j..])
      requires Visiting(start, list, j, dropped) && Decided(scripts, flags, list[..j], dropped)
      requires thoughts == thought + Thinkers(scripts, list[..j], dropped)
      modifies this`checkCreatureVectors, this`toAddCheckCreatureVector, this`seats, this`thoughts, creatures
      ensures thoughts == thought + Thinkers(scripts, list[..j + 1], dropped')
      ensures |checkCreatureVectors| == COUNT && next <= |checkCreatureVectors[checkCreatureLastIndex]|
      ensures checkCreatureVectors[checkCreatureLastIndex][next..] == list[j + 1..] && Ready(round, list[j + 1..])
      ensures Visiting(start, list, j + 1, dropped') && Decided(scripts, flags, list[..j + 1], dropped')
    {
      hide Sound, Known, AllKnown, AllSteady, Marked, Visiting, Decided, Thinkers, Thinks, Ready;
      VisitingDistinct(start, list, j, dropped);
      next, dropped' := VisitOne(it, scripts, start, flags, list, j, dropped);
      ThinkersStep(scripts, list, j, dropped, dropped');
    }

    lemma VisitingDistinct(start: Seats, list: seq<Creature>, j: nat, dropped: set<Creature>)
      requires Visiting(start, list, j, dropped)
      ensures Distinct(list)
    {
    }

    method VisitAll(scripts: Scripts) returns (ghost dropped: set<Creature>, ghost list: seq<Creature>)
      requires Ready(round - 1, []) && AllKnown(scripts, creatures) && checkCreatureLastIndex == round % COUNT
      requires toAddCheckCreatureVector == []
      modifies this`checkCreatureVectors, this`toAddCheckCreatureVector, this`seats, this`thoughts, creatures
      ensures Distinct(list) && forall c :: c in old(seats) ==> (c in list <==> old(seats[c]).slot == round % COUNT)
      ensures thoughts == old(thoughts) + Thinkers(scripts, list, dropped)
      ensures Valid() && Steadfast(scripts)
      ensures forall c :: c in old(seats) && c !in dropped ==>
                c in seats && seats[c].(visits := []) == old(seats[c]).(visits := [])
      ensures forall c :: c in old(seats) && AllSteady(scripts, creatures, c, old(c.checked)) ==>
                (c in dropped <==> !old(c.checked) && old(seats[c]).slot == round % COUNT)
    {
      hide Sound, Known, AllKnown, AllSteady, Marked, Distinct;
      SeatsKnown();
      VectorsKnown(checkCreatureVectors, toAddCheckCreatureVector, seats, round - 1);
      RoundKeeps(checkCreatureVectors, toAddCheckCreatureVector, seats, round);
      var k := checkCreatureLastIndex;
      list := checkCreatureVectors[k];
      ghost var start, j: nat := seats, 0;
      ghost var flags := map c | c in creatures :: c.checked;
      assert list[0..] == list && list[..0] == [] && Thinkers(scripts, [], {}) == [];
      dropped := {};
      var it: nat := 0;
      while it < |checkCreatureVectors[k]|
        invariant |checkCreatureVectors| == COUNT && it <= |checkCreatureVectors[k]| && j <= |list|
        invariant checkCreatureVectors[k][it..] == list[j..] && Ready(round, list[j..])
        invariant Visiting(start, list, j, dropped) && Decided(scripts, flags, list[..j], dropped)
        invariant thoughts == old(thoughts) + Thinkers(scripts, list[..j], dropped)
        decreases |list| - j
      {
        assert |list[j..]| == |list| - j;
        it, dropped := VisitStep(it, scripts, start, flags, list, j, dropped, old(thoughts));
        j := j + 1;
      }
      assert |checkCreatureVectors[k][it..]| == 0 == |list[j..]| == |list| - j;
      assert list[j..] == [] && list[..j] == list;
    }

    lemma SeatsKnown()
      requires Marked()
      ensures seats.Keys <= creatures == others.Keys
    {
    }

    /** One event.  A round may drop creatures; a creature whose flag nobody touches loses its seat
        exactly in the round of its vector, if it is not checked. */
    method Perform(event: Event) returns (ghost dropped: set<Creature>)
      requires Valid() && Expected(event, creatures)
      modifies this`checkCreatureVectors, this`toAddCheckCreatureVector, this`checkCreatureLastIndex, this`round
      modifies this`seats, this`thoughts, creatures
      ensures Valid() && round == old(round) + (if event.Round? then 1 else 0) && creatures == old(creatures)
      ensures forall c :: c in old(seats) && c !in dropped ==>
                c in seats && if event.Round? then SameSeat(old(seats)[c], seats[c]) else seats[c] == old(seats)[c]
      ensures forall c :: c in creatures && Spares(event, creatures, c, old(c.checked)) ==> c.checked == old(c.checked)
      ensures forall c :: c in old(seats) && Spares(event, creatures, c, old(c.checked)) ==>
                (c in dropped <==> event.Round? && !old(c.checked) && old(seats[c]).slot == round % COUNT)
    {
      hide Sound, AllKnown, AllSteady;
      SeatsKnown();
      match event {
        case Round(scripts) =>
          ghost var list;
          dropped, list := CheckCreatures(scripts);
        case Do(action) =>
          dropped := {};
          assert action in [action];
          RunScript([action], round, []);
      }
    }

    /** Where a seat stands after `n` rounds since `from`. */
    ghost predicate Onward(before: Seat, after: Seat, from: nat, n: nat) {
      && after.slot == before.slot
      && if before.pending && n == 0 then after == before
         else !after.pending && after.joined == (if before.pending then from + 1 else before.joined)
    }

    /** In the middle of a turn that began with `start` after round `from`: how the seats that were kept
        stand, and whose were lost among the creatures whose flags nobody touches. */
    ghost predicate Underway(start: Seats, flags: map<Creature, bool>, events: seq<Event>, from: nat, dropped: set<Creature>)
      reads this`creatures, this`seats, this`round, creatures
    {
      && start.Keys <= creatures == flags.Keys && from <= round
      && (forall c :: c in start && c !in dropped ==> c in seats && Onward(start[c], seats[c], from, round - from))
      && forall c :: c in start && LeftAlone(events, creatures, c, flags[c]) ==>
           c.checked == flags[c] && (c in dropped <==> !flags[c] && Passed(start[c].slot, from, round))
    }

    method TurnStep(event: Event, ghost start: Seats, ghost flags: map<Creature, bool>, ghost events: seq<Event>,
                    ghost from: nat, ghost dropped: set<Creature>)
      returns (ghost dropped': set<Creature>)
      requires Valid() && Expected(event, creatures) && event in events
      requires Underway(start, flags, events, from, dropped)
      modifies this`checkCreatureVectors, this`toAddCheckCreatureVector, this`checkCreatureLastIndex, this`round
      modifies this`seats, this`thoughts, creatures
      ensures Valid() && round == old(round) + (if event.Round? then 1 else 0) && creatures == old(creatures)
      ensures Underway(start, flags, events, from, dropped')
    {
      hide Sound, Expected, Spares, Marked;
      ghost var gone := Perform(event);
      dropped' := dropped + gone;
      forall c | c in start && LeftAlone(events, creatures, c, flags[c])
        ensures c.checked == flags[c] && (c in dropped' <==> !flags[c] && Passed(start[c].slot, from, round))
      {
        assert Spares(event, creatures, c, flags[c]);
        PassedStep(start[c].slot, from, old(round));
      }
    }

    lemma TurnEnds(start: Seats, flags: map<Creature, bool>, events: seq<Event>, from: nat, dropped: set<Creature>)
      requires Valid() && Underway(start, flags, events, from, dropped) && round == from + COUNT
      requires SeatsKept(start, from)
      ensures forall c :: c in start && c !in dropped ==> c in seats && OneMore(start[c], seats[c], from)
      ensures forall c :: c in start && LeftAlone(events, creatures, c, flags[c]) ==>
                c.checked == flags[c] && (c in dropped <==> !flags[c])
    {
      hide Sound, Spares, Marked, OneMore, LeftAlone, Rounds;
      SeatsOnTurn(checkCreatureVectors, toAddCheckCreatureVector, seats, round);
      forall c | c in start
        ensures c !in dropped ==> OneMore(start[c], seats[c], from)
        ensures Passed(start[c].slot, from, round)
      {
        OncePerTurn(from + 1, start[c].slot);
        if c !in dropped { TurnVisits(start[c], seats[c], from); }
      }
    }

    lemma TurnBegins(events: seq<Event>)
      requires Valid()
      ensures SeatsKept(seats, round)
      ensures Underway(seats, map c | c in creatures :: c.checked, events, round, {})
    {
      hide Sound, Spares;
      SeatsKnown();
      SeatsOnTurn(checkCreatureVectors, toAddCheckCreatureVector, seats, round);
    }

    /** Any events with ten rounds among them: who keeps his seat, pending at first or not, has been
        visited exactly once, in the round that belongs to his vector; who is checked and left alone
        keeps it, and who is unchecked and left alone loses it. */
    method Turn(events: seq<Event>) returns (ghost dropped: set<Creature>)
      requires Valid() && RoundCount(events) == COUNT && forall e :: e in events ==> Expected(e, creatures)
      modifies this`checkCreatureVectors, this`toAddCheckCreatureVector, this`checkCreatureLastIndex, this`round
      modifies this`seats, this`thoughts, creatures
      ensures Valid() && round == old(round) + COUNT
      ensures forall c :: c in old(seats) && c !in dropped ==> c in seats && OneMore(old(seats[c]), seats[c], old(round))
      ensures forall c :: c in old(seats) && LeftAlone(events, creatures, c, old(c.checked)) ==>
                c.checked == old(c.checked) && (c in dropped <==> !old(c.checked))
    {
      hide Valid, Expected, LeftAlone, Underway, OneMore;
      ghost var flags, start, from := map c | c in creatures :: c.checked, seats, round;
      TurnBegins(events);
      SeatsInside();
      dropped := {};
      assert events[..0] == [];
      for i := 0 to |events|
        invariant Valid() && round == from + RoundCount(events[..i]) && creatures == old(creatures)
        invariant Underway(start, flags, events, from, dropped)
      {
        CountStep(events, i);
        dropped := TurnStep(events[i], start, flags, events, from, dropped);
      }
      assert events[..|events|] == events;
      TurnEnds(start, flags, events, from, dropped);
    }

    lemma SeatsInside()
      requires Valid()
      ensures seats.Keys <= creatures
    {
      SeatsKnown();
    }
  }

  /** One visit was added to the record, in one of the ten rounds after `from`. */
  ghost predicate OneMore(before: Seat, after: Seat, from: nat) {
    exists t :: from < t <= from + COUNT && t % COUNT == before.slot && after.visits == before.visits + [t]
  }

  lemma TurnVisits(before: Seat, after: Seat, from: nat)
    requires before.slot == after.slot < COUNT && after.joined == if before.pending then from + 1 else before.joined
    requires after.joined <= from + 1
    requires before.visits == if before.pending then [] else Rounds(before.joined, from, before.slot)
    requires after.visits == Rounds(after.joined, from + COUNT, after.slot)
    ensures OneMore(before, after, from)
  {
    RoundsSplit(after.joined, from, from + COUNT, before.slot);
    OncePerTurn(from + 1, before.slot);
    var t :| from < t <= from + COUNT && t % COUNT == before.slot && Rounds(from + 1, from + COUNT, before.slot) == [t];
    if before.pending { NoRounds(from + 1, from, before.slot); }
  }

  lemma SeatsOnTurn(vs: Vectors, toAdd: seq<Creature>, seats: Seats, round: int)
    requires Sound(vs, toAdd, seats, round, [])
    ensures SeatsKept(seats, round)
  {
  }

  lemma VectorsKnown(vs: Vectors, toAdd: seq<Creature>, seats: Seats, at: int)
    requires Sound(vs, toAdd, seats, at, [])
    ensures |vs| == COUNT && forall k, c :: 0 <= k < COUNT && c in vs[k] ==> c in seats && seats[c].slot == k
    ensures toAdd == [] ==> forall c :: c in seats ==> seats[c].slot < COUNT && c in vs[seats[c].slot]
  {
  }

  lemma PendingAre(vs: Vectors, toAdd: seq<Creature>, seats: Seats, at: int)
    requires Sound(vs, toAdd, seats, at, [])
    ensures Distinct(toAdd) && forall c :: c in toAdd <==> c in seats && seats[c].pending
  {
  }
}
