/** The decay wheel: four buckets visited in turn, every 250 milliseconds one of them. */
module DecayWheel {
  import opened Sequences

  const INTERVAL := 250
  const BUCKETS := 4

  /** decayTo is -1 for items that never decay and 0 for items that vanish; decayTime in seconds. */
  datatype ItemType = ItemType(decayTo: int, decayTime: nat)

  type Catalogue = nat -> ItemType

  class Item {
    const id: nat
    var duration: int
    var decaying: bool
    var removed: bool

    /** A new item has the whole duration of its kind. */
    constructor (id: nat, types: Catalogue)
      ensures this.id == id && duration == types(id).decayTime * 1000 && !decaying && !removed
    {
      this.id, duration, decaying, removed := id, types(id).decayTime * 1000, false, false;
    }

    predicate CanDecay(types: Catalogue)
      reads this
    {
      !removed && types(id).decayTo >= 0 && types(id).decayTime != 0
    }
  }

  // ---------------------------------------------------------------- when an item expires

  /** The ticks from one visit of an item with duration `d` to its end, when that visit takes the
      first second off it. */
  function Extra(d: int): nat {
    if d < 1000 then 0 else 4 * (d / 1000 - 1) + (if d % 1000 >= 875 then 1 else 0)
  }

  /** The ticks from entering the wheel with duration `d` to the end. */
  function Ticks(d: int): nat {
    if d < 1000 then 1 else 4 + Extra(d)
  }

  /** The wheel's time is never late, and less than 875 milliseconds early; an item with less than a
      second left goes with the next tick. */
  lemma TicksBound(d: int)
    requires d > 0
    ensures d >= 1000 ==> d - 875 < INTERVAL * Ticks(d) <= d
    ensures d < 1000 ==> Ticks(d) == 1
  {
    if d >= 1000 {
      var q, r := d / 1000, d % 1000;
      assert INTERVAL * Ticks(d) == 1000 * q + (if r >= 875 then INTERVAL else 0);
    }
  }

  /** The next tick after `tick` that visits a bucket. */
  function Next(tick: nat, bucket: nat): nat
    requires bucket < BUCKETS
  {
    tick + 1 + (bucket + BUCKETS - (tick + 1) % BUCKETS) % BUCKETS
  }

  lemma NextVisits(tick: nat, bucket: nat)
    requires bucket < BUCKETS
    ensures tick < Next(tick, bucket) <= tick + BUCKETS && Next(tick, bucket) % BUCKETS == bucket
    ensures Next(tick, bucket) == (if (tick + 1) % BUCKETS == bucket then tick + 1 else Next(tick + 1, bucket))
    ensures tick % BUCKETS == bucket ==> Next(tick, bucket) == tick + BUCKETS
  {
  }

  /** One visit: what is left of the duration, and how that changes the ticks to go. */
  lemma VisitKeepsTime(d: int)
    requires d > 0
    ensures var left := d - (if d < 1000 then d else 1000);
            && (left <= 0 ==> Extra(d) == 0)
            && (0 < left < 1000 ==> (left + INTERVAL / 2) / 1000 == Extra(d) <= 1)
            && (left >= 1000 ==> Extra(d) == BUCKETS + Extra(left))
  {
  }

  // ---------------------------------------------------------------- the invariant on lists

  /** When an item entered a bucket, and with which duration. */
  datatype Entry = Entry(tick: nat, duration: int)
  {
    function Due(): nat { tick + Ticks(duration) }
  }

  /** An item in the wheel: its bucket (BUCKETS while it is pending), and what is left. */
  datatype Rider = Rider(place: nat, left: int, entry: Entry)

  type Riders = map<Item, Rider>
  type Lists = seq<seq<Item>>

  /** Every rider is in exactly one bucket or in the pending list, once, and nothing else is. */
  ghost predicate Listed(bs: Lists, pending: seq<Item>, rs: Riders) {
    && |bs| == BUCKETS && Distinct(pending) && (forall b :: 0 <= b < BUCKETS ==> Distinct(bs[b]))
    && (forall x :: x in pending ==> x in rs && rs[x].place == BUCKETS)
    && (forall b, x :: 0 <= b < BUCKETS && x in bs[b] ==> x in rs && rs[x].place == b)
    && (forall x :: x in rs ==> rs[x].place <= BUCKETS && x in (if rs[x].place < BUCKETS then bs[rs[x].place] else pending))
  }

  /** Every item in a bucket has time left and is on its way to expire when it is due; those in
      `todo` are to be visited in the tick that is going on. */
  ghost predicate OnTime(rs: Riders, tick: nat, todo: seq<Item>) {
    && (forall x :: x in rs ==> rs[x].left > 0)
    && (forall x :: x in rs && rs[x].place < BUCKETS ==>
          rs[x].entry.Due() == (if x in todo then tick else Next(tick, rs[x].place)) + Extra(rs[x].left))
  }

  ghost predicate Sound(bs: Lists, pending: seq<Item>, rs: Riders, tick: nat, todo: seq<Item>) {
    Listed(bs, pending, rs) && OnTime(rs, tick, todo)
  }

  lemma PendKeeps(bs: Lists, pending: seq<Item>, rs: Riders, tick: nat, todo: seq<Item>, x: Item, e: Entry)
    requires Sound(bs, pending, rs, tick, todo) && x !in rs && e.duration > 0
    ensures Sound(bs, pending + [x], rs[x := Rider(BUCKETS, e.duration, e)], tick, todo)
  {
  }

  lemma LeaveLists(bs: Lists, pending: seq<Item>, rs: Riders, b: nat, i: nat)
    requires Listed(bs, pending, rs) && b < BUCKETS && i < |bs[b]|
    ensures Listed(bs[b := Cut(bs[b], i)], pending, rs - {bs[b][i]})
  {
    hide Distinct, Cut;
    CutOut(bs[b], i);
    ListsWithout(bs, pending, rs, b, bs[b][i], Cut(bs[b], i));
  }

  lemma ListsWithout(bs: Lists, pending: seq<Item>, rs: Riders, b: nat, x: Item, rest: seq<Item>)
    requires Listed(bs, pending, rs) && b < BUCKETS && x in bs[b]
    requires Distinct(rest) && forall y :: y in rest <==> y in bs[b] && y != x
    ensures Listed(bs[b := rest], pending, rs - {x})
  {
    hide Distinct;
    assert rs[x].place == b;
    var bs' := bs[b := rest];
    forall c, y | 0 <= c < BUCKETS && y in bs'[c]
      ensures y != x && y in bs[c]
    {
      if c != b { assert y in bs[c]; }
    }
    forall y | y in rs && y != x && rs[y].place < BUCKETS
      ensures y in bs'[rs[y].place]
    {
      assert y in bs[rs[y].place];
    }
  }

  /** An item leaves the bucket being visited. */
  lemma LeaveKeeps(bs: Lists, pending: seq<Item>, rs: Riders, tick: nat, b: nat, i: nat)
    requires b < |bs| && i < |bs[b]| && Sound(bs, pending, rs, tick, bs[b][i..])
    ensures Sound(bs[b := Cut(bs[b], i)], pending, rs - {bs[b][i]}, tick, bs[b][i + 1..])
    ensures Cut(bs[b], i)[i..] == bs[b][i + 1..] && bs[b][i] !in bs[b][i + 1..]
  {
    LeaveLists(bs, pending, rs, b, i);
    CutOut(bs[b], i);
  }

  /** An item goes to the end of a bucket. */
  lemma JoinLists(bs: Lists, pending: seq<Item>, rs: Riders, x: Item, r: Rider)
    requires Listed(bs, pending, rs) && x !in rs && r.place < BUCKETS
    ensures Listed(bs[r.place := bs[r.place] + [x]], pending, rs[x := r])
  {
    hide Distinct;
    assert x !in bs[r.place];
    DistinctSnoc(bs[r.place], x);
  }

  lemma JoinKeeps(bs: Lists, pending: seq<Item>, rs: Riders, tick: nat, todo: seq<Item>, x: Item, r: Rider)
    requires Sound(bs, pending, rs, tick, todo) && x !in rs && x !in todo && r.place < BUCKETS && r.left > 0
    requires r.entry.Due() == Next(tick, r.place) + Extra(r.left)
    ensures Sound(bs[r.place := bs[r.place] + [x]], pending, rs[x := r], tick, todo)
  {
    JoinLists(bs, pending, rs, x, r);
  }

  /** An item stays in its bucket with a second less. */
  lemma StayKeeps(bs: Lists, pending: seq<Item>, rs: Riders, tick: nat, b: nat, i: nat, left: int)
    requires b < |bs| && i < |bs[b]| && Sound(bs, pending, rs, tick, bs[b][i..]) && tick % BUCKETS == b
    requires bs[b][i] in rs && left == rs[bs[b][i]].left - 1000 >= 1000
    ensures Sound(bs, pending, rs[bs[b][i] := rs[bs[b][i]].(left := left)], tick, bs[b][i + 1..])
  {
    hide Next, Extra, Ticks, Distinct;
    CutOut(bs[b], i);
    VisitKeepsTime(left + 1000);
    NextVisits(tick, b);
  }

  lemma UnpendLists(bs: Lists, pending: seq<Item>, rs: Riders)
    requires Listed(bs, pending, rs) && pending != []
    ensures |bs| == BUCKETS && pending[0] in rs && pending[0] !in pending[1..] && Listed(bs, pending[1..], rs - {pending[0]})
  {
    hide Distinct;
    var x := pending[0];
    DistinctTail(pending);
    assert x in pending;
    forall b | 0 <= b < BUCKETS
      ensures x !in bs[b]
    {
    }
  }

  /** The place and the entry that cleanup gives a pending item. */
  ghost function Settled(tick: nat, left: int): Rider {
    Rider(if left >= 1000 then tick % BUCKETS else (tick % BUCKETS + 1 + left / 1000) % BUCKETS, left, Entry(tick, left))
  }

  lemma SettledDue(tick: nat, left: int)
    requires left > 0
    ensures var r := Settled(tick, left);
            r.place < BUCKETS && r.left == left && r.entry.Due() == Next(tick, r.place) + Extra(r.left)
  {
    NextVisits(tick, Settled(tick, left).place);
    if left < 1000 { assert left / 1000 == 0 && (tick % BUCKETS + 1) % BUCKETS == (tick + 1) % BUCKETS; }
  }

  lemma SettleKeeps(bs: Lists, pending: seq<Item>, rs: Riders, tick: nat)
    requires Sound(bs, pending, rs, tick, []) && pending != []
    ensures |bs| == BUCKETS
    ensures var x := pending[0];
            && x in rs && rs[x].left > 0
            && var r := Settled(tick, rs[x].left);
               r.place < BUCKETS && Sound(bs[r.place := bs[r.place] + [x]], pending[1..], rs[x := r], tick, [])
  {
    hide Next, Extra, Ticks, Listed, Settled;
    var x := pending[0];
    UnpendLists(bs, pending, rs);
    var r := Settled(tick, rs[x].left);
    SettledDue(tick, rs[x].left);
    assert OnTime(rs - {x}, tick, []);
    JoinKeeps(bs, pending[1..], rs - {x}, tick, [], x, r);
    assert (rs - {x})[x := r] == rs[x := r];
  }

  /** A new tick begins: the items of its bucket are to be visited now. */
  lemma TickKeeps(bs: Lists, pending: seq<Item>, rs: Riders, tick: nat)
    requires Sound(bs, pending, rs, tick, [])
    ensures Sound(bs, pending, rs, tick + 1, bs[(tick + 1) % BUCKETS])
  {
    forall x | x in rs && rs[x].place < BUCKETS
      ensures Next(tick, rs[x].place) == (if x in bs[(tick + 1) % BUCKETS] then tick + 1 else Next(tick + 1, rs[x].place))
    {
      NextVisits(tick, rs[x].place);
    }
  }

  // ---------------------------------------------------------------- the wheel

  /** What a visit makes of an item that can decay: nothing when its time is up. */
  datatype Outcome = Expires | Rides(rider: Rider)

  function Visit(r: Rider, bucket: nat): Outcome {
    var left := r.left - (if r.left < 1000 then r.left else 1000);
    if left <= 0 then Expires
    else if left >= 1000 then Rides(r.(left := left))
    else
      var place := (bucket + (left + INTERVAL / 2) / 1000) % BUCKETS;
      if place == bucket then Expires else Rides(r.(place := place, left := left))
  }

  /** A visit ends an item exactly at the tick it is due. */
  lemma VisitIsDue(r: Rider, tick: nat)
    requires r.left > 0 && r.place == tick % BUCKETS && r.entry.Due() == tick + Extra(r.left)
    ensures var b := tick % BUCKETS;
            && (Visit(r, b) == Expires <==> r.entry.Due() == tick)
            && (Visit(r, b).Rides? ==>
                  var n := Visit(r, b).rider;
                  n.place < BUCKETS && n.left > 0 && n.entry == r.entry && r.entry.Due() == Next(tick, n.place) + Extra(n.left))
  {
    hide Next, Extra, Ticks;
    VisitKeepsTime(r.left);
    NextVisits(tick, tick % BUCKETS);
    NextVisits(tick, (tick + 1) % BUCKETS);
    assert (tick % BUCKETS + 1) % BUCKETS == (tick + 1) % BUCKETS != tick % BUCKETS;
    ExtraSmall(r.left - 1000);
  }

  lemma ExtraSmall(d: int)
    ensures 0 < d < 1875 ==> Extra(d) == 0
    ensures d < 1000 ==> Extra(d) == 0
  {
  }

  /** An item that ran out, and the tick it did so. */
  datatype Expiry = Expiry(entry: Entry, tick: nat)

  class Wheel {
    const types: Catalogue
    var decayItems: Lists
    var toDecayItems: seq<Item>
    var lastBucket: nat
    ghost var tick: nat
    ghost var riders: Riders
    ghost var expired: map<Item, Expiry>

    constructor (types: Catalogue)
      ensures Valid() && this.types == types && tick == 0 && riders == map[] && expired == map[]
    {
      this.types := types;
      decayItems, toDecayItems, lastBucket := [[], [], [], []], [], 0;
      tick, riders, expired := 0, map[], map[];
    }

    /** The riders are the items marked as decaying, with the durations they have. */
    ghost predicate Riding()
      reads this`riders, riders.Keys
    {
      forall x :: x in riders ==> x.decaying && x.duration == riders[x].left
    }

    ghost predicate Ready(todo: seq<Item>)
      reads this, riders.Keys
    {
      Sound(decayItems, toDecayItems, riders, tick, todo) && Riding()
    }

    /** The invariant between events: the wheel is sound, and whatever expired did so when due. */
    ghost predicate Valid()
      reads this, riders.Keys
    {
      && Ready([]) && lastBucket == tick % BUCKETS
      && forall x :: x in expired ==> expired[x].tick == expired[x].entry.Due() <= tick
    }

    /** The riders there were are as they were, and at most new items have joined. */
    twostate predicate Joined(gone: set<Item>)
      reads this`riders
    {
      && (forall x :: x in old(riders) && x !in gone ==> x in riders && riders[x] == old(riders)[x])
      && (forall x :: x in gone ==> x !in riders)
      && (forall x :: x in riders && x !in old(riders) ==> fresh(x))
    }

    /** Game::startDecay */
    method StartDecay(item: Item, ghost todo: seq<Item>)
      requires Ready(todo)
      modifies this`toDecayItems, this`riders, item`decaying, item`removed
      ensures Ready(todo)
      ensures !old(item.CanDecay(types)) || old(item.decaying) ==> unchanged(this, item)
      ensures old(item.CanDecay(types)) && !old(item.decaying) && item.duration > 0 ==>
                && toDecayItems == old(toDecayItems) + [item] && item.decaying && !item.removed
                && riders == old(riders)[item := Rider(BUCKETS, item.duration, Entry(tick, item.duration))]
      ensures old(item.CanDecay(types)) && !old(item.decaying) && item.duration <= 0 ==> item.removed && !item.decaying && Joined({})
      decreases if item.CanDecay(types) && item.duration <= 0 then 2 else 0
    {
      hide Sound;
      if !item.CanDecay(types) || item.decaying {
        return;
      }
      if item.duration > 0 {
        PendKeeps(decayItems, toDecayItems, riders, tick, todo, item, Entry(tick, item.duration));
        item.decaying := true;
        toDecayItems := toDecayItems + [item];
        riders := riders[item := Rider(BUCKETS, item.duration, Entry(tick, item.duration))];
      } else {
        InternalDecayItem(item, todo);
      }
    }

    /** If the item's kind has a next one and that decays in turn, a new item of that kind waits at the
        end of the pending list, with its whole duration. */
    twostate predicate Heir(item: Item)
      reads this`toDecayItems, this`riders
    {
      var next := types(item.id).decayTo;
      if next > 0 && types(next).decayTo >= 0 && types(next).decayTime != 0 then
        && toDecayItems != [] && toDecayItems[..|toDecayItems| - 1] == old(toDecayItems)
        && var heir := toDecayItems[|toDecayItems| - 1];
           heir.id == next && heir in riders && riders[heir].place == BUCKETS && riders[heir].left == types(next).decayTime * 1000
      else toDecayItems == old(toDecayItems)
    }

    /** Game::internalDecayItem: the item makes way for a new one of the next kind, or vanishes. */
    method InternalDecayItem(item: Item, ghost todo: seq<Item>)
      requires Ready(todo) && types(item.id).decayTo >= 0
      modifies this`toDecayItems, this`riders, item`removed
      ensures Ready(todo) && item.removed && Joined({}) && Heir(item)
      decreases 1
    {
      hide Sound;
      item.removed := true;
      if types(item.id).decayTo != 0 {
        var newItem := new Item(types(item.id).decayTo, types);
        StartDecay(newItem, todo);
      }
    }

    /** Game::cleanup: the pending items enter the buckets. */
    method Cleanup()
      requires Ready([]) && lastBucket == tick % BUCKETS
      modifies this`decayItems, this`toDecayItems, this`riders
      ensures Ready([]) && toDecayItems == [] && riders.Keys == old(riders.Keys)
      ensures forall x :: x in riders ==>
                riders[x] == if old(riders[x].place) == BUCKETS then Settled(tick, old(riders[x].left)) else old(riders[x])
    {
      hide Sound, Settled, Riding, Distinct;
      var i := 0;
      assert toDecayItems[0..] == toDecayItems;
      PendingAre(decayItems, toDecayItems, riders, tick);
      while i < |toDecayItems|
        invariant i <= |toDecayItems| && Riding() && toDecayItems == old(toDecayItems)
        invariant Sound(decayItems, toDecayItems[i..], riders, tick, [])
        invariant riders.Keys == old(riders.Keys)
        invariant forall x :: x in riders ==>
                    riders[x] == if x in toDecayItems[..i] then Settled(tick, old(riders[x].left)) else old(riders[x])
      {
        PendingAre(decayItems, toDecayItems[i..], riders, tick);
        assert toDecayItems[i..][1..] == toDecayItems[i + 1..] && toDecayItems[..i + 1] == toDecayItems[..i] + [toDecayItems[i]];
        assert toDecayItems[i] in toDecayItems[i..];
        NotBefore(toDecayItems, i);
        Settle(toDecayItems[i], toDecayItems[i..]);
        i := i + 1;
      }
      assert toDecayItems[..i] == toDecayItems && toDecayItems[i..] == [];
      toDecayItems := [];
    }

    method Settle(item: Item, ghost pending: seq<Item>)
      requires Riding() && Sound(decayItems, pending, riders, tick, []) && lastBucket == tick % BUCKETS
      requires pending != [] && item == pending[0] && item in riders
      modifies this`decayItems, this`riders
      ensures Riding() && Sound(decayItems, pending[1..], riders, tick, [])
      ensures riders == old(riders)[item := Settled(tick, old(riders[item].left))]
    {
      hide Sound;
      SettleKeeps(decayItems, pending, riders, tick);
      var dur := item.duration;
      var bucket := if dur >= INTERVAL * BUCKETS then lastBucket else (lastBucket + 1 + dur / 1000) % BUCKETS;
      decayItems := decayItems[bucket := decayItems[bucket] + [item]];
      riders := riders[item := Settled(tick, dur)];
    }

    /** The item under the iterator leaves the bucket. */
    method Erase(bucket: nat, it: nat)
      requires bucket < |decayItems| && it < |decayItems[bucket]|
      requires Sound(decayItems, toDecayItems, riders, tick, decayItems[bucket][it..])
      modifies this`decayItems, this`riders
      ensures decayItems == old(decayItems)[bucket := Cut(old(decayItems[bucket]), it)]
      ensures riders == old(riders) - {old(decayItems[bucket][it])}
      ensures decayItems[bucket][it..] == old(decayItems[bucket])[it + 1..]
      ensures old(decayItems[bucket][it]) !in old(decayItems[bucket])[it + 1..]
      ensures Sound(decayItems, toDecayItems, riders, tick, decayItems[bucket][it..])
    {
      hide Sound;
      LeaveKeeps(decayItems, toDecayItems, riders, tick, bucket, it);
      decayItems := decayItems[bucket := decayItems[bucket][..it] + decayItems[bucket][it + 1..]];
      riders := riders - {old(decayItems[bucket][it])};
    }

    method Expire(item: Item, ghost todo: seq<Item>, ghost entry: Entry)
      requires Ready(todo) && types(item.id).decayTo >= 0
      modifies this`toDecayItems, this`riders, this`expired, item`removed
      ensures Ready(todo) && item.removed && Joined({}) && Heir(item)
      ensures expired == old(expired)[item := Expiry(entry, tick)]
    {
      hide Sound;
      expired := expired[item := Expiry(entry, tick)];
      InternalDecayItem(item, todo);
    }

    method Rejoin(item: Item, bucket: nat, ghost todo: seq<Item>, ghost rider: Rider)
      requires Ready(todo) && item !in riders && item !in todo && bucket == rider.place < BUCKETS == |decayItems|
      requires item.decaying && rider.left == item.duration > 0 && rider.entry.Due() == Next(tick, bucket) + Extra(rider.left)
      modifies this`decayItems, this`riders
      ensures Ready(todo) && riders == old(riders)[item := rider]
      ensures decayItems == old(decayItems)[bucket := old(decayItems)[bucket] + [item]]
    {
      hide Sound, Extra, Next, Ticks;
      JoinKeeps(decayItems, toDecayItems, riders, tick, todo, item, rider);
      decayItems := decayItems[bucket := decayItems[bucket] + [item]];
      riders := riders[item := rider];
    }

    /** What the visit did to the item and nobody else. */
    twostate predicate Fared(item: Item, can: bool)
      reads this, item
    {
      && (forall x :: x in old(riders) && x != item ==> x in riders && riders[x] == old(riders)[x])
      && (forall x :: x in riders && x !in old(riders) ==> fresh(x))
      && item in old(riders)
      && if !can then item !in riders && !item.decaying && expired == old(expired)
         else
           match Visit(old(riders)[item], tick % BUCKETS) {
             case Expires =>
               && item !in riders && expired == old(expired)[item := Expiry(old(riders)[item].entry, tick)]
               && item.removed && Heir(item)
             case Rides(rider) => item in riders && riders[item] == rider && expired == old(expired) && !item.removed
           }
    }

    /** One round of the loop of Game::checkDecay: the item under the iterator is dropped, expires,
        changes the bucket or stays.  Gives the iterator's new position. */
    method VisitItem(bucket: nat, it: nat) returns (next: nat)
      requires bucket == tick % BUCKETS < |decayItems| && it < |decayItems[bucket]|
      requires Ready(decayItems[bucket][it..])
      modifies this`decayItems, this`toDecayItems, this`riders, this`expired, decayItems[bucket][it]
      ensures |decayItems| == BUCKETS && next <= |decayItems[bucket]|
      ensures decayItems[bucket][next..] == old(decayItems[bucket])[it + 1..]
      ensures Ready(decayItems[bucket][next..])
      ensures Fared(old(decayItems[bucket][it]), old(decayItems[bucket][it].CanDecay(types)))
    {
      hide Sound, Extra, Next, Ticks;
      var item := decayItems[bucket][it];
      Visited(decayItems, toDecayItems, riders, tick, it);
      if !item.CanDecay(types) {
        item.decaying := false;
        Erase(bucket, it);
        return it;
      }
      next := VisitDecayable(bucket, it);
    }

    /** The round for an item that can decay. */
    method VisitDecayable(bucket: nat, it: nat) returns (next: nat)
      requires bucket == tick % BUCKETS < |decayItems| && it < |decayItems[bucket]|
      requires Ready(decayItems[bucket][it..]) && decayItems[bucket][it].CanDecay(types)
      modifies this`decayItems, this`toDecayItems, this`riders, this`expired, decayItems[bucket][it]
      ensures |decayItems| == BUCKETS && next <= |decayItems[bucket]|
      ensures decayItems[bucket][next..] == old(decayItems[bucket])[it + 1..]
      ensures Ready(decayItems[bucket][next..])
      ensures Fared(old(decayItems[bucket][it]), true)
    {
      hide Sound, Extra, Next, Ticks;
      var item := decayItems[bucket][it];
      ghost var rest := decayItems[bucket][it + 1..];
      Visited(decayItems, toDecayItems, riders, tick, it);
      ghost var rider := riders[item];
      VisitIsDue(rider, tick);
      var duration := item.duration;
      var decreaseTime := if INTERVAL * BUCKETS < duration then INTERVAL * BUCKETS else duration;
      duration := duration - decreaseTime;
      item.duration := item.duration - decreaseTime;
      if duration <= 0 {
        Erase(bucket, it);
        Expire(item, rest, rider.entry);
        return it;
      } else if duration < INTERVAL * BUCKETS {
        Erase(bucket, it);
        var newBucket := (bucket + ((duration + INTERVAL / 2) / 1000)) % BUCKETS;
        if newBucket == bucket {
          Expire(item, rest, rider.entry);
        } else {
          Rejoin(item, newBucket, rest, rider.(place := newBucket, left := duration));
        }
        return it;
      } else {
        StayKeeps(decayItems, toDecayItems, riders, tick, bucket, it, duration);
        riders := riders[item := riders[item].(left := duration)];
        return it + 1;
      }
    }

    /** What one tick makes of a rider: what cannot decay any more is dropped at its visit; what can
        expires in the tick it is due, and otherwise rides on. */
    ghost predicate Fate(x: Item, r: Rider, can: bool)
      reads this`riders, this`expired, this`tick, x
    {
      if r.place == BUCKETS then x in riders && riders[x] == Settled(tick, r.left) && (can ==> x.CanDecay(types))
      else if !can then
        if r.place == tick % BUCKETS then x !in riders && !x.decaying else x in riders && riders[x] == r
      else if r.entry.Due() == tick then x !in riders && x in expired && expired[x] == Expiry(r.entry, tick) && x.removed
      else x in riders && riders[x].entry == r.entry && riders[x].place < BUCKETS && x.CanDecay(types)
    }

    /** The loop of checkDecay: `list` is the bucket as it was, `j` of its items were visited. */
    ghost predicate Visiting(start: Riders, can: map<Item, bool>, was: map<Item, Expiry>, list: seq<Item>, j: nat)
      reads this, riders.Keys, start.Keys
    {
      && j <= |list| && Distinct(list) && start.Keys == can.Keys
      && Ready(list[j..])
      && (forall x :: x in list ==> x in start && start[x].place == tick % BUCKETS)
      && (forall x :: x in start ==>
            if x in list[..j] then Fate(x, start[x], can[x])
            else x in riders && riders[x] == start[x] && can[x] == x.CanDecay(types))
      && (forall x :: x in expired ==> expired[x].tick == expired[x].entry.Due() <= tick)
      && (forall x :: x in was && x !in start ==> x in expired && expired[x] == was[x])
    }

    method VisitNext(bucket: nat, it: nat, ghost start: Riders, ghost can: map<Item, bool>, ghost was: map<Item, Expiry>,
                     ghost list: seq<Item>, ghost j: nat)
      returns (next: nat)
      requires bucket == tick % BUCKETS < |decayItems| && it < |decayItems[bucket]|
      requires j < |list| && decayItems[bucket][it..] == list[j..] && Visiting(start, can, was, list, j)
      modifies this`decayItems, this`toDecayItems, this`riders, this`expired, decayItems[bucket][it]
      ensures |decayItems| == BUCKETS && next <= |decayItems[bucket]|
      ensures decayItems[bucket][next..] == list[j + 1..] && Visiting(start, can, was, list, j + 1)
      ensures forall x :: x in riders && x !in old(riders) ==> fresh(x)
    {
      hide Sound, Extra, Next, Ticks, Visit, Riding;
      var item := decayItems[bucket][it];
      assert item == decayItems[bucket][it..][0] == list[j];
      Visited(decayItems, toDecayItems, riders, tick, it);
      VisitIsDue(riders[item], tick);
      assert list[..j + 1] == list[..j] + [item];
      NotBefore(list, j);
      next := VisitItem(bucket, it);
    }

    /** Game::checkDecay: one bucket is visited, then the pending items enter. */
    method CheckDecay()
      requires Valid()
      modifies this`decayItems, this`toDecayItems, this`lastBucket, this`tick, this`riders, this`expired, riders.Keys
      ensures Valid() && tick == old(tick) + 1 && toDecayItems == []
      ensures forall x :: x in old(riders) ==> Fate(x, old(riders)[x], old(x.CanDecay(types)))
      ensures forall x :: x in old(expired) && x !in old(riders) ==> x in expired && expired[x] == old(expired)[x]
      ensures forall x :: x in riders && x !in old(riders) ==> fresh(x)
    {
      hide Sound, Riding, Fate, Visiting;
      ghost var start, can, was := riders, map x | x in riders :: x.CanDecay(types), expired;
      var bucket := BeginTick(start, can);
      ghost var list := decayItems[bucket];
      VisitAll(bucket, start, can, was);
      FinishTick(bucket, start, can, was, list);
    }

    /** The next bucket, all of whose items are still to be visited. */
    method BeginTick(ghost start: Riders, ghost can: map<Item, bool>) returns (bucket: nat)
      requires Valid() && start == riders && can == map x | x in riders :: x.CanDecay(types)
      modifies this`tick
      ensures tick == old(tick) + 1 && bucket == tick % BUCKETS < |decayItems| == BUCKETS
      ensures Visiting(start, can, expired, decayItems[bucket], 0)
      ensures forall x :: x in start && start[x].place == tick % BUCKETS ==> x in decayItems[bucket]
    {
      hide Sound, Extra, Next, Ticks, Visit, Riding, Fate, Distinct;
      bucket := (lastBucket + 1) % BUCKETS;
      TickKeeps(decayItems, toDecayItems, riders, tick);
      BucketAre(decayItems, toDecayItems, riders, tick, [], bucket);
      tick := tick + 1;
      assert bucket == tick % BUCKETS;
      assert decayItems[bucket][0..] == decayItems[bucket];
    }

    /** The loop of checkDecay over the bucket. */
    method VisitAll(bucket: nat, ghost start: Riders, ghost can: map<Item, bool>, ghost was: map<Item, Expiry>)
      requires bucket == tick % BUCKETS < |decayItems| == BUCKETS && Visiting(start, can, was, decayItems[bucket], 0)
      modifies this`decayItems, this`toDecayItems, this`riders, this`expired, start.Keys
      ensures Visiting(start, can, was, old(decayItems)[bucket], |old(decayItems)[bucket]|)
      ensures forall x :: x in riders && x !in old(riders) ==> fresh(x)
    {
      hide Visiting;
      ghost var list, j: nat := decayItems[bucket], 0;
      var it: nat := 0;
      ListStarts(start, can, was, list);
      while it < |decayItems[bucket]|
        invariant |decayItems| == BUCKETS && it <= |decayItems[bucket]| && j <= |list|
        invariant decayItems[bucket][it..] == list[j..] && Visiting(start, can, was, list, j)
        invariant forall x :: x in riders && x !in old(riders) ==> fresh(x)
        decreases |list| - j
      {
        assert |list[j..]| == |list| - j && decayItems[bucket][it] == list[j..][0] == list[j];
        it := VisitNext(bucket, it, start, can, was, list, j);
        j := j + 1;
      }
      assert |decayItems[bucket][it..]| == 0 == |list[j..]| == |list| - j;
    }

    lemma ListStarts(start: Riders, can: map<Item, bool>, was: map<Item, Expiry>, list: seq<Item>)
      requires Visiting(start, can, was, list, 0)
      ensures list[0..] == list && forall x :: x in list ==> x in start
    {
    }

    /** The cleanup at the end of checkDecay. */
    method FinishTick(bucket: nat, ghost start: Riders, ghost can: map<Item, bool>, ghost was: map<Item, Expiry>, ghost list: seq<Item>)
      requires Visiting(start, can, was, list, |list|) && bucket == tick % BUCKETS
      requires forall x :: x in start && start[x].place == tick % BUCKETS ==> x in list
      modifies this`decayItems, this`toDecayItems, this`lastBucket, this`riders
      ensures Valid() && toDecayItems == [] && riders.Keys == old(riders.Keys)
      ensures forall x :: x in start ==> Fate(x, start[x], can[x])
      ensures forall x :: x in was && x !in start ==> x in expired && expired[x] == was[x]
    {
      hide Sound, Extra, Next, Ticks, Visit, Riding, Settled;
      assert list[|list|..] == [] && list[..|list|] == list;
      lastBucket := bucket;
      NotYet(decayItems, toDecayItems, riders, tick);
      Cleanup();
    }
  }

  lemma NotYet(bs: Lists, pending: seq<Item>, rs: Riders, tick: nat)
    requires Sound(bs, pending, rs, tick, [])
    ensures forall x :: x in rs ==> rs[x].place <= BUCKETS && (rs[x].place < BUCKETS ==> rs[x].entry.Due() > tick)
  {
    forall x | x in rs && rs[x].place < BUCKETS
      ensures rs[x].entry.Due() > tick
    {
      NextVisits(tick, rs[x].place);
    }
  }

  lemma BucketAre(bs: Lists, pending: seq<Item>, rs: Riders, tick: nat, todo: seq<Item>, b: nat)
    requires Sound(bs, pending, rs, tick, todo) && b < BUCKETS
    ensures |bs| == BUCKETS && Distinct(bs[b]) && forall x :: x in bs[b] <==> x in rs && rs[x].place == b
  {
  }

  /** Anything that happens around the wheel between two events. */
  datatype Event = Start(item: Item) | Tick | SetRemoved(item: Item, gone: bool) | Clean

  /** Whatever the events do, they leave the removal mark of the item alone. */
  ghost predicate LeftAlone(events: seq<Event>, x: Item) {
    forall e :: e in events && e.SetRemoved? ==> e.item != x
  }

  /** An item that entered a bucket with the entry `e` and stays decayable rides until it is due, and
      has expired in that very tick from then on. */
  ghost predicate Tracked(wheel: Wheel, x: Item, e: Entry)
    reads wheel, x
  {
    if wheel.tick < e.Due() then
      x in wheel.riders && wheel.riders[x].place < BUCKETS && wheel.riders[x].entry == e && x.CanDecay(wheel.types)
    else
      x !in wheel.riders && x.removed && x in wheel.expired && wheel.expired[x] == Expiry(e, e.Due())
  }

  /** The same for an item that was the rider `r` at the tick `since`: one that was pending then enters
      a bucket at once or in the next tick, with all of its time left. */
  ghost predicate OnSchedule(wheel: Wheel, x: Item, r: Rider, since: nat)
    reads wheel, x
  {
    if r.place < BUCKETS then Tracked(wheel, x, r.entry)
    else if wheel.tick == since && x in wheel.riders && wheel.riders[x] == r then x.CanDecay(wheel.types)
    else Tracked(wheel, x, Entry(since, r.left)) || Tracked(wheel, x, Entry(since + 1, r.left))
  }

  /** Any run of the wheel: every rider is in exactly one list at all times, whatever expired did so in
      the very tick its duration called for, and whatever stays decayable does expire then. */
  method Run(wheel: Wheel, events: seq<Event>, ghost items: set<Item>)
    requires wheel.Valid() && wheel.riders.Keys <= items
    requires forall e :: e in events && (e.Start? || e.SetRemoved?) ==> e.item in items
    modifies wheel, items
    ensures wheel.Valid() && wheel.tick >= old(wheel.tick)
    ensures forall x :: x in old(wheel.riders) && old(x.CanDecay(wheel.types)) && LeftAlone(events, x) ==>
              OnSchedule(wheel, x, old(wheel.riders)[x], old(wheel.tick))
  {
    hide Sound, Wheel.Valid, OnSchedule;
    ghost var start, since, live := wheel.riders, wheel.tick, set x | x in wheel.riders && x.CanDecay(wheel.types) && LeftAlone(events, x);
    Departing(wheel, live);
    for i := 0 to |events|
      invariant wheel.Valid() && wheel.tick >= since && forall x :: x in wheel.riders ==> x in items || fresh(x)
      invariant forall x :: x in live ==> OnSchedule(wheel, x, start[x], since)
    {
      assert events[i] in events;
      Perform(wheel, events[i], start, since, live);
    }
  }

  lemma Departing(wheel: Wheel, live: set<Item>)
    requires wheel.Valid() && forall x :: x in live ==> x in wheel.riders && x.CanDecay(wheel.types)
    ensures forall x :: x in live ==> OnSchedule(wheel, x, wheel.riders[x], wheel.tick)
  {
    hide Sound;
    NotYet(wheel.decayItems, wheel.toDecayItems, wheel.riders, wheel.tick);
  }

  /** One event; it keeps everybody on schedule whose removal mark it does not touch. */
  method Perform(wheel: Wheel, event: Event, ghost start: Riders, ghost since: nat, ghost live: set<Item>)
    requires wheel.Valid() && since <= wheel.tick && live <= start.Keys
    requires event.SetRemoved? ==> event.item !in live
    requires forall x :: x in live ==> OnSchedule(wheel, x, start[x], since)
    modifies wheel, wheel.riders.Keys, if event.Start? || event.SetRemoved? then {event.item} else {}
    ensures wheel.Valid() && wheel.tick >= old(wheel.tick)
    ensures forall x :: x in wheel.riders && x !in old(wheel.riders) ==> fresh(x) || (event.Start? && x == event.item)
    ensures forall x :: x in live ==> OnSchedule(wheel, x, start[x], since)
  {
    hide Sound, Settled, Ticks;
    PendingAre(wheel.decayItems, wheel.toDecayItems, wheel.riders, wheel.tick);
    match event {
      case Start(item) => wheel.StartDecay(item, []);
      case Tick => TickOn(wheel, start, since, live);
      case SetRemoved(item, gone) => item.removed := gone;
      case Clean =>
        EntersThen(wheel.riders, wheel.tick);
        wheel.Cleanup();
    }
  }

  method TickOn(wheel: Wheel, ghost start: Riders, ghost since: nat, ghost live: set<Item>)
    requires wheel.Valid() && since <= wheel.tick && live <= start.Keys
    requires forall x :: x in live ==> OnSchedule(wheel, x, start[x], since)
    modifies wheel, wheel.riders.Keys
    ensures wheel.Valid() && wheel.tick == old(wheel.tick) + 1
    ensures forall x :: x in wheel.riders && x !in old(wheel.riders) ==> fresh(x)
    ensures forall x :: x in live ==> OnSchedule(wheel, x, start[x], since)
  {
    hide Sound, Settled, Ticks;
    PendingAre(wheel.decayItems, wheel.toDecayItems, wheel.riders, wheel.tick);
    EntersThen(wheel.riders, wheel.tick + 1);
    NotYet(wheel.decayItems, wheel.toDecayItems, wheel.riders, wheel.tick);
    ghost var before, can := wheel.riders, map x | x in wheel.riders :: x.CanDecay(wheel.types);
    wheel.CheckDecay();
    forall x | x in live && x in before
      ensures OnSchedule(wheel, x, start[x], since)
    {
      assert wheel.Fate(x, before[x], can[x]);
    }
  }

  /** Where cleanup puts a pending item, it is not yet due. */
  lemma EntersThen(rs: Riders, tick: nat)
    requires forall x :: x in rs ==> rs[x].left > 0
    ensures forall x :: x in rs ==>
              var r := Settled(tick, rs[x].left);
              r.place < BUCKETS && r.entry == Entry(tick, rs[x].left) && r.entry.Due() > tick
  {
  }

  lemma Visited(bs: Lists, pending: seq<Item>, rs: Riders, tick: nat, it: nat)
    requires tick % BUCKETS < |bs| && it < |bs[tick % BUCKETS]|
    requires Sound(bs, pending, rs, tick, bs[tick % BUCKETS][it..])
    ensures |bs| == BUCKETS
    ensures var x := bs[tick % BUCKETS][it];
            x in rs && rs[x].place == tick % BUCKETS && rs[x].left > 0 && rs[x].entry.Due() == tick + Extra(rs[x].left)
  {
    var b := tick % BUCKETS;
    assert bs[b][it] == bs[b][it..][0] && bs[b][it] in bs[b][it..];
  }

  lemma PendingAre(bs: Lists, pending: seq<Item>, rs: Riders, tick: nat)
    requires Sound(bs, pending, rs, tick, [])
    ensures |bs| == BUCKETS && Distinct(pending)
    ensures forall x :: x in pending <==> x in rs && rs[x].place == BUCKETS
    ensures forall x :: x in rs ==> rs[x].left > 0
  {
  }
}
