/** Items and containers: a forest of objects with parent pointers and cached weights.  The invariant
    is stated on a snapshot of the objects, a map from each to the fields that matter. */
module ItemForest {
  import opened Sequences

  /** The static data of an item id; weights in hundredths of an ounce. */
  datatype ItemType = ItemType(weight: int, stackable: bool, pickupable: bool, movable: bool, worth: nat)

  type Catalogue = nat -> ItemType

  function Max(a: int, b: int): int { if a >= b then a else b }
  function Min(a: int, b: int): int { if a <= b then a else b }

  /** An Item; when `isContainer` also the Container part of the object. */
  class Item {
    var id: nat
    var count: nat
    var parent: Item?
    const isContainer: bool
    const capacity: nat
    var itemlist: seq<Item>
    var totalWeight: int

    constructor (id: nat, count: nat, isContainer: bool, capacity: nat)
      ensures this.id == id && this.count == count && parent == null
      ensures this.isContainer == isContainer && this.capacity == capacity && itemlist == [] && totalWeight == 0
    {
      this.id, this.count, parent := id, count, null;
      this.isContainer, this.capacity, itemlist, totalWeight := isContainer, capacity, [], 0;
    }

    /** Container::getWeight adds the cached weight of the contents to Item::getWeight. */
    function Weight(types: Catalogue): int
      reads this
    {
      OwnWeight(types(id), count) + (if isContainer then totalWeight else 0)
    }
  }

  function OwnWeight(ty: ItemType, count: nat): int {
    if ty.stackable then ty.weight * Max(1, count) else ty.weight
  }

  // ---------------------------------------------------------------- the forest

  /** What the invariant needs to know of one object. */
  datatype Entry = Entry(parent: Item?, list: seq<Item>, box: bool, own: int, total: int)
  {
    function Weight(): int { own + (if box then total else 0) }
  }

  type Snapshot = map<Item, Entry>

  ghost function View(s: set<Item>, types: Catalogue): (m: Snapshot)
    reads s
    ensures m.Keys == s
  {
    map x | x in s :: Entry(x.parent, x.itemlist, x.isContainer, OwnWeight(types(x.id), x.count), x.totalWeight)
  }

  /** Plain items hold nothing, and no list holds an item twice. */
  ghost predicate Lists(m: Snapshot) {
    forall x :: x in m ==> (!m[x].box ==> m[x].list == []) && Distinct(m[x].list)
  }

  /** What a list holds has the list's owner as its parent ... */
  ghost predicate Down(m: Snapshot) {
    forall x, y :: x in m && y in m[x].list ==> y in m && m[y].parent == x
  }

  /** ... and what has a parent is in the parent's list; `rank` grows from child to parent, so
      nothing contains itself. */
  ghost predicate Up(m: Snapshot, rank: map<Item, nat>)
    ensures Up(m, rank) ==> forall x :: x in m ==> x in rank
  {
    && (forall x :: x in m ==> x in rank)
    && forall x :: x in m && m[x].parent != null ==>
         m[x].parent in m && x in m[m[x].parent].list && rank[x] < rank[m[x].parent]
  }

  /** Parent pointers and list membership agree, each child exactly once, without cycles. */
  ghost predicate Forest(m: Snapshot, rank: map<Item, nat>)
    ensures Forest(m, rank) ==> forall x :: x in m ==> x in rank
  {
    Lists(m) && Down(m) && Up(m, rank)
  }

  ghost function Weights(m: Snapshot, list: seq<Item>): (ws: seq<int>)
    requires forall x :: x in list ==> x in m
    ensures |ws| == |list| && forall i :: 0 <= i < |list| ==> ws[i] == m[list[i]].Weight()
  {
    seq(|list|, i requires 0 <= i < |list| => m[list[i]].Weight())
  }

  ghost predicate Closed(m: Snapshot) {
    forall x, y :: x in m && y in m[x].list ==> y in m
  }

  /** Every cached weight is the sum over the contents, but for `off` still missing at `p` and
      `rest` owed by a list change at `hole` that is under way. */
  ghost predicate Weighed(m: Snapshot, p: Item?, off: int, hole: Item?, rest: int) {
    && Closed(m)
    && forall x :: x in m ==> Owed(m, x, p, off, hole, rest) == Sum(Weights(m, m[x].list))
  }

  ghost function Owed(m: Snapshot, x: Item, p: Item?, off: int, hole: Item?, rest: int): int
    requires x in m
  {
    m[x].total + (if x == p then off else 0) + (if x == hole then rest else 0)
  }

  /** The invariant of the item world. */
  ghost predicate Sound(m: Snapshot, rank: map<Item, nat>) {
    Forest(m, rank) && Weighed(m, null, 0, null, 0)
  }

  ghost function Higher(m: Snapshot, rank: map<Item, nat>, x: Item): set<Item>
    requires x in rank
  {
    set y | y in m && y in rank && rank[y] > rank[x]
  }

  lemma HigherShrinks(m: Snapshot, rank: map<Item, nat>, x: Item)
    requires Forest(m, rank) && x in m && m[x].parent != null
    ensures Higher(m, rank, m[x].parent) < Higher(m, rank, x)
  {
    assert m[x].parent in Higher(m, rank, x) && m[x].parent !in Higher(m, rank, m[x].parent);
  }

  /** `a` is `x` or one of the containers around it. */
  ghost predicate Within(m: Snapshot, rank: map<Item, nat>, x: Item, a: Item)
    requires Forest(m, rank) && x in m
    decreases Higher(m, rank, x)
  {
    x == a || (m[x].parent != null && (HigherShrinks(m, rank, x); Within(m, rank, m[x].parent, a)))
  }

  /** What is around a container around `x` is around `x`. */
  lemma {:induction false} WithinUp(m: Snapshot, rank: map<Item, nat>, x: Item, a: Item)
    requires Forest(m, rank) && x in m && a in m && Within(m, rank, x, a) && m[a].parent != null
    ensures Within(m, rank, x, m[a].parent)
    decreases Higher(m, rank, x)
  {
    HigherShrinks(m, rank, x);
    if x == a {
      assert Within(m, rank, m[x].parent, m[a].parent);
    } else {
      WithinUp(m, rank, m[x].parent, a);
    }
  }

  /** Taking items out puts nothing around anything. */
  lemma {:induction false} WithinShrinks(m: Snapshot, n: Snapshot, rank: map<Item, nat>, x: Item, a: Item)
    requires Forest(m, rank) && Forest(n, rank) && m.Keys == n.Keys && x in m
    requires forall y :: y in m ==> n[y].parent == m[y].parent || n[y].parent == null
    requires Within(n, rank, x, a)
    ensures Within(m, rank, x, a)
    decreases Higher(n, rank, x)
  {
    if x != a {
      HigherShrinks(n, rank, x);
      HigherShrinks(m, rank, x);
      WithinShrinks(m, n, rank, n[x].parent, a);
    }
  }

  // ---------------------------------------------------------------- changes of weight

  /** Same objects, same links; only weights may differ. */
  ghost predicate SameLinks(m: Snapshot, n: Snapshot) {
    && m.Keys == n.Keys
    && forall x :: x in m ==> m[x].parent == n[x].parent && m[x].list == n[x].list && m[x].box == n[x].box
  }

  lemma SameLinksForest(m: Snapshot, n: Snapshot, rank: map<Item, nat>)
    requires Forest(m, rank) && SameLinks(m, n)
    ensures Forest(n, rank)
  {
  }

  /** The snapshot after the weight of `x` grew by `diff`. */
  lemma WeightChanges(m: Snapshot, n: Snapshot, rank: map<Item, nat>, x: Item, diff: int, list: seq<Item>)
    requires Forest(m, rank) && SameLinks(m, n) && x in m && Distinct(list)
    requires forall y :: y in list ==> y in m
    requires forall y :: y in m ==> n[y].Weight() == m[y].Weight() + (if y == x then diff else 0)
    ensures Sum(Weights(n, list)) == Sum(Weights(m, list)) + (if x in list then diff else 0)
  {
    var before, after := Weights(m, list), Weights(n, list);
    if x in list {
      var i :| 0 <= i < |list| && list[i] == x;
      assert after == before[i := before[i] + diff];
      SumChanges(before, after, i, diff);
    } else {
      assert after == before;
    }
  }

  ghost function AddTotal(m: Snapshot, x: Item, diff: int): Snapshot
    requires x in m
  {
    m[x := m[x].(total := m[x].total + diff)]
  }

  /** What updateItemWeight does to the objects: `c` and everything around it grow by `diff`. */
  ghost function Propagate(m: Snapshot, rank: map<Item, nat>, c: Item, diff: int): (n: Snapshot)
    requires Forest(m, rank) && c in m
    ensures SameLinks(m, n) && Forest(n, rank)
    decreases Higher(m, rank, c)
  {
    var n := AddTotal(m, c, diff);
    SameLinksForest(m, n, rank);
    if m[c].parent == null then n
    else
      HigherShrinks(m, rank, c);
      assert Higher(n, rank, m[c].parent) == Higher(m, rank, m[c].parent);
      Propagate(n, rank, m[c].parent, diff)
  }

  lemma PropagateStep(m: Snapshot, rank: map<Item, nat>, c: Item, diff: int)
    requires Forest(m, rank) && c in m
    ensures var n := AddTotal(m, c, diff);
            && SameLinks(m, n) && Forest(n, rank)
            && (m[c].parent == null ==> Propagate(m, rank, c, diff) == n)
            && (m[c].parent != null ==>
                  && m[c].parent in m && Higher(n, rank, m[c].parent) < Higher(m, rank, c)
                  && Propagate(m, rank, c, diff) == Propagate(n, rank, m[c].parent, diff))
  {
    SameLinksForest(m, AddTotal(m, c, diff), rank);
    if m[c].parent != null { HigherShrinks(m, rank, c); }
  }

  /** One level: now the parent is off by as much. */
  lemma AddTotalWeighed(m: Snapshot, rank: map<Item, nat>, c: Item, diff: int, hole: Item?, rest: int)
    requires Forest(m, rank) && c in m && m[c].box && Weighed(m, c, diff, hole, rest)
    ensures Weighed(AddTotal(m, c, diff), m[c].parent, diff, hole, rest)
  {
    hide Forest, Distinct;
    var n := AddTotal(m, c, diff);
    forall x | x in n
      ensures Owed(n, x, m[c].parent, diff, hole, rest) == Sum(Weights(n, n[x].list))
    {
      ListOf(m, rank, c, x);
      WeightChanges(m, n, rank, c, diff, m[x].list);
    }
  }

  lemma ListOf(m: Snapshot, rank: map<Item, nat>, c: Item, x: Item)
    requires Forest(m, rank) && c in m && x in m
    ensures Distinct(m[x].list) && (c in m[x].list <==> m[c].parent == x) && forall y :: y in m[x].list ==> y in m
  {
  }

  /** Propagation restores the cached weights. */
  lemma {:induction false} PropagateWeighed(m: Snapshot, rank: map<Item, nat>, c: Item, diff: int, hole: Item?, rest: int)
    requires Forest(m, rank) && c in m && m[c].box && Weighed(m, c, diff, hole, rest)
    ensures Weighed(Propagate(m, rank, c, diff), null, 0, hole, rest)
    decreases Higher(m, rank, c)
  {
    hide Forest, Weighed, Propagate, AddTotal, Higher;
    AddTotalWeighed(m, rank, c, diff, hole, rest);
    PropagateStep(m, rank, c, diff);
    if m[c].parent != null {
      ParentIsBox(m, rank, c);
      PropagateWeighed(AddTotal(m, c, diff), rank, m[c].parent, diff, hole, rest);
    } else {
      NobodyOwes(AddTotal(m, c, diff), diff, hole, rest);
    }
  }

  lemma NobodyOwes(m: Snapshot, diff: int, hole: Item?, rest: int)
    requires Weighed(m, null, diff, hole, rest)
    ensures Weighed(m, null, 0, hole, rest)
  {
    forall x | x in m
      ensures Owed(m, x, null, 0, hole, rest) == Sum(Weights(m, m[x].list))
    {
      assert Owed(m, x, null, diff, hole, rest) == Sum(Weights(m, m[x].list));
    }
  }

  lemma ParentIsBox(m: Snapshot, rank: map<Item, nat>, x: Item)
    requires Forest(m, rank) && x in m && m[x].parent != null
    ensures m[x].parent in m && m[m[x].parent].box
  {
    assert x in m[m[x].parent].list;
  }

  /** What is around a container depends only on the parents from there upwards. */
  lemma {:induction false} WithinSame(m: Snapshot, rank: map<Item, nat>, n: Snapshot, rank': map<Item, nat>, x: Item, a: Item)
    requires Forest(m, rank) && Forest(n, rank') && m.Keys == n.Keys && x in m
    requires forall y :: y in m && rank[y] >= rank[x] ==> n[y].parent == m[y].parent
    ensures Within(n, rank', x, a) <==> Within(m, rank, x, a)
    decreases Higher(m, rank, x)
  {
    if m[x].parent != null {
      HigherShrinks(m, rank, x);
      HigherShrinks(n, rank', x);
      WithinSame(m, rank, n, rank', m[x].parent, a);
    }
  }

  ghost function Around(m: Snapshot, rank: map<Item, nat>, c: Item): set<Item>
    requires Forest(m, rank) && c in m
  {
    set x | x in m && Within(m, rank, c, x)
  }

  lemma AroundSame(m: Snapshot, rank: map<Item, nat>, n: Snapshot, rank': map<Item, nat>, c: Item)
    requires Forest(m, rank) && Forest(n, rank') && m.Keys == n.Keys && c in m
    requires forall y :: y in m && rank[y] >= rank[c] ==> n[y].parent == m[y].parent
    ensures Around(n, rank', c) == Around(m, rank, c)
  {
    forall a
      ensures Within(n, rank', c, a) <==> Within(m, rank, c, a)
    {
      WithinSame(m, rank, n, rank', c, a);
    }
  }

  /** Propagation adds the difference to each of the containers around, once. */
  lemma {:induction false} PropagateTotal(m: Snapshot, rank: map<Item, nat>, c: Item, diff: int, x: Item)
    requires Forest(m, rank) && c in m && x in m
    ensures Propagate(m, rank, c, diff)[x].total == m[x].total + (if Within(m, rank, c, x) then diff else 0)
    decreases Higher(m, rank, c)
  {
    hide Forest, Propagate, Higher;
    PropagateStep(m, rank, c, diff);
    WithinStep(m, rank, c, x);
    if m[c].parent != null {
      var n, p := AddTotal(m, c, diff), m[c].parent;
      NotAroundParent(m, rank, c);
      WithinSame(m, rank, n, rank, p, x);
      PropagateTotal(n, rank, p, diff, x);
    }
  }

  lemma WithinStep(m: Snapshot, rank: map<Item, nat>, c: Item, x: Item)
    requires Forest(m, rank) && c in m
    ensures m[c].parent != null ==> m[c].parent in m
    ensures Within(m, rank, c, x) <==> c == x || (m[c].parent != null && Within(m, rank, m[c].parent, x))
  {
    if m[c].parent != null { HigherShrinks(m, rank, c); }
  }

  lemma NotAroundParent(m: Snapshot, rank: map<Item, nat>, c: Item)
    requires Forest(m, rank) && c in m && m[c].parent != null
    ensures m[c].parent in m && !Within(m, rank, m[c].parent, c)
  {
    if Within(m, rank, m[c].parent, c) { WithinRanks(m, rank, m[c].parent, c); }
  }

  lemma {:induction false} WithinRanks(m: Snapshot, rank: map<Item, nat>, x: Item, a: Item)
    requires Forest(m, rank) && x in m && Within(m, rank, x, a)
    ensures a in m && rank[a] >= rank[x]
    decreases Higher(m, rank, x)
  {
    if x != a {
      HigherShrinks(m, rank, x);
      WithinRanks(m, rank, m[x].parent, a);
    }
  }

  ghost function Totals(m: Snapshot): map<Item, int> {
    map x | x in m :: m[x].total
  }

  /** The cached weights after some containers have grown by as much. */
  ghost function GrownBy(totals: map<Item, int>, some: set<Item>, diff: int): map<Item, int> {
    map x | x in totals :: totals[x] + (if x in some then diff else 0)
  }

  lemma PropagateTotals(m: Snapshot, rank: map<Item, nat>, c: Item, diff: int)
    requires Forest(m, rank) && c in m
    ensures Totals(Propagate(m, rank, c, diff)) == GrownBy(Totals(m), Around(m, rank, c), diff)
  {
    hide Forest, Propagate, Within;
    forall x | x in m
      ensures Propagate(m, rank, c, diff)[x].total == m[x].total + (if Within(m, rank, c, x) then diff else 0)
    {
      PropagateTotal(m, rank, c, diff, x);
    }
    assert Propagate(m, rank, c, diff).Keys == m.Keys;
  }

  // ---------------------------------------------------------------- changes of place

  /** Lifts the container `c` and everything around it above the rank `k`. */
  ghost function Raised(m: Snapshot, rank: map<Item, nat>, c: Item, k: nat): map<Item, nat>
    requires Forest(m, rank) && c in m
  {
    map x | x in m :: if Within(m, rank, c, x) then rank[x] + k + 1 else rank[x]
  }

  lemma RaisedForest(m: Snapshot, rank: map<Item, nat>, c: Item, k: nat)
    requires Forest(m, rank) && c in m
    ensures var r := Raised(m, rank, c, k);
            && Forest(m, r) && r[c] > k && (Sound(m, rank) ==> Sound(m, r))
            && (forall x :: x in m && !Within(m, rank, c, x) ==> r[x] == rank[x])
  {
    var r := Raised(m, rank, c, k);
    forall x | x in m && m[x].parent != null
      ensures r[x] < r[m[x].parent]
    {
      if Within(m, rank, c, x) { WithinUp(m, rank, c, x); }
    }
  }

  ghost function PutFirst(m: Snapshot, c: Item, item: Item): Snapshot
    requires c in m && item in m
  {
    var n := m[item := m[item].(parent := c)];
    n[c := n[c].(list := [item] + n[c].list)]
  }

  lemma PutFirstForest(m: Snapshot, rank: map<Item, nat>, c: Item, item: Item)
    requires Forest(m, rank) && c in m && m[c].box && item in m && m[item].parent == null && rank[item] < rank[c]
    ensures Forest(PutFirst(m, c, item), rank)
  {
    var n := PutFirst(m, c, item);
    assert Lists(n) by { hide Down, Up; }
    assert Down(n) by {
      hide Lists, Up, Distinct;
      forall x, y | x in n && y in n[x].list
        ensures y in n && n[y].parent == x
      {
        if !(x == c && y == item) { assert y in m[x].list; }
      }
    }
    assert Up(n, rank) by {
      hide Lists, Down, Distinct;
      assert n[c].list[0] == item;
      assert forall y :: y in m[c].list ==> y in n[c].list;
    }
  }

  /** Only the list of `c` differs, and its contents weigh `diff` more. */
  lemma OneListChanges(m: Snapshot, n: Snapshot, c: Item, diff: int, rest: int)
    requires c in m && m.Keys == n.Keys && Weighed(m, null, 0, c, rest) && Closed(n)
    requires forall x :: x in m ==> n[x].Weight() == m[x].Weight() && n[x].total == m[x].total
    requires forall x :: x in m && x != c ==> n[x].list == m[x].list
    requires Sum(Weights(n, n[c].list)) == Sum(Weights(m, m[c].list)) + diff
    ensures Weighed(n, null, 0, c, rest + diff)
  {
    forall x | x in n
      ensures Owed(n, x, null, 0, c, rest + diff) == Sum(Weights(n, n[x].list))
    {
      assert Owed(m, x, null, 0, c, rest) == Sum(Weights(m, m[x].list));
      if x != c { assert Weights(n, n[x].list) == Weights(m, m[x].list); }
    }
  }

  lemma WeighedAlike(m: Snapshot, c: Item, off: int)
    requires Weighed(m, null, 0, c, off)
    ensures Weighed(m, c, off, null, 0)
    ensures off == 0 ==> Weighed(m, null, 0, null, 0)
  {
    assert forall x :: x in m ==> Owed(m, x, c, off, null, 0) == Owed(m, x, null, 0, c, off);
    assert off == 0 ==> forall x :: x in m ==> Owed(m, x, null, 0, null, 0) == Owed(m, x, null, 0, c, off);
  }

  lemma SoundHole(m: Snapshot, c: Item)
    requires Weighed(m, null, 0, null, 0)
    ensures Weighed(m, null, 0, c, 0)
  {
    assert forall x :: x in m ==> Owed(m, x, null, 0, null, 0) == Owed(m, x, null, 0, c, 0);
  }

  lemma PutFirstWeighed(m: Snapshot, rank: map<Item, nat>, c: Item, item: Item)
    requires Sound(m, rank) && c in m && m[c].box && item in m && m[item].parent == null && item != c
    ensures Weighed(PutFirst(m, c, item), c, m[item].Weight(), null, 0)
  {
    hide Weighed, Lists, Up;
    var n := PutFirst(m, c, item);
    SumPutFirst(m, n, m[c].list, item);
    SoundHole(m, c);
    OneListChanges(m, n, c, m[item].Weight(), 0);
    WeighedAlike(n, c, m[item].Weight());
  }

  lemma SumPutFirst(m: Snapshot, n: Snapshot, list: seq<Item>, item: Item)
    requires item in m && forall x :: x in list ==> x in m
    requires m.Keys == n.Keys && forall x :: x in m ==> n[x].Weight() == m[x].Weight()
    ensures forall x :: x in [item] + list ==> x in n
    ensures Sum(Weights(n, [item] + list)) == m[item].Weight() + Sum(Weights(m, list))
  {
    assert Weights(n, [item] + list)[1..] == Weights(m, list);
  }

  ghost function TakeOut(m: Snapshot, c: Item, i: nat): Snapshot
    requires c in m && i < |m[c].list| && m[c].list[i] in m
  {
    var n := m[m[c].list[i] := m[m[c].list[i]].(parent := null)];
    n[c := n[c].(list := n[c].list[..i] + n[c].list[i + 1..])]
  }

  lemma TakeOutForest(m: Snapshot, rank: map<Item, nat>, c: Item, i: nat)
    requires Forest(m, rank) && c in m && i < |m[c].list|
    ensures Forest(TakeOut(m, c, i), rank)
  {
    hide Lists, Down, Up, TakeOut, Distinct;
    FirstOf(m, rank, c, i);
    TakeOutLists(m, c, i);
    TakeOutLinks(m, rank, c, i);
  }

  /** What stands at an index of a list. */
  lemma FirstOf(m: Snapshot, rank: map<Item, nat>, c: Item, i: nat)
    requires Forest(m, rank) && c in m && i < |m[c].list|
    ensures m[c].list[i] in m && m[m[c].list[i]].parent == c && m[c].list[i] != c && Distinct(m[c].list) && m[c].box
  {
    assert m[c].list[i] in m[c].list;
  }

  lemma TakeOutLists(m: Snapshot, c: Item, i: nat)
    requires Lists(m) && c in m && i < |m[c].list| && m[c].list[i] in m && m[c].list[i] != c
    ensures Lists(TakeOut(m, c, i))
  {
    CutOut(m[c].list, i);
  }

  lemma TakeOutLinks(m: Snapshot, rank: map<Item, nat>, c: Item, i: nat)
    requires Down(m) && Up(m, rank) && c in m && i < |m[c].list| && m[c].list[i] in m && m[c].list[i] != c && Distinct(m[c].list)
    requires m[m[c].list[i]].parent == c
    ensures Down(TakeOut(m, c, i)) && Up(TakeOut(m, c, i), rank)
  {
    hide Distinct;
    CutOut(m[c].list, i);
  }

  lemma TakeOutWeighed(m: Snapshot, rank: map<Item, nat>, c: Item, i: nat)
    requires Forest(m, rank) && c in m && i < |m[c].list| && m[c].list[i] in m
    requires Weighed(m, null, 0, c, m[m[c].list[i]].Weight())
    ensures Weighed(TakeOut(m, c, i), null, 0, null, 0)
  {
    hide Weighed, Lists, Up;
    var item := m[c].list[i];
    var n := TakeOut(m, c, i);
    assert m[item].parent == c;
    SumTakeOut(m, n, m[c].list, i);
    OneListChanges(m, n, c, -m[item].Weight(), m[item].Weight());
    WeighedAlike(n, c, 0);
  }

  lemma SumTakeOut(m: Snapshot, n: Snapshot, list: seq<Item>, i: nat)
    requires i < |list| && forall x :: x in list ==> x in m
    requires m.Keys == n.Keys && forall x :: x in m ==> n[x].Weight() == m[x].Weight()
    ensures forall x :: x in list[..i] + list[i + 1..] ==> x in n
    ensures Sum(Weights(m, list)) == m[list[i]].Weight() + Sum(Weights(n, list[..i] + list[i + 1..]))
  {
    var ws := Weights(m, list);
    SumWithout(ws, i);
    assert Weights(n, list[..i] + list[i + 1..]) == ws[..i] + ws[i + 1..];
  }

  // ---------------------------------------------------------------- changes of one stack

  ghost function SetOwn(m: Snapshot, item: Item, own: int): Snapshot
    requires item in m
  {
    m[item := m[item].(own := own)]
  }

  /** A stack that changed its weight puts its container off by the difference. */
  lemma SetOwnWeighed(m: Snapshot, rank: map<Item, nat>, c: Item, item: Item, own: int)
    requires Sound(m, rank) && c in m && item in m[c].list
    ensures Forest(SetOwn(m, item, own), rank)
    ensures Weighed(SetOwn(m, item, own), c, own - m[item].own, null, 0)
  {
    var n := SetOwn(m, item, own);
    var diff := own - m[item].own;
    SameLinksForest(m, n, rank);
    assert Closed(n);
    forall x | x in n
      ensures Owed(n, x, c, diff, null, 0) == Sum(Weights(n, n[x].list))
    {
      WeightChanges(m, n, rank, item, diff, m[x].list);
      assert Owed(m, x, null, 0, null, 0) == Sum(Weights(m, m[x].list));
      assert item in m[x].list <==> x == c;
    }
  }

  /** Propagation changes nothing that ranks below where it starts. */
  lemma {:induction false} PropagateBelow(m: Snapshot, rank: map<Item, nat>, c: Item, diff: int, x: Item)
    requires Forest(m, rank) && c in m && x in m && rank[x] < rank[c]
    ensures Propagate(m, rank, c, diff)[x] == m[x]
    decreases Higher(m, rank, c)
  {
    var n := AddTotal(m, c, diff);
    SameLinksForest(m, n, rank);
    if m[c].parent != null {
      HigherShrinks(m, rank, c);
      assert Higher(n, rank, m[c].parent) == Higher(m, rank, m[c].parent);
      PropagateBelow(n, rank, m[c].parent, diff, x);
    }
  }

  /** Before a list change, a weight may be booked on both sides. */
  lemma WeighedBooked(m: Snapshot, c: Item, w: int)
    requires Weighed(m, null, 0, null, 0)
    ensures Weighed(m, c, -w, c, w)
  {
    assert forall x :: x in m ==> Owed(m, x, null, 0, null, 0) == Owed(m, x, c, -w, c, w);
  }

  // ---------------------------------------------------------------- whole operations

  /** Putting an item into a container, weights included. */
  ghost function Added(m: Snapshot, rank: map<Item, nat>, c: Item, item: Item): Snapshot
    requires Forest(m, rank) && c in m && m[c].box && item in m && m[item].parent == null && rank[item] < rank[c]
  {
    PutFirstForest(m, rank, c, item);
    Propagate(PutFirst(m, c, item), rank, c, m[item].Weight())
  }

  lemma AddedSound(m: Snapshot, rank: map<Item, nat>, c: Item, item: Item)
    requires Sound(m, rank) && c in m && m[c].box && item in m && m[item].parent == null && rank[item] < rank[c]
    ensures Sound(Added(m, rank, c, item), rank)
  {
    hide Lists, Down, Up, Weighed;
    PutFirstForest(m, rank, c, item);
    PutFirstWeighed(m, rank, c, item);
    PropagateWeighed(PutFirst(m, c, item), rank, c, m[item].Weight(), null, 0);
  }

  /** Taking the `i`-th item out: the weights first, as the source does, then the links. */
  lemma AddedTotals(m: Snapshot, rank: map<Item, nat>, c: Item, item: Item)
    requires Forest(m, rank) && c in m && m[c].box && item in m && m[item].parent == null && rank[item] < rank[c]
    ensures Totals(Added(m, rank, c, item)) == GrownBy(Totals(m), Around(m, rank, c), m[item].Weight())
  {
    hide Forest, Propagate, Around;
    var n := PutFirst(m, c, item);
    PutFirstForest(m, rank, c, item);
    PropagateTotals(n, rank, c, m[item].Weight());
    AroundSame(m, rank, n, rank, c);
    assert Totals(n) == Totals(m);
  }

  ghost function Removed(m: Snapshot, rank: map<Item, nat>, c: Item, i: nat): Snapshot
    requires Forest(m, rank) && c in m && m[c].box && i < |m[c].list|
  {
    TakeOut(Propagate(m, rank, c, -m[m[c].list[i]].Weight()), c, i)
  }

  lemma ListedBelow(m: Snapshot, rank: map<Item, nat>, c: Item, i: nat)
    requires Forest(m, rank) && c in m && i < |m[c].list|
    ensures var item := m[c].list[i];
            item in m && m[item].parent == c && rank[item] < rank[c]
  {
    var item := m[c].list[i];
    assert m[item].parent == c;
  }

  lemma RemovedSound(m: Snapshot, rank: map<Item, nat>, c: Item, i: nat)
    requires Sound(m, rank) && c in m && m[c].box && i < |m[c].list|
    ensures Sound(Removed(m, rank, c, i), rank)
  {
    hide Lists, Down, Up, Weighed, Propagate, TakeOut;
    ListedBelow(m, rank, c, i);
    var item := m[c].list[i];
    var w := m[item].Weight();
    var p := Propagate(m, rank, c, -w);
    WeighedBooked(m, c, w);
    PropagateWeighed(m, rank, c, -w, c, w);
    PropagateBelow(m, rank, c, -w, item);
    TakeOutForest(p, rank, c, i);
    TakeOutWeighed(p, rank, c, i);
  }

  /** Changing a stack inside a container. */
  lemma RemovedTotals(m: Snapshot, rank: map<Item, nat>, c: Item, i: nat)
    requires Forest(m, rank) && c in m && m[c].box && i < |m[c].list| && m[c].list[i] in m
    ensures Totals(Removed(m, rank, c, i)) == GrownBy(Totals(m), Around(m, rank, c), -m[m[c].list[i]].Weight())
  {
    hide Forest, Propagate, Around;
    var n := Propagate(m, rank, c, -m[m[c].list[i]].Weight());
    PropagateTotals(m, rank, c, -m[m[c].list[i]].Weight());
    assert Totals(TakeOut(n, c, i)) == Totals(n);
  }

  ghost function Restacked(m: Snapshot, rank: map<Item, nat>, c: Item, item: Item, own: int): Snapshot
    requires Forest(m, rank) && c in m && m[c].box && item in m[c].list
  {
    SameLinksForest(m, SetOwn(m, item, own), rank);
    Propagate(SetOwn(m, item, own), rank, c, own - m[item].own)
  }

  lemma RestackedSound(m: Snapshot, rank: map<Item, nat>, c: Item, item: Item, own: int)
    requires Sound(m, rank) && c in m && m[c].box && item in m[c].list
    ensures Sound(Restacked(m, rank, c, item, own), rank)
  {
    hide Weighed;
    SetOwnWeighed(m, rank, c, item, own);
    PropagateWeighed(SetOwn(m, item, own), rank, c, own - m[item].own, null, 0);
  }

  // ---------------------------------------------------------------- coming and going

  lemma RestackedTotals(m: Snapshot, rank: map<Item, nat>, c: Item, item: Item, own: int)
    requires Forest(m, rank) && c in m && m[c].box && item in m[c].list && item in m
    ensures Totals(Restacked(m, rank, c, item, own)) == GrownBy(Totals(m), Around(m, rank, c), own - m[item].own)
  {
    hide Forest, Propagate, Around;
    var n := SetOwn(m, item, own);
    SameLinksForest(m, n, rank);
    PropagateTotals(n, rank, c, own - m[item].own);
    AroundSame(m, rank, n, rank, c);
    assert Totals(n) == Totals(m);
  }

  lemma NewcomerForest(m: Snapshot, rank: map<Item, nat>, item: Item, e: Entry)
    requires Forest(m, rank) && item !in m && e.parent == null && e.list == []
    ensures Forest(m[item := e], rank[item := 0])
  {
  }

  lemma LeaverForest(m: Snapshot, rank: map<Item, nat>, item: Item)
    requires Forest(m, rank) && item in m && m[item].parent == null && m[item].list == []
    ensures Forest(m - {item}, rank) && forall x :: x in m ==> item !in m[x].list
  {
  }

  lemma NewcomerSound(m: Snapshot, rank: map<Item, nat>, item: Item, e: Entry)
    requires Sound(m, rank) && item !in m && e.parent == null && e.list == [] && e.total == 0
    ensures Sound(m[item := e], rank[item := 0])
  {
    hide Forest, Distinct;
    var n := m[item := e];
    NewcomerForest(m, rank, item, e);
    ForestClosed(n, rank[item := 0]);
    forall x | x in n
      ensures Owed(n, x, null, 0, null, 0) == Sum(Weights(n, n[x].list))
    {
      if x != item {
        assert Owed(m, x, null, 0, null, 0) == Sum(Weights(m, m[x].list));
        assert Weights(n, n[x].list) == Weights(m, m[x].list);
      }
    }
  }

  lemma LeaverSound(m: Snapshot, rank: map<Item, nat>, item: Item)
    requires Sound(m, rank) && item in m && m[item].parent == null && m[item].list == []
    ensures Sound(m - {item}, rank)
  {
    hide Forest, Distinct;
    var n := m - {item};
    LeaverForest(m, rank, item);
    ForestClosed(n, rank);
    forall x | x in n
      ensures Owed(n, x, null, 0, null, 0) == Sum(Weights(n, n[x].list))
    {
      assert Owed(m, x, null, 0, null, 0) == Sum(Weights(m, m[x].list));
      assert Weights(n, n[x].list) == Weights(m, m[x].list);
    }
  }

  // ---------------------------------------------------------------- what there is of an id

  /** What conservation counts of an object: its id, its count, and whether it lies in a container. */
  datatype Stack = Stack(id: nat, count: nat, placed: bool)
  {
    function Of(id: nat): nat { if placed && this.id == id then count else 0 }
  }

  ghost function Stacks(s: set<Item>): (m: map<Item, Stack>)
    reads s
    ensures m.Keys == s
  {
    map x | x in s :: Stack(x.id, x.count, x.parent != null)
  }

  /** The number of pieces of `id` lying in containers. */
  ghost function Amount(m: map<Item, Stack>, id: nat): nat {
    if m == map[] then 0
    else
      var x :| x in m;
      m[x].Of(id) + Amount(m - {x}, id)
  }

  lemma {:induction false} AmountSplit(m: map<Item, Stack>, x: Item, id: nat)
    requires x in m
    ensures Amount(m, id) == m[x].Of(id) + Amount(m - {x}, id)
    decreases |m|
  {
    var y :| y in m && Amount(m, id) == m[y].Of(id) + Amount(m - {y}, id);
    if x != y {
      AmountSplit(m - {y}, x, id);
      AmountSplit(m - {x}, y, id);
      assert m - {y} - {x} == m - {x} - {y};
    }
  }

  /** Changing one object changes the amounts by what that object holds. */
  lemma AmountChanges(m: map<Item, Stack>, n: map<Item, Stack>, x: Item, id: nat)
    requires x in n && n == m[x := n[x]]
    ensures Amount(n, id) == Amount(m, id) - (if x in m then m[x].Of(id) else 0) + n[x].Of(id)
  {
    AmountSplit(n, x, id);
    if x in m {
      AmountSplit(m, x, id);
      assert m - {x} == n - {x};
    } else {
      assert m == n - {x};
    }
  }

  // ---------------------------------------------------------------- replacing an item

  /** `item` takes the place of the `i`-th item of `c`. */
  ghost function SwapAt(m: Snapshot, c: Item, i: nat, item: Item): Snapshot
    requires c in m && i < |m[c].list| && m[c].list[i] in m && item in m
  {
    var out := m[c].list[i];
    var n := m[out := m[out].(parent := null)][item := m[item].(parent := c)];
    n[c := n[c].(list := n[c].list[i := item])]
  }

  lemma SwapAtForest(m: Snapshot, rank: map<Item, nat>, c: Item, i: nat, item: Item)
    requires Forest(m, rank) && c in m && i < |m[c].list| && item in m && m[item].parent == null && rank[item] < rank[c]
    ensures m[c].list[i] in m && m[c].list[i] != item && Forest(SwapAt(m, c, i, item), rank)
  {
    hide Lists, Down, Up, SwapAt, Distinct;
    FirstOf(m, rank, c, i);
    NotListed(m, rank, c, item);
    SwapAtLists(m, c, i, item);
    SwapAtLinks(m, rank, c, i, item);
  }

  lemma NotListed(m: Snapshot, rank: map<Item, nat>, c: Item, item: Item)
    requires Forest(m, rank) && c in m && item in m && m[item].parent == null
    ensures item !in m[c].list
  {
  }

  lemma SwapAtLists(m: Snapshot, c: Item, i: nat, item: Item)
    requires Lists(m) && c in m && i < |m[c].list| && m[c].list[i] in m && m[c].list[i] != c && item in m && item !in m[c].list
    requires m[c].box
    ensures Lists(SwapAt(m, c, i, item))
  {
    Swapped(m[c].list, i, item);
  }

  lemma SwapAtLinks(m: Snapshot, rank: map<Item, nat>, c: Item, i: nat, item: Item)
    requires Down(m) && Up(m, rank) && c in m && i < |m[c].list| && m[c].list[i] in m && m[c].list[i] != c && Distinct(m[c].list)
    requires m[m[c].list[i]].parent == c && item in m && item !in m[c].list && m[item].parent == null && rank[item] < rank[c]
    ensures Down(SwapAt(m, c, i, item)) && Up(SwapAt(m, c, i, item), rank)
  {
    hide Distinct;
    Swapped(m[c].list, i, item);
  }

  lemma Swapped(list: seq<Item>, i: nat, x: Item)
    requires Distinct(list) && i < |list|
    ensures x !in list ==> Distinct(list[i := x])
    ensures forall y :: y in list[i := x] <==> y == x || (y in list && y != list[i])
  {
    var after := list[i := x];
    assert after[i] == x;
    forall y | y in list && y != list[i]
      ensures y in after
    {
      var k :| 0 <= k < |list| && list[k] == y;
      assert after[k] == y;
    }
  }

  lemma SwapAtWeighed(m: Snapshot, rank: map<Item, nat>, c: Item, i: nat, item: Item)
    requires Sound(m, rank) && c in m && i < |m[c].list| && m[c].list[i] in m
    requires item in m && m[item].parent == null && rank[item] < rank[c]
    ensures Weighed(SwapAt(m, c, i, item), c, m[item].Weight() - m[m[c].list[i]].Weight(), null, 0)
  {
    hide Weighed, Lists, Down, Up;
    SwapAtForest(m, rank, c, i, item);
    ForestClosed(SwapAt(m, c, i, item), rank);
    ForestClosed(m, rank);
    var n := SwapAt(m, c, i, item);
    var diff := m[item].Weight() - m[m[c].list[i]].Weight();
    SumSwap(m, n, m[c].list, i, item);
    SoundHole(m, c);
    OneListChanges(m, n, c, diff, 0);
    WeighedAlike(n, c, diff);
  }

  lemma SumSwap(m: Snapshot, n: Snapshot, list: seq<Item>, i: nat, item: Item)
    requires i < |list| && item in m && forall x :: x in list ==> x in m
    requires m.Keys == n.Keys && forall x :: x in m ==> n[x].Weight() == m[x].Weight()
    ensures forall x :: x in list[i := item] ==> x in n
    ensures Sum(Weights(n, list[i := item])) == Sum(Weights(m, list)) + (m[item].Weight() - m[list[i]].Weight())
  {
    var before, after := Weights(m, list), Weights(n, list[i := item]);
    var diff := m[item].Weight() - m[list[i]].Weight();
    assert after == before[i := before[i] + diff];
    SumChanges(before, after, i, diff);
  }

  lemma ForestClosed(m: Snapshot, rank: map<Item, nat>)
    requires Forest(m, rank)
    ensures Closed(m)
  {
  }

  ghost function Replaced(m: Snapshot, rank: map<Item, nat>, c: Item, i: nat, item: Item): Snapshot
    requires Forest(m, rank) && c in m && i < |m[c].list| && item in m && m[item].parent == null && rank[item] < rank[c]
  {
    SwapAtForest(m, rank, c, i, item);
    Propagate(SwapAt(m, c, i, item), rank, c, m[item].Weight() - m[m[c].list[i]].Weight())
  }

  lemma ReplacedSound(m: Snapshot, rank: map<Item, nat>, c: Item, i: nat, item: Item)
    requires Sound(m, rank) && c in m && m[c].box && i < |m[c].list|
    requires item in m && m[item].parent == null && rank[item] < rank[c]
    ensures m[c].list[i] in m && Sound(Replaced(m, rank, c, i, item), rank)
  {
    hide Weighed, Lists, Down, Up;
    SwapAtForest(m, rank, c, i, item);
    SwapAtWeighed(m, rank, c, i, item);
    PropagateWeighed(SwapAt(m, c, i, item), rank, c, m[item].Weight() - m[m[c].list[i]].Weight(), null, 0);
  }

  lemma ReplacedTotals(m: Snapshot, rank: map<Item, nat>, c: Item, i: nat, item: Item)
    requires Forest(m, rank) && c in m && m[c].box && i < |m[c].list| && m[c].list[i] in m
    requires item in m && m[item].parent == null && rank[item] < rank[c]
    ensures Totals(Replaced(m, rank, c, i, item)) == GrownBy(Totals(m), Around(m, rank, c), m[item].Weight() - m[m[c].list[i]].Weight())
  {
    hide Forest, Propagate, Around;
    var n := SwapAt(m, c, i, item);
    ListedBelow(m, rank, c, i);
    SwapAtForest(m, rank, c, i, item);
    PropagateTotals(n, rank, c, m[item].Weight() - m[m[c].list[i]].Weight());
    AroundSame(m, rank, n, rank, c);
    assert Totals(n) == Totals(m);
  }
}
