/** ConditionDamage: a damage amount split into a falling list of hits, and the hits dealt. */
module DamageList {
  import opened Basics
  import opened Sequences

  function Fabs(x: real): real { if x < 0.0 then -x else x }

  /** The hits never grow, and lie between 1 and `start`. */
  ghost predicate Falling(list: seq<int>, start: int) {
    && (forall i :: 0 <= i < |list| ==> 1 <= list[i] <= start)
    && (forall i, j :: 0 <= i < j < |list| ==> list[i] >= list[j])
  }

  // ---------------------------------------------------------------- the comparison

  /** How far `sum` is off `med`, relative to `med`. */
  function Off(sum: int, med: int): real
    requires med > 0
  {
    Fabs(1.0 - sum as real / med as real)
  }

  lemma Scaled(sum: int, med: int)
    requires med > 0
    ensures Off(sum, med) * med as real == Abs(med - sum) as real
  {
    var x := sum as real / med as real;
    assert x * med as real == sum as real;
    assert (1.0 - x) * med as real == med as real - sum as real;
    if 1.0 - x < 0.0 {
      assert -(1.0 - x) * med as real == sum as real - med as real;
      Sign(1.0 - x, med as real);
    } else {
      Sign(1.0 - x, med as real);
    }
  }

  lemma Sign(x: real, y: real)
    requires y > 0.0
    ensures x < 0.0 <==> x * y < 0.0
  {
    if x < 0.0 { assert x * y < 0.0; }
    if x >= 0.0 { assert x * y >= 0.0; }
  }

  lemma SameOrder(a: real, b: real, m: real, p: real, q: real)
    requires m > 0.0 && a * m == p && b * m == q
    ensures a < b <==> p < q
  {
    Sign(a - b, m);
    assert (a - b) * m == a * m - b * m;
  }

  /** Another hit of `i` brings the sum closer exactly when more than half of it is missing. */
  lemma CloserIff(sum: int, i: int, med: int)
    requires med > 0 && i > 0
    ensures Off(sum + i, med) < Off(sum, med) <==> 2 * (med - sum) > i
  {
    hide Off, Fabs;
    Scaled(sum + i, med);
    Scaled(sum, med);
    var p, q := Abs(med - (sum + i)), Abs(med - sum);
    SameOrder(Off(sum + i, med), Off(sum, med), med as real, p as real, q as real);
    assert p < q <==> 2 * (med - sum) > i;
  }

  // ---------------------------------------------------------------- the targets

  /** What the hits down to `i` should sum up to. */
  function Target(amount: int, start: int, i: int): int
    requires start > 0
  {
    ((start + 1 - i) * amount) / start
  }

  /** The targets rise from round to round, from at least 1 to the amount. */
  lemma TargetRises(amount: int, start: int, i: int)
    requires 0 < start < amount && 1 <= i <= start
    ensures i == start ==> Target(amount, start, i) >= 1
    ensures i < start ==> Target(amount, start, i) > Target(amount, start, i + 1)
    ensures i == 1 ==> Target(amount, start, i) == amount
  {
    var k := start + 1 - i;
    if i == start {
      Quotient(amount, 1, start);
    }
    if i < start {
      Next(amount, start, k - 1);
    }
    if i == 1 {
      Whole(amount, start);
    }
  }

  lemma Next(amount: int, start: int, k: int)
    requires 0 < start < amount
    ensures ((k + 1) * amount) / start > (k * amount) / start
  {
    var n := k * amount;
    assert (k + 1) * amount == n + amount;
    var q := n / start;
    assert n == q * start + n % start;
    assert (q + 1) * start == q * start + start;
    Quotient(n + amount, q + 1, start);
  }

  lemma Whole(amount: int, start: int)
    requires start > 0
    ensures (start * amount) / start == amount
  {
    var n := start * amount;
    var q := n / start;
    assert n == q * start + n % start;
    Quotient(n, amount, start);
    assert (amount + 1 - q) * start == n - q * start + start;
    PositiveFactor(amount + 1 - q, start);
  }

  lemma Quotient(n: int, q: int, start: int)
    requires start > 0 && n >= q * start
    ensures n / start >= q
  {
    var r := n / start;
    assert n == r * start + n % start;
    assert (r + 1 - q) * start == r * start + start - q * start;
    PositiveFactor(r + 1 - q, start);
  }

  lemma PositiveFactor(x: int, y: int)
    requires y > 0 && x * y > 0
    ensures x > 0
  {
  }

  lemma TargetPositive(amount: int, start: int, i: int)
    requires 0 < start < amount && 1 <= i <= start
    ensures Target(amount, start, i) >= 1
    decreases start - i
  {
    TargetRises(amount, start, i);
    if i < start { TargetPositive(amount, start, i + 1); }
  }

  // ---------------------------------------------------------------- what singles out the list

  /** The hits of a list that are at least `i`. */
  ghost function AtLeast(list: seq<int>, i: int): seq<int> {
    if list == [] then []
    else (if list[0] >= i then [list[0]] else []) + AtLeast(list[1..], i)
  }

  /** The hits from `start` down to `i` sum up to the share of the amount that is due by then, as closely
      as hits of `i` allow, and no hit of `i` is dealt when just half of it is missing. */
  ghost predicate Shared(list: seq<int>, amount: int, start: int, i: int)
    requires start > 0
  {
    var missing := Sum(AtLeast(list, i)) - ((start + 1 - i) * amount) / start;
    -i <= 2 * missing <= i && (i in list ==> 2 * missing < i)
  }

  /** At every height from `start` down to 1. */
  ghost predicate Fair(list: seq<int>, amount: int, start: int)
    requires start > 0
  {
    forall i :: 1 <= i <= start ==> Shared(list, amount, start, i)
  }

  ghost function Copies(n: nat, x: int): seq<int> {
    seq(n, k => x)
  }

  lemma AtLeastStep(x: int, list: seq<int>, i: int)
    ensures AtLeast([x] + list, i) == (if x >= i then [x] else []) + AtLeast(list, i)
  {
  }

  lemma {:induction false} AtLeastJoin(a: seq<int>, b: seq<int>, i: int)
    ensures AtLeast(a + b, i) == AtLeast(a, i) + AtLeast(b, i)
  {
    if a == [] {
      assert a + b == b && AtLeast([], i) + AtLeast(b, i) == AtLeast(b, i);
    } else {
      assert a + b == [a[0]] + (a[1..] + b);
      AtLeastStep(a[0], a[1..] + b, i);
      AtLeastStep(a[0], a[1..], i);
      assert a == [a[0]] + a[1..];
      AtLeastJoin(a[1..], b, i);
    }
  }

  lemma {:induction false} AllAtLeast(list: seq<int>, i: int)
    requires forall k :: 0 <= k < |list| ==> list[k] >= i
    ensures AtLeast(list, i) == list
  {
    if list != [] {
      assert list == [list[0]] + list[1..];
      AllAtLeast(list[1..], i);
    }
  }

  lemma {:induction false} NoneAtLeast(list: seq<int>, i: int)
    requires forall k :: 0 <= k < |list| ==> list[k] < i
    ensures AtLeast(list, i) == []
  {
    if list != [] {
      NoneAtLeast(list[1..], i);
    }
  }

  /** Hits below `i` do not matter at `i`. */
  lemma SharedOn(list: seq<int>, more: seq<int>, amount: int, start: int, i: int)
    requires start > 0 && Shared(list, amount, start, i) && forall k :: 0 <= k < |more| ==> more[k] < i
    ensures Shared(list + more, amount, start, i)
  {
    AtLeastJoin(list, more, i);
    NoneAtLeast(more, i);
    assert AtLeast(list + more, i) == AtLeast(list, i);
    assert i in list + more <==> i in list;
  }

  lemma FallTail(list: seq<int>, start: int)
    requires Falling(list, start) && list != []
    ensures list == [list[0]] + list[1..] && Falling(list[1..], start)
    ensures forall k :: 0 <= k < |list| ==> list[k] <= list[0]
    ensures forall k :: 0 <= k < |list| - 1 ==> list[1..][k] <= list[0]
  {
  }

  /** A falling list has its hits of `i` right behind the larger ones. */
  lemma {:induction false} Layer(list: seq<int>, start: int, i: int) returns (n: nat)
    requires Falling(list, start)
    ensures AtLeast(list, i) == AtLeast(list, i + 1) + Copies(n, i) && (n > 0 <==> i in list)
  {
    hide Falling;
    if list != [] { FallTail(list, start); }
    if list == [] || list[0] < i {
      NoneAtLeast(list, i);
      NoneAtLeast(list, i + 1);
      n := 0;
    } else {
      var rest := list[1..];
      n := Layer(rest, start, i);
      if list[0] == i {
        NoneAtLeast(rest, i + 1);
        NoneAtLeast(list, i + 1);
        assert AtLeast(list, i) == [i] + Copies(n, i) == Copies(n + 1, i);
        n := n + 1;
      } else {
        assert AtLeast(list, i) == [list[0]] + (AtLeast(rest, i + 1) + Copies(n, i)) == AtLeast(list, i + 1) + Copies(n, i);
      }
    }
  }

  lemma {:induction false} SumCopies(list: seq<int>, n: nat, x: int)
    ensures Sum(list + Copies(n, x)) == Sum(list) + n * x
  {
    if n == 0 {
      assert list + Copies(0, x) == list;
    } else {
      SumCopies(list, n - 1, x);
      SumSnoc(list + Copies(n - 1, x), x);
      assert list + Copies(n, x) == list + Copies(n - 1, x) + [x];
      assert n * x == (n - 1) * x + x;
    }
  }

  /** Not more than one number of hits brings a sum as close as that. */
  lemma OneNumber(sum: int, med: int, i: int, n: nat, k: nat)
    requires i > 0 && -i <= 2 * (sum + n * i - med) && (k > 0 ==> 2 * (sum + k * i - med) < i)
    ensures k <= n
  {
    if n < k { More(n, k, i); }
  }

  lemma More(n: nat, k: nat, i: int)
    requires i > 0 && n < k
    ensures k * i >= n * i + i
  {
    assert k * i == n * i + (k - n) * i;
    Product(k - n, i);
  }

  lemma Product(d: int, i: int)
    requires d >= 1 && i > 0
    ensures d * i >= i
  {
  }

  /** Two falling lists that are fair agree down to every height. */
  lemma {:induction false} SameDownTo(a: seq<int>, b: seq<int>, amount: int, start: int, i: int)
    requires start > 0 && Falling(a, start) && Falling(b, start) && Fair(a, amount, start) && Fair(b, amount, start)
    requires 1 <= i <= start + 1
    ensures AtLeast(a, i) == AtLeast(b, i)
    decreases start - i
  {
    if i == start + 1 {
      NoneAtLeast(a, i);
      NoneAtLeast(b, i);
    } else {
      SameDownTo(a, b, amount, start, i + 1);
      var n := Layer(a, start, i);
      var k := Layer(b, start, i);
      SumCopies(AtLeast(a, i + 1), n, i);
      SumCopies(AtLeast(a, i + 1), k, i);
      assert Shared(a, amount, start, i) && Shared(b, amount, start, i);
      var sum, med := Sum(AtLeast(a, i + 1)), ((start + 1 - i) * amount) / start;
      OneNumber(sum, med, i, n, k);
      OneNumber(sum, med, i, k, n);
    }
  }

  /** There is only one falling list of fair hits. */
  lemma OnlyOne(a: seq<int>, b: seq<int>, amount: int, start: int)
    requires start > 0 && Falling(a, start) && Falling(b, start) && Fair(a, amount, start) && Fair(b, amount, start)
    ensures a == b
  {
    SameDownTo(a, b, amount, start, 1);
    AllAtLeast(a, 1);
    AllAtLeast(b, 1);
  }

  /** An amount of 3 from 2 on is dealt in three hits of 1. */
  lemma ThreeFromTwo(list: seq<int>)
    ensures Falling(list, 2) && Fair(list, 3, 2) <==> list == [1, 1, 1]
  {
    hide AtLeast, Sum, Shared;
    OnesShared();
    assert Fair([1, 1, 1], 3, 2);
    if Falling(list, 2) && Fair(list, 3, 2) {
      OnlyOne(list, [1, 1, 1], 3, 2);
    }
  }

  lemma OnesShared()
    ensures Shared([1, 1, 1], 3, 2, 1) && Shared([1, 1, 1], 3, 2, 2)
  {
    hide AtLeast;
    var ones := [1, 1, 1];
    AllAtLeast(ones, 1);
    NoneAtLeast(ones, 2);
    SumCopies([], 3, 1);
    assert [] + Copies(3, 1) == ones;
  }

  // ---------------------------------------------------------------- splitting

  lemma FallOn(list: seq<int>, i: int, start: int)
    requires Falling(list, start) && 1 <= i <= start && forall x :: x in list ==> x >= i
    ensures Falling(list + [i], start) && forall x :: x in list + [i] ==> x >= i
  {
    assert forall j :: 0 <= j < |list| ==> list[j] in list;
  }

  lemma CopiesSnoc(list: seq<int>, n: nat, x: int)
    ensures list + Copies(n + 1, x) == list + Copies(n, x) + [x]
  {
  }

  /** The inner loop: hits of `i` while they bring the sum closer to the target. */
  method AddHits(i: int, med: int, sum0: int, list0: seq<int>, start: int) 
    returns (sum: int, list: seq<int>, ghost n: nat)
    requires med > 0 && 1 <= i <= start && sum0 == Sum(list0) && Falling(list0, start) && (forall x :: x in list0 ==> x >= i)
    requires 2 * (sum0 - med) <= i
    ensures sum == Sum(list) && Falling(list, start) && (forall x :: x in list ==> x >= i)
    ensures -i <= 2 * (sum - med) <= i && (list != list0 ==> 2 * (sum - med) < i)
    ensures list == list0 + Copies(n, i)
  {
    hide Off, Sum, Falling;
    sum, list, n := sum0, list0, 0;
    assert list == list0 + Copies(0, i);
    var x1, x2 := Off(sum + i, med), Off(sum, med);
    CloserIff(sum, i, med);
    while x1 < x2
      invariant sum == Sum(list) && Falling(list, start) && (forall x :: x in list ==> x >= i)
      invariant list == list0 + Copies(n, i) && 2 * (sum - med) <= i && (n > 0 ==> 2 * (sum - med) < i)
      invariant x1 < x2 <==> 2 * (med - sum) > i
      decreases med - sum + i
    {
      SumSnoc(list, i);
      FallOn(list, i, start);
      CopiesSnoc(list0, n, i);
      sum := sum + i;
      list := list + [i];
      n := n + 1;
      x1, x2 := Off(sum + i, med), Off(sum, med);
      CloserIff(sum, i, med);
    }
  }

  /** After a round the shares down to its height are right. */
  lemma SharedNow(larger: seq<int>, n: nat, list: seq<int>, amount: int, start: int, i: int)
    requires 1 <= i <= start && (forall x :: x in list ==> x >= i) && list == larger + Copies(n, i)
    requires forall j :: i < j <= start ==> Shared(larger, amount, start, j)
    requires forall x :: x in larger ==> x >= i + 1
    requires var missing := Sum(list) - ((start + 1 - i) * amount) / start;
             -i <= 2 * missing <= i && (list != larger ==> 2 * missing < i)
    ensures forall j :: i <= j <= start ==> Shared(list, amount, start, j)
  {
    forall j | i < j <= start
      ensures Shared(list, amount, start, j)
    {
      SharedOn(larger, Copies(n, i), amount, start, j);
    }
    assert forall k :: 0 <= k < |list| ==> list[k] in list;
    AllAtLeast(list, i);
    assert Shared(list, amount, start, i);
  }

  /** ConditionDamage::generateDamageList in exact arithmetic: a single hit of `start` when that is
      enough, and otherwise the one fair list of hits from `start` down, which sum up to just the amount. */
  method GenerateDamageList(amount0: int, start0: int) returns (list: seq<int>)
    ensures var amount, start := Abs(amount0), Abs(start0);
            && (start >= amount ==> list == [start])
            && (0 < start < amount ==> Falling(list, start) && Fair(list, amount, start) && Sum(list) == amount)
            && (start == 0 < amount ==> list == [])
  {
    var amount, start := Abs(amount0), Abs(start0);
    if start >= amount {
      return [start];
    }
    list := [];
    var sum, med := 0, 0;
    var i: int := start;
    while i > 0
      invariant 0 <= i <= start && sum == Sum(list) && Falling(list, start) && (forall x :: x in list ==> x >= i + 1)
      invariant i < start ==> med == Target(amount, start, i + 1) && -(i + 1) <= 2 * (sum - med) <= i + 1
      invariant i == start ==> list == []
      invariant forall j :: i < j <= start ==> Shared(list, amount, start, j)
    {
      ghost var larger := list;
      TargetRises(amount, start, i);
      TargetPositive(amount, start, i);
      med := ((start + 1 - i) * amount) / start;
      ghost var n;
      sum, list, n := AddHits(i, med, sum, list, start);
      SharedNow(larger, n, list, amount, start, i);
      i := i - 1;
    }
    if start > 0 {
      TargetRises(amount, start, 1);
    }
  }

  // ---------------------------------------------------------------- the condition

  datatype IntervalInfo = IntervalInfo(timeLeft: int, value: int, interval: int)

  /** The hits of a list as positive numbers. */
  ghost function Hits(list: seq<IntervalInfo>): (hits: seq<int>)
    ensures |hits| == |list|
  {
    seq(|list|, i requires 0 <= i < |list| => -list[i].value)
  }

  function Repeated(n: nat, x: IntervalInfo): seq<IntervalInfo> {
    seq(n, i => x)
  }

  lemma HitsSnoc(list: seq<IntervalInfo>, x: IntervalInfo)
    ensures Hits(list + [x]) == Hits(list) + [-x.value]
  {
  }

  lemma FirstIsDealt(list: seq<int>, start: nat, amount: nat)
    requires amount > 0
    requires start >= amount ==> list == [start]
    requires 0 < start < amount ==> Falling(list, start) && Fair(list, amount, start) && Sum(list) == amount
    requires start == 0 < amount ==> list == []
    ensures list != [] <==> start > 0
    ensures list != [] ==> Falling(list, start) && Sum(list) == if start >= amount then start else amount
  {
    if start >= amount {
      SumSnoc([], start);
      assert [] + [start as int] == [start];
    }
  }

  class ConditionDamage {
    var ticks: int
    var minDamage: nat
    var maxDamage: nat
    var startDamage: nat
    var periodDamage: int
    var tickInterval: nat
    var damageList: seq<IntervalInfo>

    constructor ()
      ensures ticks == 0 && minDamage == maxDamage == startDamage == 0 && periodDamage == 0 && tickInterval == 2000 && damageList == []
    {
      ticks, minDamage, maxDamage, startDamage, periodDamage, tickInterval, damageList := 0, 0, 0, 0, 0, 2000, [];
    }

    /** ConditionDamage::addDamage: `rounds` equal entries, and their time added to the ticks unless
        the condition runs forever. */
    method AddDamage(rounds: int, time: int, value: int) returns (ok: bool)
      requires ticks >= -1 && (rounds > 0 ==> time >= 0)
      modifies this`ticks, this`tickInterval, this`periodDamage, this`damageList
      ensures rounds == -1 ==> ok && tickInterval == Abs(time) && ticks == -1 && periodDamage == value && damageList == old(damageList)
      ensures rounds != -1 ==> tickInterval == old(tickInterval) && periodDamage == old(periodDamage) && ok == (periodDamage <= 0)
      ensures rounds != -1 && !ok ==> damageList == old(damageList) && ticks == old(ticks)
      ensures rounds != -1 && ok ==>
                && damageList == old(damageList) + Repeated(if rounds > 0 then rounds else 0, IntervalInfo(time, value, time))
                && ticks == (if old(ticks) == -1 || rounds <= 0 then old(ticks) else old(ticks) + rounds * time)
    {
      if rounds == -1 {
        tickInterval, ticks, periodDamage := Abs(time), -1, value;
        return true;
      }
      if periodDamage > 0 {
        return false;
      }
      var i := 0;
      while i < rounds
        invariant 0 <= i && (i == 0 || i <= rounds)
        invariant damageList == old(damageList) + Repeated(i, IntervalInfo(time, value, time))
        invariant periodDamage == old(periodDamage) && tickInterval == old(tickInterval)
        invariant ticks == (if old(ticks) == -1 then -1 else old(ticks) + i * time)
      {
        assert (i + 1) * time == i * time + time && i * time >= 0;
        damageList := damageList + [IntervalInfo(time, value, time)];
        if ticks != -1 {
          ticks := ticks + time;
        }
        i := i + 1;
      }
      return true;
    }

    /** The first hit that init settles on: the one asked for, or else a twentieth, rounded up, but never
        more than the largest damage. */
    function Start(amount: nat): (start: nat)
      reads this
      ensures amount > 0 && 0 < startDamage <= maxDamage ==> start == startDamage
      ensures startDamage > maxDamage ==> start == maxDamage
      ensures amount > 0 && startDamage == 0 ==> 20 * (start - 1) < amount <= 20 * start
    {
      if startDamage > maxDamage then maxDamage
      else if startDamage == 0 then (if (amount + 19) / 20 > 1 then (amount + 19) / 20 else 1)
      else startDamage
    }

    /** ConditionDamage::init, for the `amount` that was drawn between the two bounds.  The list it
        makes deals the whole amount, or a single larger hit, and lasts one interval per hit. */
    method Init(amount: nat) returns (ok: bool)
      requires minDamage <= amount <= maxDamage || maxDamage <= amount <= minDamage
      modifies this`ticks, this`startDamage, this`tickInterval, this`periodDamage, this`damageList
      ensures periodDamage == old(periodDamage) && tickInterval == old(tickInterval)
      ensures old(periodDamage) != 0 || old(damageList) != [] ==> ok && unchanged(this)
      ensures old(periodDamage) == 0 && old(damageList) == [] ==>
                && ok == (damageList != []) && ticks == |damageList| * tickInterval
                && (amount == 0 ==> !ok)
                && (amount > 0 ==>
                      && startDamage == old(Start(amount)) && (ok <==> startDamage > 0)
                      && (ok ==> Falling(Hits(damageList), startDamage)
                                 && Sum(Hits(damageList)) == if startDamage >= amount then startDamage else amount)
                      && (0 < startDamage < amount ==> Fair(Hits(damageList), amount, startDamage)))
    {
      if periodDamage != 0 {
        return true;
      }
      if damageList != [] {
        return true;
      }
      ticks := 0;
      if amount == 0 {
        return false;
      }
      if startDamage > maxDamage {
        startDamage := maxDamage;
      } else if startDamage == 0 {
        startDamage := if (amount + 19) / 20 > 1 then (amount + 19) / 20 else 1;
      }
      var list := GenerateDamageList(amount, startDamage);
      AddHitList(list);
      FirstIsDealt(list, startDamage, amount);
      return damageList != [];
    }

    /** The loop of init over the generated list. */
    method AddHitList(list: seq<int>)
      requires periodDamage == 0 && damageList == [] && ticks == 0
      modifies this`ticks, this`tickInterval, this`periodDamage, this`damageList
      ensures periodDamage == 0 && tickInterval == old(tickInterval)
      ensures Hits(damageList) == list && ticks == |damageList| * tickInterval
    {
      for i := 0 to |list|
        invariant periodDamage == 0 && tickInterval == old(tickInterval)
        invariant Hits(damageList) == list[..i] && ticks == i * tickInterval >= 0
      {
        var info := IntervalInfo(tickInterval, -list[i], tickInterval);
        HitsSnoc(damageList, info);
        assert list[..i + 1] == list[..i] + [list[i]] && (i + 1) * tickInterval == i * tickInterval + tickInterval;
        assert Repeated(1, info) == [info];
        var added := AddDamage(1, tickInterval, -list[i]);
      }
      assert list[..|list|] == list;
    }

    /** The list part of ConditionDamage::executeCondition: the first hit is dealt when its time is
        up, and leaves the list unless the condition runs forever. */
    method ExecuteList(interval: int) returns (dealt: int)
      requires periodDamage == 0 && damageList != []
      modifies this`damageList
      ensures old(damageList[0].timeLeft) > interval ==> dealt == 0 && Hits(damageList) == Hits(old(damageList))
      ensures old(damageList[0].timeLeft) <= interval ==> dealt == Hits(old(damageList))[0]
      ensures ticks != -1 ==> dealt + Sum(Hits(damageList)) == Sum(Hits(old(damageList)))
      ensures ticks == -1 ==> Hits(damageList) == Hits(old(damageList))
    {
      var remove := ticks != -1;
      var damageInfo := damageList[0];
      damageInfo := damageInfo.(timeLeft := damageInfo.timeLeft - interval);
      damageList := [damageInfo] + damageList[1..];
      dealt := 0;
      if damageInfo.timeLeft <= 0 {
        dealt := -damageInfo.value;
        if remove {
          damageList := damageList[1..];
        } else {
          damageList := [damageInfo.(timeLeft := damageInfo.interval)] + damageList[1..];
        }
      }
      assert Hits(old(damageList))[1..] == Hits(old(damageList)[1..]);
    }
  }
}
