/** The conditions of a creature and the speed they owe it. */
module SpeedLedger {
  import opened Basics
  import opened Sequences

  /** Haste and paralysis are ConditionSpeed objects; the other types change no speed. */
  datatype ConditionType = Haste | Paralyze | Other(code: nat)

  datatype Key = Key(conditionType: ConditionType, id: int, subId: nat)

  /** Ticks after some time, never below zero; an everlasting condition has -1 and keeps it. */
  function Passed(ticks: int, interval: int): int {
    if ticks == -1 then -1 else if ticks > interval then ticks - interval else 0
  }

  class Condition {
    const key: Key
    var ticks: int
    var endTime: int
    var speedDelta: int

    constructor (key: Key, ticks: int, speedDelta: int)
      ensures this.key == key && this.ticks == ticks && this.speedDelta == speedDelta
    {
      this.key, this.ticks, this.speedDelta, endTime := key, ticks, speedDelta, 0;
    }

    predicate IsSpeed() {
      key.conditionType in {Haste, Paralyze}
    }

    function Delta(): int
      reads this
    {
      if IsSpeed() then speedDelta else 0
    }

    /** Condition::isPersistent */
    predicate IsPersistent()
      reads this
    {
      ticks > 0 && key.id != CONDITIONID_COMBAT
    }

    method SetTicks(newTicks: int, now: int)
      modifies this`ticks, this`endTime
      ensures ticks == newTicks && endTime == (if newTicks > 0 then now + newTicks else old(endTime))
    {
      ticks := newTicks;
      if newTicks > 0 {
        endTime := now + newTicks;
      }
    }

    /** Condition::executeCondition: the condition goes on while its time has not run out. */
    method ExecuteCondition(interval: int, now: int) returns (goesOn: bool)
      modifies this`ticks
      ensures goesOn <==> old(GoesOn(now))
      ensures ticks == Passed(old(ticks), interval)
    {
      if ticks == -1 {
        return true;
      }
      ticks := if ticks - interval > 0 then ticks - interval else 0;
      return endTime >= now;
    }

    predicate GoesOn(now: int)
      reads this
    {
      ticks == -1 || endTime >= now
    }
  }

  ghost function Deltas(list: seq<Condition>): (ds: seq<int>)
    reads list
    ensures |ds| == |list|
  {
    seq(|list|, i requires 0 <= i < |list| reads list => list[i].Delta())
  }

  /** No two conditions of a creature have the same type, id and sub-id. */
  ghost predicate OneEach(list: seq<Condition>) {
    forall i, j :: 0 <= i < j < |list| ==> list[i].key != list[j].key
  }

  ghost predicate Has(list: seq<Condition>, t: ConditionType) {
    exists c :: c in list && c.key.conditionType == t
  }

  /** The members of a list that are kept, in their order. */
  ghost function Filter(list: seq<Condition>, keep: Condition -> bool): seq<Condition> {
    if list == [] then []
    else
      var last := list[|list| - 1];
      Filter(list[..|list| - 1], keep) + (if keep(last) then [last] else [])
  }

  ghost function NotOf(t: ConditionType): Condition -> bool {
    (c: Condition) => c.key.conditionType != t
  }

  ghost function NotOfId(t: ConditionType, id: int): Condition -> bool {
    (c: Condition) => c.key.conditionType != t || c.key.id != id
  }

  ghost function OneOf(kept: set<Condition>): Condition -> bool {
    (c: Condition) => c in kept
  }

  lemma FilterStep(list: seq<Condition>, keep: Condition -> bool, k: nat)
    requires k < |list|
    ensures Filter(list[..k + 1], keep) == Filter(list[..k], keep) + (if keep(list[k]) then [list[k]] else [])
  {
    assert list[..k + 1][..k] == list[..k];
  }

  lemma {:induction false} FilterIn(list: seq<Condition>, keep: Condition -> bool)
    ensures forall c :: c in Filter(list, keep) ==> c in list && keep(c)
    ensures forall c :: c in list && keep(c) ==> c in Filter(list, keep)
  {
    if list != [] {
      FilterIn(list[..|list| - 1], keep);
      assert list == list[..|list| - 1] + [list[|list| - 1]];
    }
  }

  lemma {:induction false} FilterAll(list: seq<Condition>, keep: Condition -> bool)
    requires forall c :: c in list ==> keep(c)
    ensures Filter(list, keep) == list
  {
    if list != [] {
      var front, last := list[..|list| - 1], list[|list| - 1];
      assert list == front + [last] && last in list && forall c :: c in front ==> c in list;
      FilterAll(front, keep);
    }
  }

  /** What is left of the list after a condition of type `t` joined it: its opposite is driven out,
      unless that is suppressed and so not found. */
  ghost function Settled(list: seq<Condition>, t: ConditionType, suppressed: set<ConditionType>): seq<Condition> {
    if t == Paralyze && Haste !in suppressed then Filter(list, NotOf(Haste))
    else if t == Haste && Paralyze !in suppressed then Filter(list, NotOf(Paralyze))
    else list
  }

  lemma FilterAbsent(list: seq<Condition>, t: ConditionType)
    requires !Has(list, t)
    ensures Filter(list, NotOf(t)) == list
  {
    FilterAll(list, NotOf(t));
  }

  lemma HasJoined(list: seq<Condition>, c: Condition, t: ConditionType)
    ensures Has(list + [c], t) <==> Has(list, t) || c.key.conditionType == t
  {
    if Has(list, t) {
      var d :| d in list && d.key.conditionType == t;
      assert d in list + [c];
    }
    assert c in list + [c];
  }

  /** Haste and paralysis are together afterwards exactly if they would be and the one driven out is
      suppressed. */
  lemma SettledExcludes(list: seq<Condition>, c: Condition, suppressed: set<ConditionType>)
    ensures var t, after := c.key.conditionType, Settled(list + [c], c.key.conditionType, suppressed);
            && (t == Paralyze ==> Has(after, Paralyze) && (Has(after, Haste) <==> Has(list, Haste) && Haste in suppressed))
            && (t == Haste ==> Has(after, Haste) && (Has(after, Paralyze) <==> Has(list, Paralyze) && Paralyze in suppressed))
            && (t.Other? ==> after == list + [c] && forall u: ConditionType :: !u.Other? ==> (Has(after, u) <==> Has(list, u)))
  {
    HasJoined(list, c, Haste);
    HasJoined(list, c, Paralyze);
    HasFiltered(list + [c], Haste, Paralyze);
    HasFiltered(list + [c], Paralyze, Haste);
  }

  lemma HasFiltered(list: seq<Condition>, t: ConditionType, u: ConditionType)
    requires t != u
    ensures !Has(Filter(list, NotOf(t)), t)
    ensures Has(Filter(list, NotOf(t)), u) <==> Has(list, u)
  {
    FilterIn(list, NotOf(t));
    if Has(list, u) {
      var d :| d in list && d.key.conditionType == u;
      assert NotOf(t)(d) && d in Filter(list, NotOf(t));
    }
  }

  lemma FilterHas(list: seq<Condition>, keep: Condition -> bool, t: ConditionType)
    ensures Has(Filter(list, keep), t) ==> Has(list, t)
  {
    FilterIn(list, keep);
    if Has(Filter(list, keep), t) {
      var c :| c in Filter(list, keep) && c.key.conditionType == t;
      assert c in list;
    }
  }

  lemma {:induction false} FilterNone(list: seq<Condition>, keep: Condition -> bool)
    requires forall c :: c in list ==> !keep(c)
    ensures Filter(list, keep) == []
  {
    if list != [] {
      FilterNone(list[..|list| - 1], keep);
    }
  }

  /** The loops that take conditions off the list: the first `k` of them have been looked at, and
      the iterator stands behind those that are kept. */
  ghost predicate Scanned(now: seq<Condition>, it: nat, list: seq<Condition>, keep: Condition -> bool, k: nat) {
    k <= |list| && it == |Filter(list[..k], keep)| && now == Filter(list[..k], keep) + list[k..]
  }

  lemma ScanStart(list: seq<Condition>, keep: Condition -> bool)
    ensures Scanned(list, 0, list, keep, 0)
  {
  }

  lemma ScanStep(now: seq<Condition>, it: nat, list: seq<Condition>, keep: Condition -> bool, k: nat)
    requires Scanned(now, it, list, keep, k) && it < |now|
    ensures k < |list| && now[it] == list[k] && list[k] in list[k..] && list[k] in list
    ensures keep(list[k]) ==> Scanned(now, it + 1, list, keep, k + 1)
    ensures !keep(list[k]) ==> Scanned(Cut(now, it), it, list, keep, k + 1)
  {
    FilterStep(list, keep, k);
    assert list[k..] == [list[k]] + list[k + 1..];
  }

  lemma ScanEnd(now: seq<Condition>, it: nat, list: seq<Condition>, keep: Condition -> bool, k: nat)
    requires Scanned(now, it, list, keep, k) && it >= |now|
    ensures now == Filter(list, keep)
  {
    assert list[..k] == list;
  }

  lemma ScanWhole(now: seq<Condition>, it: nat, list: seq<Condition>, keep: Condition -> bool, k: nat)
    requires Scanned(now, it, list, keep, k) && it >= |now|
    ensures k == |list| && list[..k] == list
  {
  }

  lemma NotLater(list: seq<Condition>, k: nat)
    requires OneEach(list) && k < |list|
    ensures list[k] !in list[k + 1..] && forall c :: c in list[k + 1..] ==> c in list[k..]
    ensures list[k] !in list[..k] && list[..k + 1] == list[..k] + [list[k]]
  {
    assert list[k..] == [list[k]] + list[k + 1..];
  }

  lemma KeyOnce(list: seq<Condition>, p: Condition)
    requires OneEach(list) && p in list
    ensures forall c :: c in list && c.key == p.key ==> c == p
  {
  }

  class Creature {
    const baseSpeed: int
    const suppressed: set<ConditionType>
    var varSpeed: int
    var cancelNextWalk: bool
    var conditions: seq<Condition>
    ghost const own: int

    constructor (baseSpeed: int, varSpeed: int, suppressed: set<ConditionType>)
      ensures Valid() && conditions == [] && own == varSpeed == this.varSpeed
      ensures this.suppressed == suppressed && this.baseSpeed == baseSpeed
    {
      this.baseSpeed, this.varSpeed, this.suppressed, own := baseSpeed, varSpeed, suppressed, varSpeed;
      cancelNextWalk, conditions := false, [];
    }

    /** The ledger: the variable speed is the creature's own plus what its conditions owe it. */
    ghost predicate Ledger()
      reads this, conditions
    {
      varSpeed == own + Sum(Deltas(conditions))
    }

    /** Haste and paralysis exclude each other, unless one of them is suppressed and so not noticed. */
    ghost predicate Exclusive()
      reads this
    {
      Has(conditions, Haste) && Has(conditions, Paralyze) ==> Haste in suppressed || Paralyze in suppressed
    }

    ghost predicate Valid()
      reads this, conditions
    {
      OneEach(conditions) && Ledger() && Exclusive()
    }

    /** Game::changeSpeed and Creature::setSpeed */
    method ChangeSpeed(delta: int)
      modifies this`varSpeed, this`cancelNextWalk
      ensures varSpeed == old(varSpeed) + delta
      ensures cancelNextWalk == (old(cancelNextWalk) || baseSpeed + varSpeed <= 0)
    {
      varSpeed := (baseSpeed + varSpeed) - baseSpeed + delta;
      if baseSpeed + varSpeed <= 0 {
        cancelNextWalk := true;
      }
    }

    method StartCondition(c: Condition, drawn: int, now: int, starts: bool) returns (ok: bool)
      modifies this`varSpeed, this`cancelNextWalk, c`speedDelta, c`endTime
      ensures ok == (c.IsSpeed() || starts)
      ensures varSpeed == old(varSpeed) + c.Delta()
      ensures c.speedDelta == if c.IsSpeed() && old(c.speedDelta) == 0 then drawn else old(c.speedDelta)
      ensures c.endTime == if ok && c.ticks > 0 then now + c.ticks else old(c.endTime)
    {
      if c.IsSpeed() {
        if c.speedDelta == 0 {
          c.speedDelta := drawn;
        }
        ChangeSpeed(c.speedDelta);
      } else if !starts {
        return false;
      }
      if c.ticks > 0 {
        c.endTime := now + c.ticks;
      }
      return true;
    }

    /** ConditionSpeed::addCondition, or the update of another condition, which `merges` if it is not
        outdone. */
    method MergeCondition(previous: Condition, c: Condition, drawn: int, now: int, merges: bool)
      requires previous.key == c.key && previous != c
      modifies this`varSpeed, this`cancelNextWalk, previous`ticks, previous`endTime, previous`speedDelta
      ensures varSpeed - old(varSpeed) == previous.Delta() - old(previous.Delta())
      ensures previous.IsSpeed() && !(old(previous.ticks) == -1 && c.ticks > 0) ==>
                && previous.ticks == c.ticks && (previous.speedDelta == if c.speedDelta != 0 then c.speedDelta else drawn)
                && previous.endTime == (if c.ticks > 0 then now + c.ticks else old(previous.endTime))
      ensures previous.IsSpeed() && old(previous.ticks) == -1 && c.ticks > 0 ==> unchanged(previous) && unchanged(this)
      ensures !previous.IsSpeed() ==> previous.ticks == (if merges then c.ticks else old(previous.ticks)) && varSpeed == old(varSpeed)
    {
      if previous.IsSpeed() {
        if previous.ticks == -1 && c.ticks > 0 {
          return;
        }
        previous.SetTicks(c.ticks, now);
        var oldSpeedDelta := previous.speedDelta;
        previous.speedDelta := c.speedDelta;
        if previous.speedDelta == 0 {
          previous.speedDelta := drawn;
        }
        var newSpeedChange := previous.speedDelta - oldSpeedDelta;
        if newSpeedChange != 0 {
          ChangeSpeed(newSpeedChange);
        }
      } else if merges {
        previous.SetTicks(c.ticks, now);
      }
    }

    method GetCondition(key: Key) returns (found: Condition?)
      ensures found == null ==> forall c :: c in conditions ==> c.key != key
      ensures found != null ==> found in conditions && found.key == key
    {
      for i := 0 to |conditions|
        invariant forall j :: 0 <= j < i ==> conditions[j].key != key
      {
        if conditions[i].key == key {
          return conditions[i];
        }
      }
      return null;
    }

    /** Creature::hasCondition with any sub-id and without looking at the time; a suppressed type is
        never found. */
    method HasCondition(t: ConditionType) returns (has: bool)
      ensures has <==> t !in suppressed && Has(conditions, t)
    {
      if t in suppressed {
        return false;
      }
      for i := 0 to |conditions|
        invariant forall j :: 0 <= j < i ==> conditions[j].key.conditionType != t
      {
        if conditions[i].key.conditionType == t {
          return true;
        }
      }
      return false;
    }

    /** The condition at `i` is taken off the list, then ended. */
    method EndAt(i: nat)
      requires i < |conditions| && OneEach(conditions) && Ledger()
      modifies this`varSpeed, this`cancelNextWalk, this`conditions
      ensures conditions == Cut(old(conditions), i) && OneEach(conditions) && Ledger()
    {
      SumWithout(Deltas(conditions), i);
      var c := conditions[i];
      conditions := conditions[..i] + conditions[i + 1..];
      assert Deltas(conditions) == old(Deltas(conditions))[..i] + old(Deltas(conditions))[i + 1..];
      if c.IsSpeed() {
        ChangeSpeed(-c.speedDelta);
      }
    }

    /** Creature::removeCondition for a type, and onEndCondition, which changes no speed. */
    method RemoveType(t: ConditionType)
      requires OneEach(conditions) && Ledger()
      modifies this`varSpeed, this`cancelNextWalk, this`conditions
      ensures OneEach(conditions) && Ledger()
      ensures conditions == Filter(old(conditions), NotOf(t))
    {
      hide Ledger, OneEach, Scanned, Filter, Has;
      ghost var list, k: nat := conditions, 0;
      ghost var keep := NotOf(t);
      var it: nat := 0;
      ScanStart(list, keep);
      while it < |conditions|
        invariant OneEach(conditions) && Ledger()
        invariant Scanned(conditions, it, list, keep, k)
        decreases |list| - k
      {
        ScanStep(conditions, it, list, keep, k);
        if conditions[it].key.conditionType != t {
          it := it + 1;
        } else {
          EndAt(it);
        }
        k := k + 1;
      }
      ScanEnd(conditions, it, list, keep, k);
    }

    /** Creature::removeCondition for a type and an id. */
    method RemoveTypeAndId(t: ConditionType, id: int)
      requires OneEach(conditions) && Ledger()
      modifies this`varSpeed, this`cancelNextWalk, this`conditions
      ensures OneEach(conditions) && Ledger()
      ensures conditions == Filter(old(conditions), NotOfId(t, id))
    {
      hide Ledger, OneEach, Scanned, Filter, Has;
      ghost var list, k: nat := conditions, 0;
      ghost var keep := NotOfId(t, id);
      var it: nat := 0;
      ScanStart(list, keep);
      while it < |conditions|
        invariant OneEach(conditions) && Ledger()
        invariant Scanned(conditions, it, list, keep, k)
        decreases |list| - k
      {
        ScanStep(conditions, it, list, keep, k);
        if conditions[it].key.conditionType != t || conditions[it].key.id != id {
          it := it + 1;
        } else {
          EndAt(it);
        }
        k := k + 1;
      }
      ScanEnd(conditions, it, list, keep, k);
    }

    /** Creature::removeConditions; ending every condition leaves the speed the creature had without. */
    method RemoveConditions(onlyPersistent: bool)
      requires Valid()
      modifies this`varSpeed, this`cancelNextWalk, this`conditions
      ensures Valid()
      ensures !onlyPersistent ==> conditions == [] && varSpeed == own
      ensures forall c :: c in conditions <==> c in old(conditions) && onlyPersistent && (c.ticks <= 0 || c.key.id == 0)
    {
      hide Ledger, OneEach, Filter, Has;
      ghost var list := conditions;
      ghost var kept := set c | c in conditions && onlyPersistent && !c.IsPersistent();
      EndAllBut(onlyPersistent, kept);
      FilterIn(list, OneOf(kept));
      FilterHas(list, OneOf(kept), Haste);
      FilterHas(list, OneOf(kept), Paralyze);
      if !onlyPersistent {
        FilterNone(list, OneOf(kept));
        NothingOwed();
      }
    }

    /** The loop of removeConditions. */
    method EndAllBut(onlyPersistent: bool, ghost kept: set<Condition>)
      requires OneEach(conditions) && Ledger() && kept == set c | c in conditions && onlyPersistent && !c.IsPersistent()
      modifies this`varSpeed, this`cancelNextWalk, this`conditions
      ensures OneEach(conditions) && Ledger() && conditions == Filter(old(conditions), OneOf(kept))
    {
      hide Ledger, OneEach, Scanned, Filter;
      ghost var list, k: nat := conditions, 0;
      ghost var keep := OneOf(kept);
      var it: nat := 0;
      ScanStart(list, keep);
      while it < |conditions|
        invariant OneEach(conditions) && Ledger()
        invariant Scanned(conditions, it, list, keep, k)
        decreases |list| - k
      {
        ScanStep(conditions, it, list, keep, k);
        if onlyPersistent && !conditions[it].IsPersistent() {
          it := it + 1;
        } else {
          EndAt(it);
        }
        k := k + 1;
      }
      ScanEnd(conditions, it, list, keep, k);
    }

    lemma NothingOwed()
      requires Ledger() && conditions == []
      ensures varSpeed == own
    {
    }

    /** Time passes for one condition; the ledger does not depend on it. */
    method Tick(c: Condition, interval: int, now: int) returns (goesOn: bool)
      requires Ledger()
      modifies c`ticks
      ensures Ledger() && goesOn == old(c.GoesOn(now)) && c.ticks == Passed(old(c.ticks), interval)
    {
      ghost var before := Deltas(conditions);
      goesOn := c.ExecuteCondition(interval, now);
      assert Deltas(conditions) == before;
    }

    /** One round of the loop of executeConditions; gives the iterator's new position. */
    method ExecuteAt(c: Condition, it: nat, interval: int, now: int) returns (next: nat)
      requires it < |conditions| && c == conditions[it] && OneEach(conditions) && Ledger()
      modifies this`varSpeed, this`cancelNextWalk, this`conditions, c`ticks
      ensures OneEach(conditions) && Ledger() && c.ticks == Passed(old(c.ticks), interval)
      ensures old(c.GoesOn(now)) ==> conditions == old(conditions) && next == it + 1
      ensures !old(c.GoesOn(now)) ==> conditions == Cut(old(conditions), it) && next == it
    {
      hide Ledger, OneEach;
      var goesOn := Tick(c, interval, now);
      if goesOn {
        return it + 1;
      }
      EndAt(it);
      return it;
    }

    /** Creature::executeConditions: those whose time is over are ended, the others go on. */
    method ExecuteConditions(interval: int, now: int)
      requires Valid()
      modifies this`varSpeed, this`cancelNextWalk, this`conditions, set c | c in conditions :: c`ticks
      ensures Valid()
      ensures forall c :: c in conditions <==> c in old(conditions) && old(c.GoesOn(now))
      ensures forall c :: c in old(conditions) ==> c.ticks == Passed(old(c.ticks), interval)
    {
      hide Ledger, OneEach, Filter, Has, Passed;
      ghost var list := conditions;
      ghost var kept := set c | c in conditions && c.GoesOn(now);
      ExecuteAll(interval, now, kept);
      FilterIn(list, OneOf(kept));
      FilterHas(list, OneOf(kept), Haste);
      FilterHas(list, OneOf(kept), Paralyze);
    }

    /** The loop of executeConditions. */
    method ExecuteAll(interval: int, now: int, ghost kept: set<Condition>)
      requires OneEach(conditions) && Ledger() && kept == set c | c in conditions && c.GoesOn(now)
      modifies this`varSpeed, this`cancelNextWalk, this`conditions, set c | c in conditions :: c`ticks
      ensures OneEach(conditions) && Ledger() && conditions == Filter(old(conditions), OneOf(kept))
      ensures forall c :: c in old(conditions) ==> c.ticks == Passed(old(c.ticks), interval)
    {
      hide Ledger, OneEach, Scanned, Filter, Passed, Cut;
      ghost var list, k: nat := conditions, 0;
      ghost var keep := OneOf(kept);
      var it: nat := 0;
      ScanStart(list, keep);
      while it < |conditions|
        invariant OneEach(conditions) && Ledger()
        invariant Scanned(conditions, it, list, keep, k) && k <= |list|
        invariant forall c :: c in list[k..] ==> c.ticks == old(c.ticks)
        invariant forall c :: c in list[..k] ==> c.ticks == Passed(old(c.ticks), interval)
        decreases |list| - k
      {
        ScanStep(conditions, it, list, keep, k);
        NotLater(list, k);
        it := ExecuteAt(conditions[it], it, interval, now);
        k := k + 1;
      }
      ScanEnd(conditions, it, list, keep, k);
      ScanWhole(conditions, it, list, keep, k);
    }

    /** Creature::onAddCondition, as far as speed goes. */
    method OnAddCondition(t: ConditionType)
      requires OneEach(conditions) && Ledger()
      modifies this`varSpeed, this`cancelNextWalk, this`conditions
      ensures OneEach(conditions) && Ledger()
      ensures conditions == Settled(old(conditions), t, suppressed)
    {
      hide OneEach, Ledger, Has, Filter;
      if !Has(conditions, Haste) { FilterAbsent(conditions, Haste); }
      if !Has(conditions, Paralyze) { FilterAbsent(conditions, Paralyze); }
      if t == Paralyze {
        var has := HasCondition(Haste);
        if has {
          RemoveType(Haste);
        }
      } else if t == Haste {
        var has := HasCondition(Paralyze);
        if has {
          RemoveType(Paralyze);
        }
      }
    }

    /** A condition of the list after another with its key was merged into it: an everlasting one is
        not shortened, any other takes over time and speed. */
    twostate predicate MergedInto(p: Condition, c: Condition, drawn: int, now: int)
      reads p, c
    {
      p.IsSpeed() ==>
        if old(p.ticks) == -1 && old(c.ticks) > 0 then p.ticks == -1 && p.speedDelta == old(p.speedDelta) && p.endTime == old(p.endTime)
        else
          && p.ticks == old(c.ticks) && (p.speedDelta == if old(c.speedDelta) != 0 then old(c.speedDelta) else drawn)
          && p.endTime == (if old(c.ticks) > 0 then now + old(c.ticks) else old(p.endTime))
    }

    /** Creature::addCondition.  A condition with the same key is merged into; otherwise the new one
        joins the list and drives out its opposite. */
    method AddCondition(c: Condition, drawn: int, now: int, starts: bool, merges: bool) returns (ok: bool)
      requires Valid() && c !in conditions
      modifies this`varSpeed, this`cancelNextWalk, this`conditions, c, conditions
      ensures Valid()
      ensures forall p :: p in old(conditions) && p.key == c.key ==> ok && conditions == old(conditions) && MergedInto(p, c, drawn, now)
      ensures forall p :: p in old(conditions) && p.key != c.key ==> unchanged(p)
      ensures (forall p :: p in old(conditions) ==> p.key != c.key) ==>
                && ok == (c.IsSpeed() || starts)
                && conditions == (if ok then Settled(old(conditions) + [c], c.key.conditionType, suppressed) else old(conditions))
                && c.speedDelta == (if c.IsSpeed() && old(c.speedDelta) == 0 then drawn else old(c.speedDelta))
                && c.ticks == old(c.ticks) && c.endTime == (if ok && c.ticks > 0 then now + c.ticks else old(c.endTime))
    {
      var previous := GetCondition(c.key);
      if previous != null {
        KeyOnce(conditions, previous);
        Merge(previous, c, drawn, now, merges);
        return true;
      }
      ok := Join(c, drawn, now, starts);
    }

    /** The part of addCondition for a condition that is new to the creature. */
    method Join(c: Condition, drawn: int, now: int, starts: bool) returns (ok: bool)
      requires Valid() && c !in conditions && forall p :: p in conditions ==> p.key != c.key
      modifies this`varSpeed, this`cancelNextWalk, this`conditions, c`speedDelta, c`endTime
      ensures Valid() && ok == (c.IsSpeed() || starts)
      ensures conditions == if ok then Settled(old(conditions) + [c], c.key.conditionType, suppressed) else old(conditions)
      ensures c.speedDelta == if c.IsSpeed() && old(c.speedDelta) == 0 then drawn else old(c.speedDelta)
      ensures c.endTime == if ok && c.ticks > 0 then now + c.ticks else old(c.endTime)
    {
      hide Filter, Has, Settled, Sum;
      ok := StartCondition(c, drawn, now, starts);
      if ok {
        SettledExcludes(conditions, c, suppressed);
        SumSnoc(Deltas(conditions), c.Delta());
        conditions := conditions + [c];
        assert Deltas(conditions) == old(Deltas(conditions)) + [c.Delta()];
        OnAddCondition(c.key.conditionType);
      }
    }

    /** Merging into a condition of the list keeps the ledger. */
    method Merge(previous: Condition, c: Condition, drawn: int, now: int, merges: bool)
      requires Valid() && previous in conditions && previous.key == c.key && c !in conditions
      modifies this`varSpeed, this`cancelNextWalk, previous`ticks, previous`endTime, previous`speedDelta
      ensures Valid() && MergedInto(previous, c, drawn, now)
    {
      var i :| 0 <= i < |conditions| && conditions[i] == previous;
      ghost var before := Deltas(conditions);
      MergeCondition(previous, c, drawn, now, merges);
      SumChanges(before, Deltas(conditions), i, previous.Delta() - before[i]);
    }
  }
  /** What may happen to a creature's conditions. */
  datatype Event =
    | Add(key: Key, ticks: int, speedDelta: int, drawn: int, now: int, starts: bool, merges: bool)
    | RemoveOfType(t: ConditionType)
    | RemoveOfTypeAndId(t: ConditionType, id: int)
    | RemoveAll(onlyPersistent: bool)
    | Execute(interval: int, now: int)

  /** Any run, followed by the end of all conditions, leaves the speed as it was without conditions;
      on the way haste and paralysis never come together on a creature with nothing suppressed. */
  method Run(creature: Creature, events: seq<Event>)
    requires creature.Valid() && creature.conditions == []
    modifies creature
    ensures creature.Valid() && creature.conditions == [] && creature.varSpeed == old(creature.varSpeed)
  {
    for i := 0 to |events|
      invariant creature.Valid() && fresh(set c | c in creature.conditions)
      invariant creature.suppressed == {} ==> !(Has(creature.conditions, Haste) && Has(creature.conditions, Paralyze))
    {
      Perform(creature, events[i]);
    }
    creature.RemoveConditions(false);
  }

  method Perform(creature: Creature, event: Event)
    requires creature.Valid()
    modifies creature, creature.conditions
    ensures creature.Valid() && forall c :: c in creature.conditions ==> c in old(creature.conditions) || fresh(c)
  {
    hide Creature.Ledger, OneEach, Filter, Has, Settled;
    match event {
      case Add(key, ticks, speedDelta, drawn, now, starts, merges) =>
        var c := new Condition(key, ticks, speedDelta);
        var ok := creature.AddCondition(c, drawn, now, starts, merges);
        SettledIn(old(creature.conditions) + [c], key.conditionType, creature.suppressed);
      case RemoveOfType(t) =>
        FilterIn(creature.conditions, NotOf(t));
        FilterHas(creature.conditions, NotOf(t), Haste);
        FilterHas(creature.conditions, NotOf(t), Paralyze);
        creature.RemoveType(t);
      case RemoveOfTypeAndId(t, id) =>
        FilterIn(creature.conditions, NotOfId(t, id));
        FilterHas(creature.conditions, NotOfId(t, id), Haste);
        FilterHas(creature.conditions, NotOfId(t, id), Paralyze);
        creature.RemoveTypeAndId(t, id);
      case RemoveAll(onlyPersistent) => creature.RemoveConditions(onlyPersistent);
      case Execute(interval, now) => creature.ExecuteConditions(interval, now);
    }
  }

  lemma SettledIn(list: seq<Condition>, t: ConditionType, suppressed: set<ConditionType>)
    ensures forall c :: c in Settled(list, t, suppressed) ==> c in list
  {
    var opposite := if t == Paralyze then Haste else Paralyze;
    FilterIn(list, NotOf(opposite));
    assert Settled(list, t, suppressed) in {list, Filter(list, NotOf(opposite))};
  }

  /** A creature for which haste is suppressed gets haste, then paralysis: it keeps both, and both
      change its speed. */
  method BothAtOnce() returns (types: seq<ConditionType>, speed: int)
    ensures types == [Haste, Paralyze] && speed == 220 + 66 - 80
  {
    hide Creature.Ledger, OneEach, Filter, Has, Settled;
    var creature := new Creature(220, 0, {Haste});
    var haste := new Condition(Key(Haste, 0, 0), 5000, 66);
    StayAlone(haste, {Haste});
    AddNew(creature, haste);
    assert creature.conditions == [haste] && haste in creature.conditions;
    var paralysis := new Condition(Key(Paralyze, 0, 0), 3000, -80);
    AddNew(creature, paralysis);
    StayTogether(haste, paralysis, {Haste});
    assert creature.conditions == [haste, paralysis];
    types := [creature.conditions[0].key.conditionType, creature.conditions[1].key.conditionType];
    speed := creature.baseSpeed + creature.varSpeed;
    Owed(creature, haste, paralysis);
  }

  method AddNew(creature: Creature, c: Condition)
    requires creature.Valid() && c.IsSpeed() && c.speedDelta != 0 && forall p :: p in creature.conditions ==> p.key != c.key
    modifies creature`varSpeed, creature`cancelNextWalk, creature`conditions, c, creature.conditions
    ensures creature.Valid() && c.speedDelta == old(c.speedDelta)
    ensures creature.conditions == Settled(old(creature.conditions) + [c], c.key.conditionType, creature.suppressed)
    ensures forall p :: p in old(creature.conditions) ==> unchanged(p)
  {
    hide Creature.Ledger, OneEach, Filter, Has, Settled;
    var ok := creature.AddCondition(c, 0, 0, true, true);
  }

  lemma StayAlone(c: Condition, suppressed: set<ConditionType>)
    requires c.key.conditionType == Haste
    ensures Settled([] + [c], Haste, suppressed) == [c]
  {
    FilterAll([] + [c], NotOf(Paralyze));
  }

  lemma StayTogether(a: Condition, b: Condition, suppressed: set<ConditionType>)
    requires Haste in suppressed
    ensures Settled([a] + [b], Paralyze, suppressed) == [a, b]
  {
  }

  lemma Owed(creature: Creature, a: Condition, b: Condition)
    requires creature.Ledger() && creature.conditions == [a, b]
    ensures creature.varSpeed == creature.own + a.Delta() + b.Delta()
  {
    assert Deltas(creature.conditions) == [a.Delta()] + [b.Delta()];
    SumSnoc([a.Delta()], b.Delta());
    SumSnoc([], a.Delta());
  }

  /** A haste that begins at `start` and lasts `ticks` is over as soon as the clock is past their sum, and
      with it what it added to the speed. */
  method HasteLasts(ticks: int, start: int, now: int) returns (types: seq<ConditionType>, speed: int)
    requires ticks > 0
    ensures now <= start + ticks ==> types == [Haste] && speed == 220 + 66
    ensures now > start + ticks ==> types == [] && speed == 220
  {
    hide Creature.Ledger, OneEach, Filter, Has, Settled;
    var creature := new Creature(220, 0, {});
    var haste := new Condition(Key(Haste, 0, 0), ticks, 66);
    StayAlone(haste, {});
    var ok := creature.AddCondition(haste, 0, start, true, true);
    assert creature.conditions == [haste] && haste in creature.conditions;
    creature.ExecuteConditions(1000, now);
    OneLeft(creature, haste);
    types := if creature.conditions == [] then [] else [creature.conditions[0].key.conditionType];
    speed := creature.baseSpeed + creature.varSpeed;
    OwedAlone(creature, haste);
  }

  lemma OneLeft(creature: Creature, c: Condition)
    requires creature.Valid() && forall d :: d in creature.conditions ==> d == c
    ensures creature.conditions == if c in creature.conditions then [c] else []
  {
    var list := creature.conditions;
    if |list| >= 2 {
      TwoDiffer(list);
      assert false;
    }
    assert |list| == 1 ==> list[0] in list;
  }

  lemma TwoDiffer(list: seq<Condition>)
    requires OneEach(list) && |list| >= 2
    ensures exists c, d :: c in list && d in list && c != d
  {
    assert list[0] in list && list[1] in list && list[0].key != list[1].key;
  }

  lemma OwedAlone(creature: Creature, c: Condition)
    requires creature.Ledger()
    ensures creature.conditions == [c] ==> creature.varSpeed == creature.own + c.Delta()
    ensures creature.conditions == [] ==> creature.varSpeed == creature.own
  {
    if creature.conditions == [c] {
      assert Deltas(creature.conditions) == [] + [c.Delta()];
      SumSnoc([], c.Delta());
    }
  }
}
