/** A damage condition delivering its schedule, tick by tick. */
module DamageDelivery {
  import opened DamageSchedule

  const FOREVER: int := -1

  datatype IntervalInfo = IntervalInfo(timeLeft: int, value: int, interval: int)

  datatype Maybe<+T> = None | Some(value: T)

  function Values(list: seq<IntervalInfo>): (r: seq<int>)
    ensures |r| == |list|
  {
    if list == [] then [] else [list[0].value] + Values(list[1..])
  }

  function Hit(m: Maybe<int>): seq<int> {
    match m
    case None => []
    case Some(v) => [v]
  }

  lemma {:induction false} ValuesPush(list: seq<IntervalInfo>, x: IntervalInfo)
    ensures Values(list + [x]) == Values(list) + [x.value]
  {
    if list == [] {
      assert list + [x] == [x];
    } else {
      ValuesPush(list[1..], x);
      assert (list + [x])[1..] == list[1..] + [x];
    }
  }

  function Negated(list: seq<int>): (r: seq<int>)
    ensures |r| == |list| && Sum(r) == -Sum(list)
  {
    if list == [] then [] else [-list[0]] + Negated(list[1..])
  }

  lemma {:induction false} NegatedSnoc(list: seq<int>, x: int)
    ensures Negated(list + [x]) == Negated(list) + [-x]
  {
    if list == [] {
      assert list + [x] == [x];
    } else {
      NegatedSnoc(list[1..], x);
      assert (list + [x])[1..] == list[1..] + [x];
    }
  }

  function Max(a: int, b: int): (r: int)
    ensures r >= a && r >= b && (r == a || r == b)
  {
    if a < b then b else a
  }

  /** The first value of a generated schedule: capped by the maximum, by default a twentieth of the
      amount rounded up, and at least 1. */
  function StartOf(amount: int, startDamage: int, maxDamage: int): (r: int)
    ensures startDamage != 0 ==> r <= startDamage && r <= maxDamage && (r == startDamage || r == maxDamage)
    ensures startDamage == 0 && maxDamage < 0 ==> r == maxDamage
    ensures startDamage == 0 && maxDamage >= 0 ==> r >= 1 && 20 * r >= amount && (r == 1 || 20 * (r - 1) < amount)
  {
    if startDamage > maxDamage then maxDamage
    else if startDamage == 0 then Max(1, (amount + 19) / 20)
    else startDamage
  }

  class ConditionDamage {
    var ticks: int
    var endTime: int
    var delayed: bool
    var minDamage: int
    var maxDamage: int
    var startDamage: int
    var tickInterval: int
    var periodDamage: int
    var periodDamageTick: int
    var damageList: seq<IntervalInfo>

    constructor ()
      ensures damageList == [] && ticks == 0 && endTime == 0 && tickInterval == 2000 && !delayed
      ensures minDamage == maxDamage == startDamage == periodDamage == periodDamageTick == 0
    {
      ticks, endTime, delayed, tickInterval, damageList := 0, 0, false, 2000, [];
      minDamage, maxDamage, startDamage, periodDamage, periodDamageTick := 0, 0, 0, 0, 0;
    }

    method SetTicks(n: int, now: int)
      modifies `ticks, `endTime
      ensures ticks == n && endTime == if n > 0 then now + n else old(endTime)
    {
      ticks := n;
      if n > 0 {
        endTime := now + n;
      }
    }

    /** `addDamage(1, tickInterval, value)` outside the periodic mode. */
    method AddDamage(value: int, now: int)
      requires periodDamage == 0
      modifies `ticks, `endTime, `damageList
      ensures damageList == old(damageList) + [IntervalInfo(tickInterval, value, tickInterval)]
      ensures ticks == if old(ticks) == FOREVER then FOREVER else old(ticks) + tickInterval
      ensures old(ticks) != FOREVER && ticks > 0 ==> endTime == now + ticks
    {
      damageList := damageList + [IntervalInfo(tickInterval, value, tickInterval)];
      if ticks != FOREVER {
        SetTicks(ticks + tickInterval, now);
      }
    }

    /** The loop of `init` over a generated list. */
    method Queue(list: seq<int>, now: int)
      requires periodDamage == 0 && damageList == [] && ticks == 0 && tickInterval >= 0
      modifies `ticks, `endTime, `damageList
      ensures Values(damageList) == Negated(list) && |damageList| == |list| && ticks == |list| * tickInterval
      ensures ticks > 0 ==> endTime == now + ticks
    {
      hide Values, Negated;
      var i := 0;
      while i < |list|
        invariant 0 <= i <= |list| && |damageList| == i && ticks == i * tickInterval && (ticks > 0 ==> endTime == now + ticks)
        invariant Values(damageList) == Negated(list[..i])
      {
        ValuesPush(damageList, IntervalInfo(tickInterval, -list[i], tickInterval));
        NegatedSnoc(list[..i], list[i]);
        assert list[..i + 1] == list[..i] + [list[i]];
        assert i * tickInterval >= 0 && (i + 1) * tickInterval == i * tickInterval + tickInterval;
        AddDamage(-list[i], now);
        i := i + 1;
      }
      assert list[..i] == list;
    }

    /** `init`: an empty schedule is generated from `amount`, the value drawn from
        [minDamage, maxDamage]. */
    method Init(amount: int, now: int) returns (ok: bool)
      requires tickInterval >= 0
      modifies `ticks, `endTime, `damageList, `startDamage
      ensures old(periodDamage) != 0 || old(damageList) != [] ==>
        ok && damageList == old(damageList) && ticks == old(ticks) && endTime == old(endTime) && startDamage == old(startDamage)
      ensures old(periodDamage) == 0 && old(damageList) == [] ==> ok == (damageList != [])
      ensures old(periodDamage) == 0 && old(damageList) == [] && amount == 0 ==> !ok && ticks == 0
      ensures old(periodDamage) == 0 && old(damageList) == [] && amount != 0 ==>
        && startDamage == StartOf(amount, old(startDamage), maxDamage)
        && ticks == |damageList| * tickInterval && (ticks > 0 ==> endTime == now + ticks)
        && (startDamage >= 1 ==> exists list :: Schedule(list, Abs(amount), startDamage) && Values(damageList) == Negated(list))
        && (startDamage < 1 ==> damageList == [])
    {
      if periodDamage != 0 || damageList != [] {
        return true;
      }
      SetTicks(0, now);
      if amount == 0 {
        return false;
      }
      startDamage := StartOf(amount, startDamage, maxDamage);
      hide Schedule, Values, Negated, StartOf;
      var list := GenerateDamageList(amount, startDamage);
      Queue(list, now);
      return damageList != [];
    }

    method GetNextDamage() returns (damage: Maybe<int>)
      modifies `damageList
      ensures periodDamage != 0 ==> damage == Some(periodDamage) && damageList == old(damageList)
      ensures periodDamage == 0 && old(damageList) == [] ==> damage == None && damageList == []
      ensures periodDamage == 0 && old(damageList) != [] ==>
        && damage == Some(old(damageList)[0].value)
        && damageList == if ticks != FOREVER then old(damageList)[1..] else old(damageList)
    {
      if periodDamage != 0 {
        return Some(periodDamage);
      }
      if damageList == [] {
        return None;
      }
      damage := Some(damageList[0].value);
      if ticks != FOREVER {
        damageList := damageList[1..];
      }
    }

    /** `startCondition`. `dealt` is what doDamage answers. */
    method StartCondition(amount: int, now: int, dealt: bool) returns (ok: bool, hit: Maybe<int>, ghost planned: seq<int>)
      requires tickInterval >= 0
      modifies `ticks, `endTime, `damageList, `startDamage
      ensures old(damageList) != [] || periodDamage != 0 ==> planned == Values(old(damageList)) && ticks == old(ticks)
      ensures periodDamage == 0 && ticks != FOREVER ==> Hit(hit) + Values(damageList) == planned
      ensures periodDamage == 0 && old(damageList) == [] ==> ticks != FOREVER
      ensures periodDamage == 0 && old(damageList) == [] && ok ==>
        startDamage >= 1 && exists list :: Schedule(list, Abs(amount), startDamage) && planned == Negated(list)
      ensures hit == if delayed then None
                     else if periodDamage != 0 then Some(periodDamage)
                     else if planned != [] then Some(planned[0]) else None
      ensures ok <==> (periodDamage != 0 || planned != []) && (delayed || dealt)
      ensures ticks > 0 ==> endTime == now + ticks
    {
      hide Schedule;
      if ticks > 0 {
        endTime := now + ticks;
      }
      hit := None;
      ok := Init(amount, now);
      planned := Values(damageList);
      if !ok {
        return;
      }
      if delayed {
        return true, None, planned;
      }
      hit := GetNextDamage();
      ok := hit == None || dealt;
    }

    /** `executeCondition` over `interval` milliseconds. `field` is None when no magic field on the tile or no kind of condition
        that fields cause is involved, and otherwise whether the field matches the condition. A matching field keeps the value
        that is due on the list and puts the end off; a field that does not match lets even an endless condition run out. */
    method ExecuteCondition(interval: int, field: Maybe<bool>, now: int) returns (alive: bool, hit: Maybe<int>)
      modifies `ticks, `endTime, `damageList, `periodDamageTick
      ensures periodDamage != 0 ==>
        var due := old(periodDamageTick) + interval >= tickInterval;
        && damageList == old(damageList) && hit == (if due then Some(periodDamage) else None)
        && periodDamageTick == if due then 0 else old(periodDamageTick) + interval
      ensures periodDamage == 0 && old(damageList) == [] ==> hit == None && damageList == []
      ensures periodDamage == 0 && old(damageList) != [] ==>
        var first := old(damageList)[0];
        && hit == (if first.timeLeft <= interval then Some(first.value) else None)
        && (first.timeLeft > interval ==>
              damageList == [first.(timeLeft := first.timeLeft - interval)] + old(damageList)[1..])
        && (field == Some(false) || (field == None && old(ticks) != FOREVER) ==>
              && endTime == old(endTime)
              && (first.timeLeft <= interval ==> damageList == old(damageList)[1..]))
        && (field == Some(true) || (field == None && old(ticks) == FOREVER) ==>
              && endTime == old(endTime) + (if old(ticks) > 0 then interval else 0)
              && (first.timeLeft <= interval ==> damageList == [first.(timeLeft := first.interval)] + old(damageList)[1..]))
      ensures periodDamage != 0 || old(damageList) == [] ==> endTime == old(endTime)
      ensures old(ticks) == FOREVER ==> ticks == FOREVER
      ensures old(ticks) != FOREVER ==>
        ticks == Max(0, old(ticks) - if periodDamage == 0 && old(damageList) != [] && field == Some(true) then 0 else interval)
      ensures alive == (old(ticks) == FOREVER || endTime >= now)
    {
      hit := None;
      var left := interval;
      if periodDamage != 0 {
        periodDamageTick := periodDamageTick + interval;
        if periodDamageTick >= tickInterval {
          periodDamageTick := 0;
          hit := Some(periodDamage);
        }
      } else if damageList != [] {
        var remove := ticks != FOREVER;
        if field.Some? {
          remove := !field.value;
        }
        var info := damageList[0];
        info := info.(timeLeft := info.timeLeft - interval);
        if info.timeLeft <= 0 {
          hit := Some(info.value);
          if remove {
            damageList := damageList[1..];
          } else {
            damageList := [info.(timeLeft := info.interval)] + damageList[1..];
          }
        } else {
          damageList := [info] + damageList[1..];
        }
        if !remove {
          if ticks > 0 {
            endTime := endTime + interval;
          }
          left := 0;
        }
      }
      // Condition::executeCondition
      if ticks == FOREVER {
        return true, hit;
      }
      ticks := Max(0, ticks - left);
      alive := endTime >= now;
    }
  }

  // ---------------------------------------------------------------- whole runs

  datatype Tick = Tick(interval: int, field: Maybe<bool>, now: int)

  function Elapsed(run: seq<Tick>): int {
    if run == [] then 0 else run[0].interval + Elapsed(run[1..])
  }

  lemma {:induction false} ElapsedSnoc(run: seq<Tick>, i: nat)
    requires i < |run|
    ensures Elapsed(run[..i + 1]) == Elapsed(run[..i]) + run[i].interval
  {
    if i == 0 {
      assert run[..1] == [run[0]] && run[..0] == [];
    } else {
      ElapsedSnoc(run[1..], i - 1);
      assert run[..i + 1][1..] == run[1..][..i] && run[..i][1..] == run[1..][..i - 1];
    }
  }

  lemma NothingElapsed(run: seq<Tick>)
    ensures Elapsed(run[..0]) == 0
  {
  }

  lemma FieldIs(field: Maybe<bool>)
    ensures field == None || field == Some(true) || field == Some(false)
  {
    if field != None && field.value {
      assert field == Some(true);
    } else if field != None {
      assert field == Some(false);
    }
  }

  lemma Regroup(a: seq<int>, b: seq<int>, c: seq<int>)
    ensures (a + b) + c == a + (b + c)
  {
  }

  /** One tick: what is popped, and what removal or a field does to hits and end. */
  method OneTick(c: ConditionDamage, t: Tick) returns (alive: bool, hit: Maybe<int>, ghost gone: seq<int>)
    requires c.periodDamage == 0
    modifies c`ticks, c`endTime, c`damageList, c`periodDamageTick
    ensures gone + Values(c.damageList) == Values(old(c.damageList))
    ensures c.ticks == FOREVER <==> old(c.ticks) == FOREVER
    ensures !alive ==> c.ticks != FOREVER && c.endTime < t.now
    ensures t.field == Some(false) || (t.field == None && old(c.ticks) != FOREVER) ==>
              Hit(hit) == gone && c.endTime == old(c.endTime)
    ensures t.field == Some(true) || (t.field == None && old(c.ticks) == FOREVER) ==> gone == []
    ensures t.field == Some(true) && old(c.damageList) != [] ==>
              && c.damageList != []
              && (old(c.ticks) > 0 ==> c.endTime == old(c.endTime) + t.interval && c.ticks == old(c.ticks))
  {
    ghost var list, ticks := c.damageList, c.ticks;
    FieldIs(t.field);
    alive, hit := c.ExecuteCondition(t.interval, t.field, t.now);
    gone := [];
    if list != [] {
      if hit.Some? && (t.field == Some(false) || (t.field == None && ticks != FOREVER)) {
        assert Values(list) == [list[0].value] + Values(list[1..]);
        gone := [list[0].value];
      } else {
        SameValues(list, c.damageList);
      }
    }
  }

  /** A run of ticks, `made` of which are made before the condition ends or the ticks are used up. `popped` are the values
      taken off the schedule. They, followed by what is left, are the schedule. Where no field matches, every hit is a popped
      value. In a matching field nothing is popped, and the end moves on by as much time as goes by. */
  method Deliver(c: ConditionDamage, run: seq<Tick>) returns (hits: seq<int>, made: nat, ghost popped: seq<int>)
    requires c.periodDamage == 0
    modifies c`ticks, c`endTime, c`damageList, c`periodDamageTick
    ensures popped + Values(c.damageList) == Values(old(c.damageList))
    ensures made <= |run| && (made < |run| ==> old(c.ticks) != FOREVER && made > 0 && c.endTime < run[made - 1].now)
    ensures (forall t :: t in run ==> t.field == Some(false) || (t.field == None && old(c.ticks) != FOREVER)) ==>
              hits == popped && c.endTime == old(c.endTime)
    ensures (forall t :: t in run ==> t.field == Some(true) || (t.field == None && old(c.ticks) == FOREVER)) ==> popped == []
    ensures (forall t :: t in run ==> t.field == Some(true)) && old(c.damageList) != [] && old(c.ticks) > 0 ==>
              c.endTime == old(c.endTime) + Elapsed(run[..made]) && c.ticks == old(c.ticks)
  {
    hide Values, Elapsed, Hit;
    hits, popped := [], [];
    made := 0;
    var alive := true;
    ghost var leaving := forall t :: t in run ==> t.field == Some(false) || (t.field == None && c.ticks != FOREVER);
    ghost var staying := forall t :: t in run ==> t.field == Some(true) || (t.field == None && c.ticks == FOREVER);
    ghost var burning := (forall t :: t in run ==> t.field == Some(true)) && c.damageList != [];
    NothingElapsed(run);
    while made < |run| && alive
      invariant made <= |run| && c.periodDamage == 0
      invariant !alive ==> old(c.ticks) != FOREVER && made > 0 && c.endTime < run[made - 1].now
      invariant c.ticks == FOREVER <==> old(c.ticks) == FOREVER
      invariant popped + Values(c.damageList) == Values(old(c.damageList))
      invariant leaving ==> hits == popped && c.endTime == old(c.endTime)
      invariant staying ==> popped == []
      invariant burning ==> c.damageList != []
      invariant burning && old(c.ticks) > 0 ==> c.endTime == old(c.endTime) + Elapsed(run[..made]) && c.ticks == old(c.ticks)
    {
      var t := run[made];
      assert t in run;
      ElapsedSnoc(run, made);
      var hit;
      ghost var gone;
      alive, hit, gone := OneTick(c, t);
      Regroup(popped, gone, Values(c.damageList));
      hits := hits + Hit(hit);
      popped := popped + gone;
      made := made + 1;
    }
  }

  lemma {:induction false} SumConcat(a: seq<int>, b: seq<int>)
    ensures Sum(a + b) == Sum(a) + Sum(b)
  {
    if a == [] {
      assert a + b == b;
    } else {
      SumConcat(a[1..], b);
      assert (a + b)[1..] == a[1..] + b;
    }
  }

  /** A condition from its start on. Whatever was planned is dealt in order: `popped`, beginning with the value dealt at once,
      and what is left are the plan, and with removal active nothing else is dealt. */
  method Suffer(c: ConditionDamage, amount: int, now: int, harmed: bool, run: seq<Tick>)
    returns (ok: bool, dealt: seq<int>, ghost popped: seq<int>, ghost planned: seq<int>)
    requires c.periodDamage == 0 && c.tickInterval >= 0
    modifies c`ticks, c`endTime, c`damageList, c`startDamage, c`periodDamageTick
    ensures old(c.damageList) != [] ==> planned == Values(old(c.damageList))
    ensures old(c.damageList) == [] && ok ==>
              c.startDamage >= 1 && exists list :: Schedule(list, Abs(amount), c.startDamage) && planned == Negated(list)
    ensures old(c.damageList) == [] || old(c.ticks) != FOREVER ==>
              popped + Values(c.damageList) == planned
              && ((forall t :: t in run ==> t.field != Some(true)) ==> dealt == popped)
              && (c.damageList == [] ==> Sum(popped) == Sum(planned))
  {
    hide Schedule;
    var first;
    ok, first, planned := c.StartCondition(amount, now, harmed);
    dealt := Hit(first);
    popped := dealt;
    if ok {
      ghost var ticks := c.ticks;
      var hits, made;
      ghost var later;
      forall t | t in run && t.field != Some(true) ensures t.field == Some(false) || t.field == None {
        FieldIs(t.field);
      }
      hits, made, later := Deliver(c, run);
      dealt := dealt + hits;
      popped := popped + later;
      assert popped + Values(c.damageList) == Hit(first) + (later + Values(c.damageList));
    }
    SumConcat(popped, Values(c.damageList));
  }

  /** All of a generated schedule, once it has been used up: at least the amount, at most start(start+1)/2 more,
      and just the amount if that is at least start(start+1)/2. */
  lemma TotalDealt(list: seq<int>, amount: int, start: int, dealt: seq<int>)
    requires start >= 1 && Schedule(list, Abs(amount), start) && Sum(dealt) == Sum(Negated(list))
    ensures Abs(amount) <= -Sum(dealt) <= Abs(amount) + Triangle(start)
    ensures -Sum(dealt) == Abs(amount) <==> Abs(amount) >= Triangle(start)
  {
  }

  lemma SameValues(a: seq<IntervalInfo>, b: seq<IntervalInfo>)
    requires a != [] && b != [] && a[0].value == b[0].value && a[1..] == b[1..]
    ensures Values(a) == Values(b)
  {
  }
}
