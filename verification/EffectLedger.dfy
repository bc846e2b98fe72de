/** The conditions a creature is under, and the speed and skill changes they account for. */
module EffectLedger {

  const CONDITION_HASTE: nat := 0x10
  const CONDITION_PARALYZE: nat := 0x20
  const CONDITION_ATTRIBUTES: nat := 0x2_0000
  const CONDITIONID_COMBAT := 0
  const FOREVER := -1

  /** Seven skills followed by five stats. */
  const BONUSES := 12

  datatype Effect = Speed(delta: int) | Attributes(bonus: seq<int>) | Other

  /** What a round does to a condition of another class. */
  datatype Answer = Answer(alive: bool, ticks: int, endTime: int)

  datatype Condition = Condition(kind: nat, id: int, subId: nat, ticks: int, endTime: int, effect: Effect)
  {
    /** `createCondition` picks the class by the type. */
    predicate Classed() {
      && (effect.Speed? <==> kind == CONDITION_HASTE || kind == CONDITION_PARALYZE)
      && (effect.Attributes? <==> kind == CONDITION_ATTRIBUTES)
      && (effect.Attributes? ==> |effect.bonus| == BONUSES)
    }

    predicate SameKey(c: Condition) {
      kind == c.kind && id == c.id && subId == c.subId
    }

    /** `getEndTime` */
    function EndTime(): int {
      if ticks == FOREVER then 0 else endTime
    }

    function SetTicks(n: int, now: int): Condition {
      this.(ticks := n, endTime := if n > 0 then now + n else endTime)
    }

    predicate Persistent() {
      ticks > 0 && id != CONDITIONID_COMBAT
    }

    /** `Condition::updateCondition` */
    predicate Yields(c: Condition, now: int) {
      kind == c.kind && (ticks != FOREVER || c.ticks < 1) && (c.ticks < 0 || endTime <= now + c.ticks)
    }

    /** What `hasCondition` looks for; sub-id -1 stands for any. */
    predicate Shows(wanted: nat, subId': int, checkTime: bool, now: int) {
      && kind == wanted && (subId' == -1 || subId == subId')
      && (checkTime ==> EndTime() == 0 || EndTime() >= now)
    }

    predicate Starts(verdict: bool) {
      effect.Other? ==> verdict
    }

    /** The condition after `startCondition`. */
    function Started(now: int, draw: int, percent: seq<int>, player: bool): (r: Condition)
      requires Classed() && |percent| == BONUSES
      ensures r.Classed() && r.SameKey(this)
    {
      this.(endTime := if ticks > 0 then now + ticks else endTime, effect := Applied(draw, percent, player))
    }

    /** The effect with the random speed drawn and the percentages turned into points. */
    function Applied(draw: int, percent: seq<int>, player: bool): (e: Effect)
      requires Classed() && |percent| == BONUSES
    {
      match effect
      case Speed(delta) => Speed(if delta != 0 then delta else draw)
      case Attributes(bonus) => if player then Attributes(AddTo(bonus, percent, 1)) else effect
      case Other => Other
    }

    /** The listed condition after `addCondition` has offered it `c`; `verdict` is the answer of the other classes. */
    function Merged(c: Condition, now: int, draw: int, percent: seq<int>, verdict: bool, player: bool): (r: Condition)
      requires Classed() && c.Classed() && SameKey(c) && |percent| == BONUSES
      ensures r.Classed() && r.SameKey(this)
    {
      if (if effect.Speed? then ticks != FOREVER || c.ticks <= 0 else if effect.Other? then verdict else Yields(c, now))
      then SetTicks(c.ticks, now).(effect := c.Applied(draw, percent, player))
      else this
    }

    /** One round of `executeCondition`. */
    function Executed(interval: int, now: int, other: Answer): (r: Condition)
      ensures r.effect == effect && r.SameKey(this) && (Classed() ==> r.Classed())
    {
      if effect.Other? then this.(ticks := other.ticks, endTime := other.endTime)
      else if ticks == FOREVER then this
      else this.(ticks := if ticks - interval > 0 then ticks - interval else 0)
    }

    predicate Alive(interval: int, now: int, other: Answer) {
      if effect.Other? then other.alive else ticks == FOREVER || endTime >= now
    }

    function SpeedOf(): int {
      if effect.Speed? then effect.delta else 0
    }

    /** Skills and stats change for players only. */
    function BonusOf(player: bool, k: nat): int
      requires k < BONUSES
    {
      if player && effect.Attributes? && |effect.bonus| == BONUSES then effect.bonus[k] else 0
    }
  }

  // ---------------------------------------------------------------- what a list accounts for

  function SpeedSum(cs: seq<Condition>): int {
    if cs == [] then 0 else cs[0].SpeedOf() + SpeedSum(cs[1..])
  }

  function BonusSum(cs: seq<Condition>, player: bool, k: nat): int
    requires k < BONUSES
  {
    if cs == [] then 0 else cs[0].BonusOf(player, k) + BonusSum(cs[1..], player, k)
  }

  lemma {:induction false} SpeedSplit(a: seq<Condition>, b: seq<Condition>)
    ensures SpeedSum(a + b) == SpeedSum(a) + SpeedSum(b)
  {
    if a == [] {
      assert a + b == b;
    } else {
      SpeedSplit(a[1..], b);
      assert (a + b)[1..] == a[1..] + b;
    }
  }

  lemma {:induction false} BonusSplit(a: seq<Condition>, b: seq<Condition>, player: bool, k: nat)
    requires k < BONUSES
    ensures BonusSum(a + b, player, k) == BonusSum(a, player, k) + BonusSum(b, player, k)
  {
    if a == [] {
      assert a + b == b;
    } else {
      BonusSplit(a[1..], b, player, k);
      assert (a + b)[1..] == a[1..] + b;
    }
  }

  /** At most one condition per type, id and sub-id. */
  predicate Unique(cs: seq<Condition>) {
    forall i, j :: 0 <= i < j < |cs| ==> cs[i].kind != cs[j].kind || cs[i].id != cs[j].id || cs[i].subId != cs[j].subId
  }

  /** The modifiers are the given foreign part plus exactly what the listed conditions account for. */
  ghost predicate Accounts(cs: seq<Condition>, player: bool, speed: int, bonus: seq<int>, speed0: int, bonus0: seq<int>) {
    && |bonus| == |bonus0| == BONUSES
    && speed == speed0 + SpeedSum(cs)
    && forall k: nat :: k < BONUSES ==> bonus[k] == bonus0[k] + BonusSum(cs, player, k)
  }

  function AddTo(bonus: seq<int>, change: seq<int>, sign: int): (r: seq<int>)
    requires |bonus| == |change| == BONUSES
    ensures |r| == BONUSES && forall k :: 0 <= k < BONUSES ==> r[k] == bonus[k] + sign * change[k]
  {
    seq(BONUSES, k requires 0 <= k < BONUSES => bonus[k] + sign * change[k])
  }

  /** Replacing one condition by at most one other, with the modifiers moved by the difference. */
  lemma AccountsSplice(before: seq<Condition>, gone: seq<Condition>, come: seq<Condition>, after: seq<Condition>, player: bool,
                       speed: int, bonus: seq<int>, speed': int, bonus': seq<int>, speed0: int, bonus0: seq<int>)
    requires Accounts(before + gone + after, player, speed, bonus, speed0, bonus0)
    requires |bonus'| == BONUSES && speed' == speed - SpeedSum(gone) + SpeedSum(come)
    requires forall k: nat :: k < BONUSES ==> bonus'[k] == bonus[k] - BonusSum(gone, player, k) + BonusSum(come, player, k)
    ensures Accounts(before + come + after, player, speed', bonus', speed0, bonus0)
  {
    SpeedSplit(before + gone, after);
    SpeedSplit(before, gone);
    SpeedSplit(before + come, after);
    SpeedSplit(before, come);
    forall k: nat | k < BONUSES ensures bonus'[k] == bonus0[k] + BonusSum(before + come + after, player, k) {
      BonusSplit(before + gone, after, player, k);
      BonusSplit(before, gone, player, k);
      BonusSplit(before + come, after, player, k);
      BonusSplit(before, come, player, k);
    }
  }

  lemma SumOfOne(c: Condition, player: bool)
    ensures SpeedSum([c]) == c.SpeedOf() && SpeedSum([]) == 0
    ensures forall k: nat :: k < BONUSES ==> BonusSum([c], player, k) == c.BonusOf(player, k) && BonusSum([], player, k) == 0
  {
    assert [c][1..] == [];
  }

  // ---------------------------------------------------------------- the creature

  datatype Filter =
    | ByType(kind: nat) | ByTypeAndId(kind: nat, id: int) | All(onlyPersistent: bool)
  {
    predicate Hits(c: Condition) {
      match this
      case ByType(kind) => c.kind == kind
      case ByTypeAndId(kind, id) => c.kind == kind && c.id == id
      case All(onlyPersistent) => onlyPersistent ==> c.Persistent()
    }
  }

  function Kept(cs: seq<Condition>, f: Filter): seq<Condition> {
    if cs == [] then []
    else (if f.Hits(cs[0]) then [] else [cs[0]]) + Kept(cs[1..], f)
  }

  lemma {:induction false} KeptAre(cs: seq<Condition>, f: Filter, c: Condition)
    ensures c in Kept(cs, f) <==> c in cs && !match f
              case ByType(kind) => c.kind == kind
              case ByTypeAndId(kind, id) => c.kind == kind && c.id == id
              case All(onlyPersistent) => onlyPersistent ==> c.ticks > 0 && c.id != CONDITIONID_COMBAT
  {
    if cs != [] {
      KeptAre(cs[1..], f, c);
      assert cs == [cs[0]] + cs[1..];
    }
  }

  lemma KeptStep(cs: seq<Condition>, i: nat, f: Filter)
    requires i < |cs|
    ensures !f.Hits(cs[i]) ==> cs[..i + 1] + Kept(cs[i + 1..], f) == cs[..i] + Kept(cs[i..], f)
    ensures f.Hits(cs[i]) ==> var t := cs[..i] + cs[i + 1..]; t[..i] + Kept(t[i..], f) == cs[..i] + Kept(cs[i..], f)
  {
    assert cs[i..][1..] == cs[i + 1..];
    var t := cs[..i] + cs[i + 1..];
    assert t[..i] == cs[..i] && t[i..] == cs[i + 1..];
  }

  lemma KeptEnd(cs: seq<Condition>, i: nat, f: Filter)
    requires i == |cs|
    ensures cs[..i] + Kept(cs[i..], f) == cs
  {
    assert cs[i..] == [];
  }

  lemma {:induction false} NothingKept(cs: seq<Condition>)
    ensures Kept(cs, All(false)) == []
  {
    if cs != [] {
      NothingKept(cs[1..]);
    }
  }

  /** The list after a condition of the given type has been appended: haste and paralysis exclude each other. */
  function Rivalry(cs: seq<Condition>, kind: nat, suppressed: set<nat>, now: int): seq<Condition> {
    var rival := if kind == CONDITION_PARALYZE then CONDITION_HASTE else CONDITION_PARALYZE;
    if (kind == CONDITION_PARALYZE || kind == CONDITION_HASTE) && rival !in suppressed
       && exists c :: c in cs && c.Shows(rival, 0, true, now)
    then Kept(cs, ByType(rival))
    else cs
  }

  /** Exactly when a listed condition is driven out: a new paralysis takes off every haste and a new haste every paralysis,
      unless suppressed, provided that one of them with the default sub-id is still running. */
  lemma RivalsGo(cs: seq<Condition>, kind: nat, suppressed: set<nat>, now: int, c: Condition)
    requires c in cs
    ensures c !in Rivalry(cs, kind, suppressed, now) <==>
            && ((kind == CONDITION_PARALYZE && c.kind == CONDITION_HASTE) || (kind == CONDITION_HASTE && c.kind == CONDITION_PARALYZE))
            && c.kind !in suppressed
            && exists d :: d in cs && d.kind == c.kind && d.subId == 0 && (d.ticks == -1 || d.endTime == 0 || d.endTime >= now)
  {
    KeptAre(cs, ByType(CONDITION_HASTE), c);
    KeptAre(cs, ByType(CONDITION_PARALYZE), c);
    forall d: Condition
      ensures d.Shows(c.kind, 0, true, now) <==>
              d.kind == c.kind && d.subId == 0 && (d.ticks == -1 || d.endTime == 0 || d.endTime >= now) {
    }
  }

  /** The first place holding the key of `c`, or the length. */
  function Find(cs: seq<Condition>, c: Condition): (i: nat)
    ensures i <= |cs| && (i < |cs| ==> cs[i].SameKey(c)) && forall j :: 0 <= j < i ==> !cs[j].SameKey(c)
  {
    if cs == [] || cs[0].SameKey(c) then 0 else 1 + Find(cs[1..], c)
  }

  lemma FindIs(cs: seq<Condition>, c: Condition, i: nat)
    requires i <= |cs| && (i < |cs| ==> cs[i].SameKey(c)) && forall j :: 0 <= j < i ==> !cs[j].SameKey(c)
    ensures Find(cs, c) == i
  {
    assert !(Find(cs, c) < i) && !(i < Find(cs, c));
  }

  predicate AllClassed(cs: seq<Condition>) {
    forall c :: c in cs ==> c.Classed()
  }

  /** The list after `addCondition`. */
  function Added(cs: seq<Condition>, c: Condition, now: int, draw: int, percent: seq<int>, verdict: bool,
                 suppressed: set<nat>, player: bool): seq<Condition>
    requires AllClassed(cs) && c.Classed() && |percent| == BONUSES
  {
    var i := Find(cs, c);
    if i < |cs| then assert cs[i] in cs; cs[i := cs[i].Merged(c, now, draw, percent, verdict, player)]
    else if c.Starts(verdict) then Rivalry(cs + [c.Started(now, draw, percent, player)], c.kind, suppressed, now)
    else cs
  }

  /** The list after a round of `executeConditions`. */
  function Lasting(cs: seq<Condition>, interval: int, now: int, others: Condition -> Answer): seq<Condition> {
    if cs == [] then []
    else (if cs[0].Alive(interval, now, others(cs[0])) then [cs[0].Executed(interval, now, others(cs[0]))] else [])
         + Lasting(cs[1..], interval, now, others)
  }

  lemma LastingStep(cs: seq<Condition>, i: nat, interval: int, now: int, others: Condition -> Answer)
    requires i < |cs|
    ensures
      var t := cs[i := cs[i].Executed(interval, now, others(cs[i]))];
      var u := t[..i] + t[i + 1..];
      var all := cs[..i] + Lasting(cs[i..], interval, now, others);
      if cs[i].Alive(interval, now, others(cs[i]))
      then t[..i + 1] + Lasting(t[i + 1..], interval, now, others) == all
      else u[..i] + Lasting(u[i..], interval, now, others) == all
  {
    var t := cs[i := cs[i].Executed(interval, now, others(cs[i]))];
    var u := t[..i] + t[i + 1..];
    assert cs[i..][1..] == cs[i + 1..] == t[i + 1..] == u[i..];
    assert u[..i] == cs[..i] && t[..i + 1] == cs[..i] + [t[i]];
  }

  lemma LastingEnd(cs: seq<Condition>, i: nat, interval: int, now: int, others: Condition -> Answer)
    requires i == |cs|
    ensures cs[..i] + Lasting(cs[i..], interval, now, others) == cs
  {
    assert cs[i..] == [];
  }

  /** Exactly the expired conditions go in a round: a condition that is still there was alive. */
  lemma {:induction false} LastingAre(cs: seq<Condition>, interval: int, now: int, others: Condition -> Answer, c: Condition)
    ensures c in Lasting(cs, interval, now, others) <==>
            exists d :: d in cs && d.Alive(interval, now, others(d)) && c == d.Executed(interval, now, others(d))
  {
    if cs != [] {
      LastingAre(cs[1..], interval, now, others, c);
      assert forall d :: d in cs <==> d == cs[0] || d in cs[1..];
    }
  }

  /** A condition of c's type, id and sub-id is listed. */
  ghost predicate Listed(cs: seq<Condition>, c: Condition) {
    exists d :: d in cs && d.kind == c.kind && d.id == c.id && d.subId == c.subId
  }

  /** A condition with an end lasts through the rounds up to its end and goes in the first round after it; one without an
      end stays for good. What stays keeps its effect and its end, and its ticks run down. The other classes say themselves. */
  lemma RoundEnds(cs: seq<Condition>, interval: int, now: int, others: Condition -> Answer, c: Condition)
    requires Unique(cs) && c in cs
    ensures (exists d :: d in Lasting(cs, interval, now, others) && d.kind == c.kind && d.id == c.id && d.subId == c.subId)
            <==> if c.effect.Other? then others(c).alive else c.ticks == -1 || now <= c.endTime
    ensures !c.effect.Other? && c.ticks == -1 ==> c in Lasting(cs, interval, now, others)
    ensures !c.effect.Other? && c.ticks != -1 && now <= c.endTime ==>
            c.(ticks := if c.ticks > interval then c.ticks - interval else 0) in Lasting(cs, interval, now, others)
  {
    hide Lasting;
    var e := c.Executed(interval, now, others(c));
    LastingAre(cs, interval, now, others, e);
    if if c.effect.Other? then others(c).alive else c.ticks == -1 || now <= c.endTime {
      assert c.Alive(interval, now, others(c));
    } else {
      forall d | d in Lasting(cs, interval, now, others) ensures d.kind != c.kind || d.id != c.id || d.subId != c.subId {
        LastingAre(cs, interval, now, others, d);
        var b :| b in cs && b.Alive(interval, now, others(b)) && d == b.Executed(interval, now, others(b));
        if b.kind == c.kind && b.id == c.id && b.subId == c.subId {
          OfOneKey(cs, b, c);
          assert false;
        }
      }
    }
  }

  lemma OfOneKey(cs: seq<Condition>, b: Condition, c: Condition)
    requires Unique(cs) && b in cs && c in cs && b.kind == c.kind && b.id == c.id && b.subId == c.subId
    ensures b == c
  {
  }

  /** A round brings no key in. */
  lemma NothingRises(cs: seq<Condition>, interval: int, now: int, others: Condition -> Answer, c: Condition)
    requires !Listed(cs, c)
    ensures !Listed(Lasting(cs, interval, now, others), c)
  {
    forall d | d in Lasting(cs, interval, now, others) ensures d.kind != c.kind || d.id != c.id || d.subId != c.subId {
      LastingAre(cs, interval, now, others, d);
      var b :| b in cs && b.Alive(interval, now, others(b)) && d == b.Executed(interval, now, others(b));
    }
  }

  /** A condition of a new key that starts is listed with its ticks, and with its end so many milliseconds from now. */
  lemma NewIsListed(cs: seq<Condition>, c: Condition, now: int, draw: int, percent: seq<int>, verdict: bool,
                    suppressed: set<nat>, player: bool)
    requires AllClassed(cs) && c.Classed() && |percent| == BONUSES && (c.effect.Other? ==> verdict)
    requires forall d :: d in cs ==> d.kind != c.kind || d.id != c.id || d.subId != c.subId
    ensures exists d :: d in Added(cs, c, now, draw, percent, verdict, suppressed, player) &&
              d == c.(endTime := if c.ticks > 0 then now + c.ticks else c.endTime, effect := d.effect) &&
              match c.effect
              case Speed(delta) => d.effect == Speed(if delta != 0 then delta else draw)
              case Attributes(bonus) =>
                && d.effect.Attributes? && |d.effect.bonus| == BONUSES
                && forall k :: 0 <= k < BONUSES ==> d.effect.bonus[k] == bonus[k] + if player then percent[k] else 0
              case Other => d.effect.Other?
  {
    hide Rivalry;
    FindIs(cs, c, |cs|);
    var d := c.Started(now, draw, percent, player);
    RivalsGo(cs + [d], c.kind, suppressed, now, d);
    assert d in Added(cs, c, now, draw, percent, verdict, suppressed, player);
  }

  /** What a merge leaves of a listed condition `o` offered `c`. Offered an end, an endless one stays as it is, an attribute
      condition ends at the later of the two ends, and a speed condition takes over the end it is offered, be it the earlier
      one. Offered endless terms, either takes them. Offered no ticks at all, an attribute condition takes them if it has
      run out, a speed condition always; the ends stay. */
  lemma MergeEnds(o: Condition, c: Condition, now: int, draw: int, percent: seq<int>, verdict: bool, player: bool)
    requires o.Classed() && c.Classed() && o.SameKey(c) && |percent| == BONUSES
    ensures var m := o.Merged(c, now, draw, percent, verdict, player);
      && (o.effect.Other? ==> m == if verdict then o.(ticks := c.ticks, endTime := if c.ticks > 0 then now + c.ticks else o.endTime) else o)
      && (!o.effect.Other? && o.ticks == -1 && c.ticks > 0 ==> m == o)
      && (o.effect.Attributes? && o.ticks != -1 && c.ticks > 0 ==>
            && m.endTime == (if o.endTime > now + c.ticks then o.endTime else now + c.ticks)
            && (o.endTime > now + c.ticks ==> m == o)
            && (o.endTime <= now + c.ticks ==> m.ticks == c.ticks && Boosted(m, c, percent, player)))
      && (o.effect.Attributes? && c.ticks == 0 ==>
            && m.endTime == o.endTime && (o.endTime > now ==> m == o)
            && (o.endTime <= now ==> m.ticks == 0 && Boosted(m, c, percent, player)))
      && (o.effect.Attributes? && c.ticks < 0 ==>
            m.endTime == o.endTime && m.ticks == c.ticks && Boosted(m, c, percent, player))
      && (o.effect.Speed? && (o.ticks != -1 || c.ticks <= 0) ==>
            && m.endTime == (if c.ticks > 0 then now + c.ticks else o.endTime) && m.ticks == c.ticks
            && m.effect == Speed(if c.effect.delta != 0 then c.effect.delta else draw))
  {
  }

  /** `m` grants what `c` grants, for a player with the percentages on top. */
  predicate Boosted(m: Condition, c: Condition, percent: seq<int>, player: bool)
    requires c.effect.Attributes? && |c.effect.bonus| == |percent| == BONUSES
  {
    && m.effect.Attributes? && |m.effect.bonus| == BONUSES
    && forall k :: 0 <= k < BONUSES ==> m.effect.bonus[k] == c.effect.bonus[k] + if player then percent[k] else 0
  }

  datatype Event =
    | Add(c: Condition, now: int, draw: int, percent: seq<int>, verdict: bool, suppressed: set<nat>)
    | Remove(f: Filter)
    | RemoveOne(i: nat)
    | Execute(interval: int, now: int, others: Condition -> Answer)
  {
    predicate Legal() {
      Add? ==> c.Classed() && |percent| == BONUSES
    }

    /** The event neither merges into the condition `mine` nor takes it off before its time. */
    predicate Spares(mine: Condition) {
      match this
      case Add(c, _, _, _, _, _) =>
        && (c.kind != mine.kind || c.id != mine.id || c.subId != mine.subId)
        && !(c.kind == CONDITION_HASTE && mine.kind == CONDITION_PARALYZE)
        && !(c.kind == CONDITION_PARALYZE && mine.kind == CONDITION_HASTE)
      case Remove(ByType(kind)) => kind != mine.kind
      case Remove(ByTypeAndId(kind, id)) => kind != mine.kind || id != mine.id
      case Remove(All(_)) => false
      case RemoveOne(_) => false
      case Execute(_, _, _) => true
    }
  }

  /** The list after an event. */
  function Next(cs: seq<Condition>, e: Event, player: bool): seq<Condition>
    requires AllClassed(cs) && e.Legal()
  {
    match e
    case Add(c, now, draw, percent, verdict, suppressed) => Added(cs, c, now, draw, percent, verdict, suppressed, player)
    case Remove(f) => Kept(cs, f)
    case RemoveOne(i) => if i < |cs| then cs[..i] + cs[i + 1..] else cs
    case Execute(interval, now, others) => Lasting(cs, interval, now, others)
  }

  /** `c` as it was, but for the ticks that have run down. */
  ghost predicate Runs(cs: seq<Condition>, c: Condition) {
    exists d :: d in cs && d.ticks != -1 && d == c.(ticks := d.ticks)
  }

  /** A condition with an end that an event spares is still there, with its end, unless a round has come after the end. */
  lemma SparedStays(cs: seq<Condition>, e: Event, player: bool, c: Condition)
    requires AllClassed(cs) && Unique(cs) && e.Legal() && e.Spares(c) && Runs(cs, c) && !c.effect.Other?
    ensures !(e.Execute? && c.endTime < e.now) ==> Runs(Next(cs, e, player), c)
    ensures e.Execute? && c.endTime < e.now ==> !Listed(Next(cs, e, player), c)
  {
    var d :| d in cs && d.ticks != -1 && d == c.(ticks := d.ticks);
    match e {
      case Add(a, now, draw, percent, verdict, suppressed) =>
        AddSpares(cs, a, now, draw, percent, verdict, suppressed, player, d);
        assert d in Next(cs, e, player);
      case Remove(f) =>
        KeptAre(cs, f, d);
        assert d in Next(cs, e, player);
      case RemoveOne(_) =>
        assert false;
      case Execute(interval, now, others) =>
        RoundEnds(cs, interval, now, others, d);
    }
  }

  lemma AddSpares(cs: seq<Condition>, a: Condition, now: int, draw: int, percent: seq<int>, verdict: bool,
                  suppressed: set<nat>, player: bool, d: Condition)
    requires AllClassed(cs) && a.Classed() && |percent| == BONUSES && d in cs
    requires a.kind != d.kind || a.id != d.id || a.subId != d.subId
    requires !(a.kind == CONDITION_HASTE && d.kind == CONDITION_PARALYZE)
    requires !(a.kind == CONDITION_PARALYZE && d.kind == CONDITION_HASTE)
    ensures d in Added(cs, a, now, draw, percent, verdict, suppressed, player)
  {
    hide Rivalry;
    var i := Find(cs, a);
    var j :| 0 <= j < |cs| && cs[j] == d;
    if i < |cs| {
      assert cs[i] in cs;
      assert cs[i := cs[i].Merged(a, now, draw, percent, verdict, player)][j] == d;
    } else if a.Starts(verdict) {
      RivalsGo(cs + [a.Started(now, draw, percent, player)], a.kind, suppressed, now, d);
    }
  }

  /** What is gone does not come back of itself. */
  lemma GoneStaysGone(cs: seq<Condition>, e: Event, player: bool, c: Condition)
    requires AllClassed(cs) && e.Legal() && e.Spares(c) && !Listed(cs, c)
    ensures !Listed(Next(cs, e, player), c)
  {
    match e {
      case Add(a, now, draw, percent, verdict, suppressed) =>
        AddBringsNothing(cs, a, now, draw, percent, verdict, suppressed, player, c);
      case Remove(f) =>
        forall d | d in Kept(cs, f) ensures d in cs {
          KeptAre(cs, f, d);
        }
      case RemoveOne(_) =>
        assert false;
      case Execute(interval, now, others) =>
        NothingRises(cs, interval, now, others, c);
    }
  }

  lemma AddBringsNothing(cs: seq<Condition>, a: Condition, now: int, draw: int, percent: seq<int>, verdict: bool,
                         suppressed: set<nat>, player: bool, c: Condition)
    requires AllClassed(cs) && a.Classed() && |percent| == BONUSES && !Listed(cs, c)
    requires a.kind != c.kind || a.id != c.id || a.subId != c.subId
    ensures !Listed(Added(cs, a, now, draw, percent, verdict, suppressed, player), c)
  {
    var i := Find(cs, a);
    var all := cs + [a.Started(now, draw, percent, player)];
    forall d | d in Added(cs, a, now, draw, percent, verdict, suppressed, player)
      ensures d.kind != c.kind || d.id != c.id || d.subId != c.subId
    {
      KeptAre(all, ByType(CONDITION_HASTE), d);
      KeptAre(all, ByType(CONDITION_PARALYZE), d);
    }
  }

  class Creature {
    const player: bool
    var speed: int
    var bonus: seq<int>
    var conditions: seq<Condition>

    ghost predicate Ledger(speed0: int, bonus0: seq<int>)
      reads this
    {
      && Unique(conditions)
      && AllClassed(conditions)
      && Accounts(conditions, player, speed, bonus, speed0, bonus0)
    }

    constructor (player: bool, speed: int, bonus: seq<int>)
      requires |bonus| == BONUSES
      ensures Ledger(speed, bonus) && conditions == []
    {
      this.player, this.speed, this.bonus, conditions := player, speed, bonus, [];
    }

    /** The loops over skills and stats that skip zeros and shift the rest. */
    method ShiftBonus(change: seq<int>, sign: int)
      requires |bonus| == |change| == BONUSES
      modifies `bonus
      ensures bonus == AddTo(old(bonus), change, sign)
    {
      for i := 0 to BONUSES
        invariant |bonus| == BONUSES
        invariant forall k :: 0 <= k < i ==> bonus[k] == old(bonus)[k] + sign * change[k]
        invariant forall k :: i <= k < BONUSES ==> bonus[k] == old(bonus)[k]
      {
        if change[i] != 0 {
          bonus := bonus[i := bonus[i] + sign * change[i]];
        }
      }
    }

    /** `endCondition` */
    method EndCondition(c: Condition)
      requires c.Classed() && |bonus| == BONUSES
      modifies `speed, `bonus
      ensures |bonus| == BONUSES && speed == old(speed) - c.SpeedOf()
      ensures forall k: nat :: k < BONUSES ==> bonus[k] == old(bonus)[k] - c.BonusOf(player, k)
      ensures if c.effect.Speed? then speed == old(speed) - c.effect.delta else speed == old(speed)
      ensures !c.effect.Attributes? || !player ==> bonus == old(bonus)
      ensures c.effect.Attributes? && player ==> forall k :: 0 <= k < BONUSES ==> bonus[k] == old(bonus)[k] - c.effect.bonus[k]
    {
      match c.effect
      case Speed(delta) => speed := speed - delta;
      case Attributes(change) =>
        if player {
          ShiftBonus(change, -1);
        }
      case Other => return;
    }

    /** `startCondition`: `draw` is the random speed, `percent` the players' percentage bonuses,
        `verdict` the answer of the classes without such effects. */
    method StartCondition(c: Condition, now: int, draw: int, percent: seq<int>, verdict: bool)
      returns (ok: bool, started: Condition)
      requires c.Classed() && |bonus| == |percent| == BONUSES
      modifies `speed, `bonus
      ensures ok == (c.effect.Other? ==> verdict) && started == c.Started(now, draw, percent, player) && |bonus| == BONUSES
      ensures ok ==> speed == old(speed) + started.SpeedOf()
      ensures ok ==> forall k: nat :: k < BONUSES ==> bonus[k] == old(bonus)[k] + started.BonusOf(player, k)
      ensures !ok ==> speed == old(speed) && bonus == old(bonus)
      ensures speed == old(speed) + if c.effect.Speed? then (if c.effect.delta != 0 then c.effect.delta else draw) else 0
      ensures !c.effect.Attributes? || !player ==> bonus == old(bonus)
      ensures c.effect.Attributes? && player ==>
        forall k :: 0 <= k < BONUSES ==> bonus[k] == old(bonus)[k] + c.effect.bonus[k] + percent[k]
    {
      started := if c.ticks > 0 then c.(endTime := now + c.ticks) else c;
      ok := true;
      match c.effect
      case Speed(delta) =>
        started := started.(effect := Speed(if delta != 0 then delta else draw));
        speed := speed + started.effect.delta;
      case Attributes(change) =>
        if player {
          started := started.(effect := Attributes(AddTo(change, percent, 1)));
          ShiftBonus(started.effect.bonus, 1);
        }
      case Other => ok := verdict;
    }

    /** Installs the merged condition in place `i`; the modifiers have moved by the difference already. */
    method Install(i: nat, c: Condition, ghost speedWas: int, ghost bonusWas: seq<int>, ghost speed0: int, ghost bonus0: seq<int>)
      requires i < |conditions| && conditions[i].SameKey(c) && c.Classed() && |bonus| == BONUSES
      requires Unique(conditions) && AllClassed(conditions)
      requires Accounts(conditions, player, speedWas, bonusWas, speed0, bonus0)
      requires speed == speedWas - conditions[i].SpeedOf() + c.SpeedOf()
      requires forall k: nat :: k < BONUSES ==> bonus[k] == bonusWas[k] - conditions[i].BonusOf(player, k) + c.BonusOf(player, k)
      modifies `conditions
      ensures Ledger(speed0, bonus0) && conditions == old(conditions)[i := c]
    {
      MergeAccounts(conditions, i, c, player, speedWas, bonusWas, speed, bonus, speed0, bonus0);
      UniqueUpdate(conditions, i, c);
      conditions := conditions[i := c];
    }

    /** The virtual `addCondition` of the listed condition `i`: it takes over the terms of `c`, or keeps its own. */
    method Merge(i: nat, c: Condition, now: int, draw: int, percent: seq<int>, verdict: bool, ghost speed0: int, ghost bonus0: seq<int>)
      requires Ledger(speed0, bonus0) && i < |conditions| && conditions[i].SameKey(c) && c.Classed() && |percent| == BONUSES
      modifies this
      ensures Ledger(speed0, bonus0)
      ensures conditions == old(conditions)[i := old(conditions)[i].Merged(c, now, draw, percent, verdict, player)]
    {
      hide Unique, Accounts;
      assert conditions[i] in conditions;
      assert |bonus| == BONUSES by { AccountsLength(conditions, player, speed, bonus, speed0, bonus0); }
      ghost var speedWas, bonusWas := speed, bonus;
      var mine := conditions[i];
      match mine.effect {
        case Speed(oldDelta) =>
          if mine.ticks != FOREVER || c.ticks <= 0 {
            mine := mine.SetTicks(c.ticks, now).(effect := Speed(if c.effect.delta != 0 then c.effect.delta else draw));
            if mine.effect.delta != oldDelta {
              speed := speed + (mine.effect.delta - oldDelta);
            }
          }
        case Attributes(_) =>
          if mine.Yields(c, now) {
            EndCondition(mine);
            mine := mine.SetTicks(c.ticks, now).(effect := c.effect);
            if player {
              mine := mine.(effect := Attributes(AddTo(c.effect.bonus, percent, 1)));
              ShiftBonus(mine.effect.bonus, 1);
            }
          }
        case Other =>
          if verdict {
            mine := mine.SetTicks(c.ticks, now);
          }
      }
      Install(i, mine, speedWas, bonusWas, speed0, bonus0);
    }

    /** `erase` followed by `endCondition` */
    method EraseAt(i: nat, ghost speed0: int, ghost bonus0: seq<int>)
      requires Ledger(speed0, bonus0) && i < |conditions|
      modifies this
      ensures Ledger(speed0, bonus0) && conditions == old(conditions)[..i] + old(conditions)[i + 1..]
    {
      ghost var cs, speedWas, bonusWas := conditions, speed, bonus;
      var c := conditions[i];
      assert c in conditions;
      conditions := conditions[..i] + conditions[i + 1..];
      EndCondition(c);
      EraseAccounts(cs, i, player, speedWas, bonusWas, speed, bonus, speed0, bonus0);
    }

    /** `removeCondition` by type, by type and id, and `removeConditions` */
    method RemoveMatching(f: Filter, ghost speed0: int, ghost bonus0: seq<int>)
      requires Ledger(speed0, bonus0)
      modifies this
      ensures Ledger(speed0, bonus0) && conditions == Kept(old(conditions), f)
    {
      hide Ledger, Kept;
      var i := 0;
      assert conditions[0..] == conditions && conditions[..0] == [];
      while i < |conditions|
        invariant i <= |conditions| && Ledger(speed0, bonus0)
        invariant conditions[..i] + Kept(conditions[i..], f) == Kept(old(conditions), f)
        decreases |conditions| - i
      {
        KeptStep(conditions, i, f);
        if !f.Hits(conditions[i]) {
          i := i + 1;
        } else {
          EraseAt(i, speed0, bonus0);
        }
      }
      KeptEnd(conditions, i, f);
    }

    /** `hasCondition` */
    method HasCondition(kind: nat, subId: int, checkTime: bool, suppressed: set<nat>, now: int) returns (b: bool)
      ensures b <==> kind !in suppressed && exists c :: c in conditions && c.kind == kind && (subId == -1 || c.subId == subId)
                                                        && (checkTime ==> c.ticks == -1 || c.endTime == 0 || c.endTime >= now)
    {
      if kind in suppressed {
        return false;
      }
      for i := 0 to |conditions|
        invariant forall j :: 0 <= j < i ==> !conditions[j].Shows(kind, subId, checkTime, now)
      {
        var c := conditions[i];
        if c.kind != kind || (subId != -1 && c.subId != subId) {
          continue;
        }
        if !checkTime || c.EndTime() == 0 || c.EndTime() >= now {
          assert c in conditions && c.Shows(kind, subId, checkTime, now);
          return true;
        }
      }
      return false;
    }

    /** `onAddCondition`: a paralysis drives out haste and the reverse. */
    method OnAddCondition(kind: nat, suppressed: set<nat>, now: int, ghost speed0: int, ghost bonus0: seq<int>)
      requires Ledger(speed0, bonus0)
      modifies this
      ensures Ledger(speed0, bonus0) && conditions == Rivalry(old(conditions), kind, suppressed, now)
    {
      if kind == CONDITION_PARALYZE {
        var has := HasCondition(CONDITION_HASTE, 0, true, suppressed, now);
        if has {
          RemoveMatching(ByType(CONDITION_HASTE), speed0, bonus0);
        }
      } else if kind == CONDITION_HASTE {
        var has := HasCondition(CONDITION_PARALYZE, 0, true, suppressed, now);
        if has {
          RemoveMatching(ByType(CONDITION_PARALYZE), speed0, bonus0);
        }
      }
    }

    /** `getCondition` by the whole key */
    method GetCondition(key: Condition) returns (i: nat)
      ensures i <= |conditions|
      ensures i < |conditions| ==> conditions[i].SameKey(key)
      ensures forall j :: 0 <= j < i ==> !conditions[j].SameKey(key)
    {
      i := 0;
      while i < |conditions| && !conditions[i].SameKey(key)
        invariant i <= |conditions|
        invariant forall j :: 0 <= j < i ==> !conditions[j].SameKey(key)
      {
        i := i + 1;
      }
    }

    /** `push_back` of a condition that has just been started */
    method Push(c: Condition, ghost speedWas: int, ghost bonusWas: seq<int>, ghost speed0: int, ghost bonus0: seq<int>)
      requires Unique(conditions) && AllClassed(conditions) && c.Classed() && |bonus| == BONUSES
      requires forall j :: 0 <= j < |conditions| ==> !conditions[j].SameKey(c)
      requires Accounts(conditions, player, speedWas, bonusWas, speed0, bonus0)
      requires speed == speedWas + c.SpeedOf()
      requires forall k: nat :: k < BONUSES ==> bonus[k] == bonusWas[k] + c.BonusOf(player, k)
      modifies `conditions
      ensures Ledger(speed0, bonus0) && conditions == old(conditions) + [c]
    {
      PushAccounts(conditions, c, player, speedWas, bonusWas, speed, bonus, speed0, bonus0);
      conditions := conditions + [c];
    }

    method AddCondition(c: Condition, now: int, draw: int, percent: seq<int>, verdict: bool, suppressed: set<nat>,
                        ghost speed0: int, ghost bonus0: seq<int>)
      returns (ok: bool)
      requires Ledger(speed0, bonus0) && c.Classed() && |percent| == BONUSES
      modifies this
      ensures Ledger(speed0, bonus0)
      ensures conditions == Added(old(conditions), c, now, draw, percent, verdict, suppressed, player)
      ensures !ok <==> c.effect.Other? && !verdict
                       && forall d :: d in old(conditions) ==> d.kind != c.kind || d.id != c.id || d.subId != c.subId
    {
      hide Unique, Accounts, Rivalry;
      assert |bonus| == BONUSES by { AccountsLength(conditions, player, speed, bonus, speed0, bonus0); }
      var i := GetCondition(c);
      FindIs(conditions, c, i);
      if i < |conditions| {
        Merge(i, c, now, draw, percent, verdict, speed0, bonus0);
        return true;
      }
      ghost var speedWas, bonusWas := speed, bonus;
      var started;
      ok, started := StartCondition(c, now, draw, percent, verdict);
      if !ok {
        return false;
      }
      Push(started, speedWas, bonusWas, speed0, bonus0);
      OnAddCondition(c.kind, suppressed, now, speed0, bonus0);
    }

    /** `executeConditions`: `others` is what the conditions of a class without such effects do. */
    method ExecuteConditions(interval: int, now: int, others: Condition -> Answer, ghost speed0: int, ghost bonus0: seq<int>)
      requires Ledger(speed0, bonus0)
      modifies this
      ensures Ledger(speed0, bonus0) && conditions == Lasting(old(conditions), interval, now, others)
      ensures forall c :: c in old(conditions) ==>
                ((exists d :: d in conditions && d.kind == c.kind && d.id == c.id && d.subId == c.subId)
                 <==> if c.effect.Other? then others(c).alive else c.ticks == -1 || now <= c.endTime)
    {
      hide Unique, Accounts, Lasting;
      ghost var cs := conditions;
      var i := 0;
      assert conditions[0..] == conditions && conditions[..0] == [];
      while i < |conditions|
        invariant i <= |conditions| && Ledger(speed0, bonus0)
        invariant conditions[..i] + Lasting(conditions[i..], interval, now, others) == Lasting(cs, interval, now, others)
        decreases |conditions| - i
      {
        LastingStep(conditions, i, interval, now, others);
        AccountsLength(conditions, player, speed, bonus, speed0, bonus0);
        assert conditions[i] in conditions;
        var other := others(conditions[i]);
        var c := conditions[i].Executed(interval, now, other);
        var alive := conditions[i].Alive(interval, now, other);
        Install(i, c, speed, bonus, speed0, bonus0);
        if alive {
          i := i + 1;
        } else {
          EraseAt(i, speed0, bonus0);
        }
      }
      LastingEnd(conditions, i, interval, now, others);
      forall c | c in cs
        ensures (exists d :: d in conditions && d.kind == c.kind && d.id == c.id && d.subId == c.subId)
                <==> if c.effect.Other? then others(c).alive else c.ticks == -1 || now <= c.endTime
      {
        RoundEnds(cs, interval, now, others, c);
      }
    }

    method Suffer(e: Event, ghost speed0: int, ghost bonus0: seq<int>)
      requires Ledger(speed0, bonus0) && e.Legal()
      modifies this
      ensures Ledger(speed0, bonus0) && conditions == Next(old(conditions), e, player)
    {
      hide Unique, Accounts, Lasting, Kept, Added;
      match e
      case Add(c, now, draw, percent, verdict, suppressed) =>
        var _ := AddCondition(c, now, draw, percent, verdict, suppressed, speed0, bonus0);
      case Remove(f) => RemoveMatching(f, speed0, bonus0);
      case RemoveOne(i) =>
        if i < |conditions| {
          EraseAt(i, speed0, bonus0);
        }
      case Execute(interval, now, others) => ExecuteConditions(interval, now, others, speed0, bonus0);
    }

    /** A listed speed or attribute condition with an end, over any run that spares it: it is still there if and only if no
        round has come after its end. */
    method Outlast(events: seq<Event>, ghost c: Condition, ghost speed0: int, ghost bonus0: seq<int>)
      requires Ledger(speed0, bonus0) && c in conditions && !c.effect.Other? && c.ticks != -1
      requires forall e :: e in events ==> e.Legal() && e.Spares(c)
      modifies this
      ensures Ledger(speed0, bonus0)
      ensures (exists d :: d in conditions && d.kind == c.kind && d.id == c.id && d.subId == c.subId)
              <==> forall e :: e in events && e.Execute? ==> e.now <= c.endTime
    {
      hide Accounts, Unique, Next, Event.Spares;
      ghost var over := false;
      for k := 0 to |events|
        invariant Ledger(speed0, bonus0)
        invariant over <==> exists j :: 0 <= j < k && events[j].Execute? && c.endTime < events[j].now
        invariant if over then !Listed(conditions, c) else Runs(conditions, c)
      {
        ghost var cs := conditions;
        assert events[k] in events;
        Suffer(events[k], speed0, bonus0);
        if over {
          GoneStaysGone(cs, events[k], player, c);
        } else {
          SparedStays(cs, events[k], player, c);
          over := events[k].Execute? && c.endTime < events[k].now;
        }
      }
    }

    /** A speed or attribute condition of a new key, added at `t` with ticks to run, over rounds at times that do not go back:
        it is there after them if and only if the last of them did not come more than the ticks after `t`. */
    method AddAndWait(c: Condition, t: int, draw: int, percent: seq<int>, suppressed: set<nat>, rounds: seq<Event>,
                      ghost speed0: int, ghost bonus0: seq<int>)
      requires Ledger(speed0, bonus0) && c.Classed() && |percent| == BONUSES && !c.effect.Other? && c.ticks > 0
      requires forall d :: d in conditions ==> d.kind != c.kind || d.id != c.id || d.subId != c.subId
      requires forall k :: 0 <= k < |rounds| ==> rounds[k].Execute?
      requires forall j, k :: 0 <= j < k < |rounds| ==> rounds[j].now <= rounds[k].now
      modifies this
      ensures Ledger(speed0, bonus0)
      ensures (exists d :: d in conditions && d.kind == c.kind && d.id == c.id && d.subId == c.subId)
              <==> rounds == [] || rounds[|rounds| - 1].now <= t + c.ticks
    {
      hide Accounts, Unique, Added;
      NewIsListed(conditions, c, t, draw, percent, true, suppressed, player);
      var _ := AddCondition(c, t, draw, percent, true, suppressed, speed0, bonus0);
      ghost var mine :| mine in conditions && mine == c.(endTime := t + c.ticks, effect := mine.effect)
                        && (mine.effect.Other? <==> c.effect.Other?);
      Outlast(rounds, mine, speed0, bonus0);
      if rounds != [] {
        assert rounds[|rounds| - 1] in rounds;
      }
    }

    /** Over every run of additions, merges, removals, expiries and cancellations the ledger balances. */
    method Run(events: seq<Event>, ghost speed0: int, ghost bonus0: seq<int>)
      requires Ledger(speed0, bonus0) && forall e :: e in events ==> e.Legal()
      modifies this
      ensures Ledger(speed0, bonus0)
    {
      for k := 0 to |events|
        invariant Ledger(speed0, bonus0)
      {
        assert events[k] in events;
        Suffer(events[k], speed0, bonus0);
      }
    }

    /** Whatever has happened before, taking every condition off gives back the speed and skills of the start. */
    method RunAndStrip(events: seq<Event>)
      requires |bonus| == BONUSES && conditions == [] && forall e :: e in events ==> e.Legal()
      modifies this
      ensures conditions == [] && speed == old(speed) && bonus == old(bonus)
    {
      Run(events, speed, bonus);
      NothingKept(conditions);
      RemoveMatching(All(false), old(speed), old(bonus));
      assert bonus == old(bonus);
    }
  }

  lemma AccountsLength(cs: seq<Condition>, player: bool, speed: int, bonus: seq<int>, speed0: int, bonus0: seq<int>)
    requires Accounts(cs, player, speed, bonus, speed0, bonus0)
    ensures |bonus| == BONUSES
  {
  }

  lemma EraseAccounts(cs: seq<Condition>, i: nat, player: bool,
                      speed: int, bonus: seq<int>, speed': int, bonus': seq<int>, speed0: int, bonus0: seq<int>)
    requires i < |cs| && Accounts(cs, player, speed, bonus, speed0, bonus0)
    requires |bonus'| == BONUSES && speed' == speed - cs[i].SpeedOf()
    requires forall k: nat :: k < BONUSES ==> bonus'[k] == bonus[k] - cs[i].BonusOf(player, k)
    ensures Accounts(cs[..i] + cs[i + 1..], player, speed', bonus', speed0, bonus0)
  {
    SumOfOne(cs[i], player);
    assert cs == cs[..i] + [cs[i]] + cs[i + 1..];
    assert cs[..i] + cs[i + 1..] == cs[..i] + [] + cs[i + 1..];
    AccountsSplice(cs[..i], [cs[i]], [], cs[i + 1..], player, speed, bonus, speed', bonus', speed0, bonus0);
  }

  lemma PushAccounts(cs: seq<Condition>, c: Condition, player: bool,
                     speed: int, bonus: seq<int>, speed': int, bonus': seq<int>, speed0: int, bonus0: seq<int>)
    requires Accounts(cs, player, speed, bonus, speed0, bonus0)
    requires |bonus'| == BONUSES && speed' == speed + c.SpeedOf()
    requires forall k: nat :: k < BONUSES ==> bonus'[k] == bonus[k] + c.BonusOf(player, k)
    ensures Accounts(cs + [c], player, speed', bonus', speed0, bonus0)
  {
    SumOfOne(c, player);
    assert cs == cs + [] + [] && cs + [c] == cs + [c] + [];
    AccountsSplice(cs, [], [c], [], player, speed, bonus, speed', bonus', speed0, bonus0);
  }

  lemma UniqueUpdate(cs: seq<Condition>, i: nat, c: Condition)
    requires Unique(cs) && i < |cs| && cs[i].SameKey(c)
    ensures Unique(cs[i := c])
  {
  }

  lemma MergeAccounts(cs: seq<Condition>, i: nat, c: Condition, player: bool,
                      speed: int, bonus: seq<int>, speed': int, bonus': seq<int>, speed0: int, bonus0: seq<int>)
    requires i < |cs| && Accounts(cs, player, speed, bonus, speed0, bonus0)
    requires |bonus'| == BONUSES && speed' == speed - cs[i].SpeedOf() + c.SpeedOf()
    requires forall k: nat :: k < BONUSES ==> bonus'[k] == bonus[k] - cs[i].BonusOf(player, k) + c.BonusOf(player, k)
    ensures Accounts(cs[i := c], player, speed', bonus', speed0, bonus0)
  {
    SumOfOne(cs[i], player);
    SumOfOne(c, player);
    assert cs == cs[..i] + [cs[i]] + cs[i + 1..];
    assert cs[i := c] == cs[..i] + [c] + cs[i + 1..];
    AccountsSplice(cs[..i], [cs[i]], [c], cs[i + 1..], player, speed, bonus, speed', bonus', speed0, bonus0);
  }
}
