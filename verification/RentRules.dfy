/** House rent over time: what paying, warning and repossession do to a house, and what holds over whole ownerships. */
module RentRules {

  const DAY := 86400

  datatype Period = Daily | Weekly | Monthly | Yearly | Never

  function Seconds(p: Period): nat {
    match p
    case Daily => DAY
    case Weekly => 7 * DAY
    case Monthly => 30 * DAY
    case Yearly => 365 * DAY
    case Never => 0
  }

  function WarningsLimit(p: Period): nat {
    match p
    case Daily => 1
    case Weekly => 3
    case Monthly => 7
    case Yearly => 14
    case Never => 7
  }

  datatype Option<T> = None | Some(value: T)

  /** The rent fields of a house; owner 0 is nobody. */
  datatype Home = Home(owner: nat, paidUntil: int, warnings: nat, lastWarning: int, rent: nat, guild: bool)

  /** What `payHouse` finds out about the owner: the town, the guild's owner, his name, himself,
      premium time, a login too long ago, the flag that frees from rent, and whether he has the money. */
  datatype Circumstances = Circumstances(town: bool, guildOwner: bool, named: bool, loaded: bool, premium: bool,
                                         stale: bool, ignores: bool, pays: bool)

  /** `setOwnerEx` once it is clear who the new owner is. */
  function Given(h: Home, guid: nat, now: int): Home {
    var g := if h.owner != 0 then h.(warnings := 0, paidUntil := 0) else h;
    g.(owner := guid, lastWarning := if guid != 0 then now else 0)
  }

  /** `setOwnerEx`; `guildId` is the guild of the player found. */
  function Owned(h: Home, guid: nat, now: int, guildId: Option<nat>): Home {
    if h.owner == guid then h
    else if h.guild && guid != 0 then
      match guildId
      case None => h
      case Some(g) => Given(h, g, now)
    else Given(h, guid, now)
  }

  predicate RentDue(h: Home, p: Period, time: int) {
    p != Never && h.owner != 0 && h.paidUntil <= time && h.rent != 0
  }

  /** `payRent` really takes the rent; `time` is the time the caller passes, which may be 0. */
  predicate Charges(h: Home, p: Period, time: int, c: Circumstances) {
    RentDue(h, p, time) && !c.ignores && c.town && c.pays
  }

  /** `payRent` says that the rent is paid. */
  predicate Settled(h: Home, p: Period, time: int, c: Circumstances) {
    !RentDue(h, p, time) || c.ignores || (c.town && c.pays)
  }

  /** The house after `payRent` at the moment `now`. */
  function RentPaid(h: Home, p: Period, time: int, now: int, c: Circumstances): Home {
    if Charges(h, p, time, c) then h.(paidUntil := (if time != 0 then time else now) + Seconds(p)) else h
  }

  datatype Outcome = Nothing | Charged | Warned | Evicted | Repossessed

  /** What one call of `payHouse` comes to: Evicted for the owner's state, Repossessed for rent not paid. */
  function Verdict(h: Home, p: Period, now: int, c: Circumstances): Outcome {
    if !RentDue(h, p, now) || !c.town then Nothing
    else if (h.guild && !c.guildOwner) || !c.named then Evicted
    else if !c.loaded then Nothing
    else if !c.premium || c.stale then Evicted
    else if Charges(h, p, now, c) then Charged
    else if c.ignores || now < h.lastWarning + DAY then Nothing
    else if h.warnings < WarningsLimit(p) then Warned
    else Repossessed
  }

  /** The house after `payHouse`. */
  function HousePaid(h: Home, p: Period, now: int, c: Circumstances): Home {
    match Verdict(h, p, now, c)
    case Nothing => h
    case Charged => RentPaid(h, p, now, now, c)
    case Warned => h.(warnings := h.warnings + 1, lastWarning := now)
    case _ => Owned(h, 0, now, None)
  }

  // ---------------------------------------------------------------- ownerships over time

  /** How the present owner came by the house: through `setOwnerEx`, or by winning an auction of a house
      that was free, or of one that was not. */
  datatype Acquisition = Bought | WonFree | WonOwned

  /** A house with the history of its present ownership: since when, how, and when rent was taken. */
  datatype Tenure = Tenure(home: Home, clock: int, acquired: int, how: Acquisition, charges: seq<int>)

  datatype Event =
    | SetOwnerEx(guid: nat, now: int, guildId: Option<nat>)
    | PayHouse(now: int, c: Circumstances)
    | PayRent(now: int, c: Circumstances)
    | Auction(guid: nat, now: int, c: Circumstances)

  /** Time does not run backwards, and auctions are won by somebody. */
  predicate Legal(t: Tenure, e: Event) {
    0 < e.now && t.clock <= e.now && (e.Auction? ==> e.guid != 0)
  }

  function Handed(t: Tenure, h: Home, now: int, how: Acquisition): Tenure {
    Tenure(h, now, now, how, [])
  }

  function Paying(t: Tenure, p: Period, now: int, c: Circumstances): Tenure {
    var h := HousePaid(t.home, p, now, c);
    match Verdict(t.home, p, now, c)
    case Charged => t.(home := h, clock := now, charges := t.charges + [now])
    case Evicted => Handed(t, h, now, Bought)
    case Repossessed => Handed(t, h, now, Bought)
    case _ => t.(home := h, clock := now)
  }

  function Next(t: Tenure, p: Period, e: Event): Tenure {
    match e
    case SetOwnerEx(guid, now, guildId) =>
      if t.home.owner == guid || (t.home.guild && guid != 0 && guildId.None?) then t.(clock := now)
      else Handed(t, Owned(t.home, guid, now, guildId), now, Bought)
    case PayHouse(now, c) => Paying(t, p, now, c)
    case PayRent(now, c) =>
      if Charges(t.home, p, 0, c) then t.(home := RentPaid(t.home, p, 0, now, c), clock := now, charges := t.charges + [now])
      else t.(clock := now)
    case Auction(guid, now, c) =>
      Paying(Handed(t, t.home.(owner := guid), now, if t.home.owner == 0 then WonFree else WonOwned), p, now, c)
  }

  predicate Run(t: Tenure, p: Period, es: seq<Event>)
    decreases |es|
  {
    es == [] || (Legal(t, es[0]) && Run(Next(t, p, es[0]), p, es[1..]))
  }

  function After(t: Tenure, p: Period, es: seq<Event>): Tenure
    decreases |es|
  {
    if es == [] then t else After(Next(t, p, es[0]), p, es[1..])
  }

  /** A new house. */
  function Vacant(rent: nat, guild: bool): Tenure {
    Tenure(Home(0, 0, 0, 0, rent, guild), 0, 0, Bought, [])
  }

  // ---------------------------------------------------------------- what every event keeps

  predicate Spaced(charges: seq<int>, seconds: nat) {
    forall i :: 0 < i < |charges| ==> charges[i - 1] + seconds <= charges[i]
  }

  /** Each warning has cost a day since the house was acquired; after an auction the first one was free. */
  predicate Paced(t: Tenure) {
    && (t.how == Bought && t.home.owner != 0 ==> t.acquired + t.home.warnings * DAY <= t.home.lastWarning)
    && (t.how == WonFree && t.home.warnings > 0 ==> t.acquired + (t.home.warnings - 1) * DAY <= t.home.lastWarning)
  }

  predicate Fair(t: Tenure, p: Period) {
    && (t.home.owner == 0 ==> t.home.warnings == 0 && t.home.paidUntil == 0 && t.home.lastWarning == 0)
    && t.home.warnings <= WarningsLimit(p)
    && 0 <= t.acquired <= t.clock && t.home.lastWarning <= t.clock
    && Paced(t)
    && Spaced(t.charges, Seconds(p))
    && (t.charges != [] ==> t.charges[|t.charges| - 1] > 0 && t.home.paidUntil == t.charges[|t.charges| - 1] + Seconds(p))
  }

  lemma PayingKeepsFair(t: Tenure, p: Period, now: int, c: Circumstances)
    requires Fair(t, p) && 0 < now && t.clock <= now
    ensures Fair(Paying(t, p, now, c), p)
  {
  }

  /** Every event, at any time not before the last, keeps a tenure fair. */
  lemma FairKept(t: Tenure, p: Period, e: Event)
    requires Fair(t, p) && Legal(t, e)
    ensures Fair(Next(t, p, e), p)
  {
    hide Paying;
    match e {
      case PayHouse(now, c) => PayingKeepsFair(t, p, now, c);
      case Auction(guid, now, c) =>
        var how := if t.home.owner == 0 then WonFree else WonOwned;
        PayingKeepsFair(Handed(t, t.home.(owner := guid), now, how), p, now, c);
      case _ =>
    }
  }

  lemma {:induction false} FairAlong(t: Tenure, p: Period, es: seq<Event>)
    requires Fair(t, p) && Run(t, p, es)
    ensures Fair(After(t, p, es), p)
    decreases |es|
  {
    hide Fair, Next, Legal;
    if es != [] {
      FairKept(t, p, es[0]);
      FairAlong(Next(t, p, es[0]), p, es[1..]);
    }
  }

  // ---------------------------------------------------------------- over all runs

  /** Within one ownership rent is taken at most once per period, whoever asks for it. */
  lemma {:induction false} SpacedApart(charges: seq<int>, seconds: nat, i: nat, j: nat)
    requires Spaced(charges, seconds) && i < j < |charges|
    ensures charges[i] + seconds <= charges[j]
    decreases j - i
  {
    if i + 1 < j {
      SpacedApart(charges, seconds, i + 1, j);
      assert charges[(i + 1) - 1] + seconds <= charges[i + 1];
    } else {
      assert charges[j - 1] + seconds <= charges[j];
    }
  }

  /** From a new house on, through every run: any two charges of one ownership are a rent period apart. */
  lemma ChargesApart(rent: nat, guild: bool, p: Period, es: seq<Event>, i: nat, j: nat)
    requires Run(Vacant(rent, guild), p, es)
    requires i < j < |After(Vacant(rent, guild), p, es).charges|
    ensures var t := After(Vacant(rent, guild), p, es); t.charges[i] + Seconds(p) <= t.charges[j]
  {
    hide Run, After;
    FairAlong(Vacant(rent, guild), p, es);
    SpacedApart(After(Vacant(rent, guild), p, es).charges, Seconds(p), i, j);
  }

  /** The warnings never exceed the limit, and a house without owner has none and owes nothing. */
  lemma WarningsLimited(rent: nat, guild: bool, p: Period, es: seq<Event>)
    requires Run(Vacant(rent, guild), p, es)
    ensures var h := After(Vacant(rent, guild), p, es).home;
            h.warnings <= WarningsLimit(p) && (h.owner == 0 ==> h.warnings == 0 && h.paidUntil == 0)
  {
    hide Run, After;
    FairAlong(Vacant(rent, guild), p, es);
  }

  /** Whatever has happened before: a house is taken back for unpaid rent only when all warnings have been given, and not
      before the earliest time for its present owner; that is no sooner than limit + 1 days after it was bought, and limit days
      after it was won at auction, if it was free. */
  lemma NotBeforeTime(rent: nat, guild: bool, p: Period, es: seq<Event>, now: int, c: Circumstances)
    requires Run(Vacant(rent, guild), p, es)
    requires var t := After(Vacant(rent, guild), p, es);
             Legal(t, PayHouse(now, c)) && Verdict(t.home, p, now, c) == Repossessed
    ensures var t := After(Vacant(rent, guild), p, es);
            && t.home.warnings == WarningsLimit(p) && !c.pays && now >= Earliest(t, p)
            && (t.how == Bought ==> now >= t.acquired + (WarningsLimit(p) + 1) * DAY)
            && (t.how == WonFree ==> now >= t.acquired + WarningsLimit(p) * DAY)
  {
    hide Run, After;
    FairAlong(Vacant(rent, guild), p, es);
  }

  lemma WarningsOnlyGrow(t: Tenure, p: Period, e: Event)
    requires e.PayHouse? || e.PayRent?
    requires Next(t, p, e).home.owner != 0
    ensures t.home.warnings <= Next(t, p, e).home.warnings && t.home.owner == Next(t, p, e).home.owner
  {
  }

  /** Rent paid takes no warning back: over every run of payments and attempts to collect that the owner survives, the
      warnings only grow, so the limit counts all the days of an ownership on which rent was owing. */
  lemma {:induction false} WarningsStay(t: Tenure, p: Period, es: seq<Event>)
    requires Run(t, p, es) && (forall e :: e in es ==> e.PayHouse? || e.PayRent?)
    requires After(t, p, es).home.owner != 0
    ensures t.home.warnings <= After(t, p, es).home.warnings && t.home.owner == After(t, p, es).home.owner
    decreases |es|
  {
    hide Next, Legal;
    if es != [] {
      assert es[0] in es;
      var u := Next(t, p, es[0]);
      WarningsStay(u, p, es[1..]);
      WarningsOnlyGrow(t, p, es[0]);
    }
  }

  // ---------------------------------------------------------------- the bounds are reached

  /** An owner who is there but has no money. */
  const POOR := Circumstances(true, true, true, true, true, false, false, false)

  /** `n` daily attempts to collect, the first at `from`. */
  function Attempts(from: int, n: nat): seq<Event>
    decreases n
  {
    if n == 0 then [] else [PayHouse(from, POOR)] + Attempts(from + DAY, n - 1)
  }

  lemma {:induction false} WarnedDaily(t: Tenure, p: Period, from: int, n: nat)
    requires p != Never && t.home.owner != 0 && t.home.rent != 0 && t.home.paidUntil <= from && 0 < from && t.clock <= from
    requires t.home.lastWarning + DAY <= from && t.home.warnings + n <= WarningsLimit(p)
    ensures Run(t, p, Attempts(from, n))
    ensures var u := After(t, p, Attempts(from, n));
            n > 0 ==> u == t.(home := t.home.(warnings := t.home.warnings + n, lastWarning := from + (n - 1) * DAY), clock := from + (n - 1) * DAY)
    decreases n
  {
    if n > 0 {
      var es := Attempts(from, n);
      assert es[1..] == Attempts(from + DAY, n - 1);
      var u := Next(t, p, es[0]);
      assert u == t.(home := t.home.(warnings := t.home.warnings + 1, lastWarning := from), clock := from);
      WarnedDaily(u, p, from + DAY, n - 1);
      if n == 1 {
        assert Attempts(from + DAY, 0) == [];
      }
    }
  }

  /** A bought house can be lost exactly limit + 1 days after the purchase. */
  lemma LostOnTime(rent: nat, p: Period, guid: nat, start: int)
    requires p != Never && rent != 0 && guid != 0 && start > 0
    ensures var bought := Next(Vacant(rent, false), p, SetOwnerEx(guid, start, None));
            var es := Attempts(start + DAY, WarningsLimit(p));
            var t := After(bought, p, es);
            && bought.acquired == start && bought.how == Bought && Run(bought, p, es)
            && Verdict(t.home, p, start + (WarningsLimit(p) + 1) * DAY, POOR) == Repossessed
  {
    var bought := Next(Vacant(rent, false), p, SetOwnerEx(guid, start, None));
    WarnedDaily(bought, p, start + DAY, WarningsLimit(p));
  }

  /** A house won at auction can be lost a day sooner: the winner's last-warning time is not set, so the first warning
      comes with the acquisition itself. */
  lemma LostEarly(rent: nat, p: Period, guid: nat, start: int)
    requires p != Never && rent != 0 && guid != 0 && start >= DAY
    ensures var won := Next(Vacant(rent, false), p, Auction(guid, start, POOR));
            var es := Attempts(start + DAY, WarningsLimit(p) - 1);
            var t := After(won, p, es);
            && won.acquired == start && won.how == WonFree && won.home.warnings == 1 && Run(won, p, es)
            && Verdict(t.home, p, start + WarningsLimit(p) * DAY, POOR) == Repossessed
  {
    var won := Next(Vacant(rent, false), p, Auction(guid, start, POOR));
    WarnedDaily(won, p, start + DAY, WarningsLimit(p) - 1);
    if WarningsLimit(p) == 1 {
      assert Attempts(start + DAY, 0) == [];
    }
  }

  /** The winner of a house that was not free takes over the old owner's warnings, and can lose it on the spot. */
  lemma NoGraceAfterOwner(t: Tenure, p: Period, guid: nat, now: int)
    requires p != Never && Fair(t, p) && t.home.owner != 0 && t.home.rent != 0 && guid != 0
    requires t.home.paidUntil <= now && t.home.lastWarning + DAY <= now
    ensures Next(t, p, Auction(guid, now, POOR)).home.owner == 0 <==> t.home.warnings == WarningsLimit(p)
  {
  }

  // ---------------------------------------------------------------- exactly when a house can be lost

  function Max(a: int, b: int): int {
    if a < b then b else a
  }

  /** The first moment at which the rent can be asked for with an effect on the warnings. */
  function NextWarning(t: Tenure): int {
    Max(Max(1, t.clock), Max(t.home.paidUntil, t.home.lastWarning + DAY))
  }

  /** The earliest time at which the present owner can lose the house for unpaid rent: a day for each warning left. */
  function Earliest(t: Tenure, p: Period): int {
    NextWarning(t) + (WarningsLimit(p) - t.home.warnings) * DAY
  }

  /** `setOwnerEx` returns without a change. */
  predicate Refused(t: Tenure, e: Event)
    requires e.SetOwnerEx?
  {
    t.home.owner == e.guid || (t.home.guild && e.guid != 0 && e.guildId.None?)
  }

  /** The event gives the house to nobody: payments, attempts to collect, and refused changes of owner. */
  predicate Leaves(t: Tenure, e: Event) {
    !e.Auction? && (e.SetOwnerEx? ==> Refused(t, e))
  }

  /** A run in which the house changes hands by being taken away at most. */
  predicate Tenancy(t: Tenure, p: Period, es: seq<Event>)
    decreases |es|
  {
    es == [] || (Legal(t, es[0]) && Leaves(t, es[0]) && Tenancy(Next(t, p, es[0]), p, es[1..]))
  }

  lemma PayingNeverFalls(t: Tenure, p: Period, now: int, c: Circumstances)
    requires 0 < now && t.clock <= now && Paying(t, p, now, c).home.owner != 0
    ensures t.home.owner != 0 && Earliest(t, p) <= Earliest(Paying(t, p, now, c), p)
  {
    hide Owned;
    assert Verdict(t.home, p, now, c) != Evicted && Verdict(t.home, p, now, c) != Repossessed by { Taken(t.home, now); }
  }

  lemma Taken(h: Home, now: int)
    ensures Owned(h, 0, now, None).owner == 0
  {
  }

  /** No event that leaves the owner brings the earliest loss nearer. */
  lemma EarliestNeverFalls(t: Tenure, p: Period, e: Event)
    requires Legal(t, e) && Leaves(t, e) && Next(t, p, e).home.owner != 0
    ensures t.home.owner != 0 && Earliest(t, p) <= Earliest(Next(t, p, e), p)
  {
    hide Paying;
    if e.PayHouse? {
      PayingNeverFalls(t, p, e.now, e.c);
    }
  }

  lemma {:induction false} EarliestAlong(t: Tenure, p: Period, es: seq<Event>)
    requires Tenancy(t, p, es) && After(t, p, es).home.owner != 0
    ensures t.home.owner != 0 && Earliest(t, p) <= Earliest(After(t, p, es), p)
    decreases |es|
  {
    hide Next, Legal, Leaves, Earliest;
    if es != [] {
      EarliestAlong(Next(t, p, es[0]), p, es[1..]);
      EarliestNeverFalls(t, p, es[0]);
    }
  }

  /** The house is taken for unpaid rent at the given time. */
  predicate LostAt(t: Tenure, p: Period, late: int, c: Circumstances) {
    Legal(t, PayHouse(late, c)) && Verdict(t.home, p, late, c) == Repossessed
  }

  lemma LostAfterEarliest(t: Tenure, p: Period, late: int, c: Circumstances)
    requires t.home.warnings <= WarningsLimit(p) && LostAt(t, p, late, c)
    ensures t.home.owner != 0 && p != Never && t.home.rent != 0 && late >= Earliest(t, p)
  {
  }

  lemma {:induction false} AttemptsAreTenancy(t: Tenure, p: Period, from: int, n: nat)
    requires Run(t, p, Attempts(from, n))
    ensures Tenancy(t, p, Attempts(from, n))
    decreases n
  {
    if n > 0 {
      var es := Attempts(from, n);
      assert es[1..] == Attempts(from + DAY, n - 1);
      AttemptsAreTenancy(Next(t, p, es[0]), p, from + DAY, n - 1);
    }
  }

  /** From the earliest time on it can happen: daily attempts on an owner without money. */
  lemma LostFromEarliest(t: Tenure, p: Period, late: int)
    requires Fair(t, p) && t.home.owner != 0 && t.home.rent != 0 && p != Never && late >= Earliest(t, p)
    ensures var es := Attempts(NextWarning(t), WarningsLimit(p) - t.home.warnings);
            Tenancy(t, p, es) && LostAt(After(t, p, es), p, late, POOR)
  {
    var n := WarningsLimit(p) - t.home.warnings;
    WarnedDaily(t, p, NextWarning(t), n);
    AttemptsAreTenancy(t, p, NextWarning(t), n);
    if n == 0 {
      assert Attempts(NextWarning(t), 0) == [];
    }
  }

  lemma RentKept(t: Tenure, p: Period, e: Event)
    ensures Next(t, p, e).home.rent == t.home.rent
  {
  }

  lemma {:induction false} RentStays(t: Tenure, p: Period, es: seq<Event>)
    ensures After(t, p, es).home.rent == t.home.rent
    decreases |es|
  {
    hide Next;
    if es != [] {
      RentKept(t, p, es[0]);
      RentStays(Next(t, p, es[0]), p, es[1..]);
    }
  }

  lemma {:induction false} TenancyIsRun(t: Tenure, p: Period, es: seq<Event>)
    requires Tenancy(t, p, es)
    ensures Run(t, p, es)
    decreases |es|
  {
    hide Next, Legal;
    if es != [] {
      TenancyIsRun(Next(t, p, es[0]), p, es[1..]);
    }
  }

  /** The exact condition: as things stand, the owner can lose the house for unpaid rent at a given time if and only if rent
      is asked for at all and the time is not before the earliest. */
  lemma CanBeLost(t: Tenure, p: Period, late: int)
    requires Fair(t, p) && t.home.owner != 0
    ensures (exists es, c :: Tenancy(t, p, es) && LostAt(After(t, p, es), p, late, c))
            <==> p != Never && t.home.rent != 0 && late >= Earliest(t, p)
  {
    hide Tenancy, LostAt, Earliest, NextWarning, After, Run;
    if p != Never && t.home.rent != 0 && late >= Earliest(t, p) {
      LostFromEarliest(t, p, late);
    }
    if exists es, c :: Tenancy(t, p, es) && LostAt(After(t, p, es), p, late, c) {
      var es, c :| Tenancy(t, p, es) && LostAt(After(t, p, es), p, late, c);
      TenancyIsRun(t, p, es);
      FairAlong(t, p, es);
      LostAfterEarliest(After(t, p, es), p, late, c);
      EarliestAlong(t, p, es);
      RentStays(t, p, es);
    }
  }

  /** An event that hands the house to an owner. */
  predicate Acquires(t: Tenure, e: Event) {
    e.Auction? || (e.SetOwnerEx? && !Refused(t, e))
  }

  /** How long an owner is safe from the event that gives him the house. After a purchase all warnings and a day.
      After an auction the old owner's warnings count (none if the house was free), and so do his paid rent and his last warning;
      rent taken on the spot is worth its period, and the first warning, when it comes with the house, costs a day. */
  function Grace(t: Tenure, p: Period, e: Event): int
    requires Acquires(t, e)
  {
    if e.SetOwnerEx? then (WarningsLimit(p) + 1) * DAY
    else
      var left := (WarningsLimit(p) - t.home.warnings) * DAY;
      match Verdict(t.home.(owner := e.guid), p, e.now, e.c)
      case Charged => Seconds(p) + left
      case Warned => left
      case _ => Max(0, Max(t.home.paidUntil, t.home.lastWarning + DAY) - e.now) + left
  }

  lemma GraceIs(t: Tenure, p: Period, e: Event)
    requires Fair(t, p) && Legal(t, e) && Acquires(t, e) && Next(t, p, e).home.owner != 0
    ensures Earliest(Next(t, p, e), p) == e.now + Grace(t, p, e)
  {
    if e.SetOwnerEx? {
      GraceOfPurchase(t, p, e);
    } else {
      GraceOfAuction(t, p, e);
    }
  }

  lemma GraceOfPurchase(t: Tenure, p: Period, e: Event)
    requires Fair(t, p) && Legal(t, e) && e.SetOwnerEx? && !Refused(t, e) && Next(t, p, e).home.owner != 0
    ensures Earliest(Next(t, p, e), p) == e.now + Grace(t, p, e)
  {
    hide Paying, Verdict;
  }

  lemma GraceOfAuction(t: Tenure, p: Period, e: Event)
    requires Fair(t, p) && Legal(t, e) && e.Auction? && Next(t, p, e).home.owner != 0
    ensures Earliest(Next(t, p, e), p) == e.now + Grace(t, p, e)
  {
    hide Spaced, Paced;
    var won := t.home.(owner := e.guid);
    var u := Handed(t, won, e.now, if t.home.owner == 0 then WonFree else WonOwned);
    PaidGrace(u, p, e.now, e.c);
    hide Verdict, Paying;
  }

  /** What one attempt to collect at the moment of acquisition makes of the earliest loss. */
  lemma PaidGrace(u: Tenure, p: Period, now: int, c: Circumstances)
    requires 0 < now == u.clock && u.home.lastWarning <= now && Paying(u, p, now, c).home.owner != 0
    ensures var left := (WarningsLimit(p) - u.home.warnings) * DAY;
            Earliest(Paying(u, p, now, c), p) ==
              match Verdict(u.home, p, now, c)
              case Charged => now + Seconds(p) + left
              case Warned => now + left
              case _ => Max(now, Max(u.home.paidUntil, u.home.lastWarning + DAY)) + left
  {
    hide Owned;
    Taken(u.home, now);
  }

  /** After any history, a house acquired by a purchase or at auction can be lost for unpaid rent exactly from the end of its
      owner's grace on. */
  lemma LostExactlyAfterGrace(rent: nat, guild: bool, p: Period, before: seq<Event>, e: Event, late: int)
    requires Run(Vacant(rent, guild), p, before)
    requires var t := After(Vacant(rent, guild), p, before);
             Legal(t, e) && Acquires(t, e) && Next(t, p, e).home.owner != 0
    ensures var t := After(Vacant(rent, guild), p, before);
            var u := Next(t, p, e);
            (exists es, c :: Tenancy(u, p, es) && LostAt(After(u, p, es), p, late, c))
            <==> p != Never && rent != 0 && late >= e.now + Grace(t, p, e)
  {
    hide Run, After, Legal, Acquires, Next, Fair, Vacant, Grace, Earliest;
    VacantIsFair(rent, guild, p);
    FairAlong(Vacant(rent, guild), p, before);
    var t := After(Vacant(rent, guild), p, before);
    FairKept(t, p, e);
    GraceIs(t, p, e);
    RentStays(Vacant(rent, guild), p, before);
    RentKept(t, p, e);
    CanBeLost(Next(t, p, e), p, late);
  }

  lemma VacantIsFair(rent: nat, guild: bool, p: Period)
    ensures Fair(Vacant(rent, guild), p) && Vacant(rent, guild).home.rent == rent
  {
  }

  /** The winner of a free house has the full grace of a buyer exactly when rent is taken on the spot, and a day less
      at the worst. */
  lemma FreeAuctionGrace(t: Tenure, p: Period, e: Event)
    requires Fair(t, p) && Legal(t, e) && e.Auction? && t.home.owner == 0 && p != Never
    ensures var v := Verdict(t.home.(owner := e.guid), p, e.now, e.c);
            Grace(t, p, e) >= (WarningsLimit(p) + 1) * DAY <==> v == Charged
    ensures Grace(t, p, e) >= WarningsLimit(p) * DAY
  {
  }

  /** The winner of a house that was not free is safe for as many days as the old owner had warnings left. */
  lemma OwnedAuctionGrace(t: Tenure, p: Period, e: Event)
    requires Fair(t, p) && Legal(t, e) && e.Auction? && p != Never
    ensures Grace(t, p, e) >= (WarningsLimit(p) - t.home.warnings) * DAY
    ensures Verdict(t.home.(owner := e.guid), p, e.now, e.c) == Charged ==>
              Grace(t, p, e) >= (WarningsLimit(p) + 1 - t.home.warnings) * DAY
  {
  }
}
