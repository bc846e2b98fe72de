/** Houses and their owners as objects: the methods that take rent, warn and repossess. */
module Houses {
  import opened RentRules

  class Player {
    var balance: nat
    /** The money in the depot of the house's town. */
    var depotMoney: nat
    const hasDepot: bool
    const premium: bool
    const lastLogin: int
    const ignoresRent: bool

    constructor (balance: nat, depotMoney: nat, hasDepot: bool, premium: bool, lastLogin: int, ignoresRent: bool)
      ensures this.balance == balance && this.depotMoney == depotMoney && this.hasDepot == hasDepot
      ensures this.premium == premium && this.lastLogin == lastLogin && this.ignoresRent == ignoresRent
    {
      this.balance, this.depotMoney, this.hasDepot := balance, depotMoney, hasDepot;
      this.premium, this.lastLogin, this.ignoresRent := premium, lastLogin, ignoresRent;
    }

    predicate Pays(amount: nat, bank: bool)
      reads this
    {
      (bank && balance >= amount) || (hasDepot && depotMoney >= amount)
    }
  }

  class House {
    var owner: nat
    var paidUntil: int
    var rentWarnings: nat
    var lastWarning: int
    const rent: nat
    const guild: bool

    function Now(): Home
      reads this
    {
      Home(owner, paidUntil, rentWarnings, lastWarning, rent, guild)
    }

    constructor (rent: nat, guild: bool)
      ensures Now() == Vacant(rent, guild).home
    {
      this.rent, this.guild := rent, guild;
      owner, paidUntil, rentWarnings, lastWarning := 0, 0, 0, 0;
    }

    method SetOwner(guid: nat)
      modifies `owner
      ensures owner == guid
    {
      owner := guid;
    }

    /** `setOwnerEx`; `guildId` is the guild of the player with this guid, if he is found. */
    method SetOwnerEx(guid: nat, now: int, guildId: Option<nat>) returns (ok: bool)
      modifies this
      ensures Now() == Owned(old(Now()), guid, now, guildId)
      ensures ok <==> old(owner) == guid || !guild || guid == 0 || guildId.Some?
      ensures !ok || old(owner) == guid ==> Now() == old(Now())
      ensures ok && old(owner) != guid ==>
        && owner == (if guild && guid != 0 then guildId.value else guid) && lastWarning == (if owner != 0 then now else 0)
        && rentWarnings == (if old(owner) != 0 then 0 else old(rentWarnings))
        && paidUntil == (if old(owner) != 0 then 0 else old(paidUntil))
    {
      if owner == guid {
        return true;
      }
      var newOwner := guid;
      if guild && guid != 0 {
        if guildId.None? {
          return false;
        }
        newOwner := guildId.value;
      }
      if owner != 0 {
        rentWarnings, paidUntil := 0, 0;
      }
      SetOwner(newOwner);
      lastWarning := if newOwner != 0 then now else 0;
      return true;
    }
  }

  class Landlord {
    const period: Period
    const bank: bool
    const needPremium: bool
    /** `houseCleanOld`, 0 for never */
    const cleanOld: int

    constructor (period: Period, bank: bool, needPremium: bool, cleanOld: int) {
      this.period, this.bank, this.needPremium, this.cleanOld := period, bank, needPremium, cleanOld;
    }

    /** The circumstances of `payHouse` for the owner found, or for nobody. */
    function Case(player: Player?, town: bool, guildOwner: bool, named: bool, amount: nat, time: int): Circumstances
      reads player
    {
      if player == null then Circumstances(town, guildOwner, named, false, true, false, false, false)
      else Circumstances(town, guildOwner, named, true, player.premium || !needPremium,
                         cleanOld != 0 && time >= player.lastLogin + cleanOld, player.ignoresRent, player.Pays(amount, bank))
    }

    /** `payRent`: rent and bid come from the bank if that is in use and has enough, else from the depot. Nothing else changes hands. */
    method PayRent(player: Player, house: House, bid: nat, time: int, now: int, town: bool) returns (paid: bool)
      modifies player, house
      ensures var c := old(Case(player, town, true, true, house.rent + bid, time));
              && house.Now() == RentPaid(old(house.Now()), period, time, now, c)
              && paid == Settled(old(house.Now()), period, time, c)
              && player.balance + player.depotMoney ==
                 old(player.balance + player.depotMoney) - (if Charges(old(house.Now()), period, time, c) then house.rent + bid else 0)
      ensures house.paidUntil != old(house.paidUntil) ==>
        var days := if period == Daily then 1 else if period == Weekly then 7 else if period == Monthly then 30 else 365;
        && house.paidUntil == (if time != 0 then time else now) + days * 86400
        && old(house.owner) != 0 && old(house.paidUntil) <= time && house.rent != 0 && !player.ignoresRent && town
        && if bank && old(player.balance) >= house.rent + bid
           then player.balance == old(player.balance) - house.rent - bid && player.depotMoney == old(player.depotMoney)
           else player.hasDepot && player.balance == old(player.balance) && player.depotMoney == old(player.depotMoney) - house.rent - bid
    {
      if period == Never || house.owner == 0 || house.paidUntil > time || house.rent == 0 || player.ignoresRent {
        return true;
      }
      if !town {
        return false;
      }
      paid := false;
      var amount := house.rent + bid;
      if bank && player.balance >= amount {
        player.balance := player.balance - amount;
        paid := true;
      } else if player.hasDepot {
        if player.depotMoney >= amount {
          player.depotMoney := player.depotMoney - amount;
          paid := true;
        }
      }
      if !paid {
        return false;
      }
      var paidUntil := if time != 0 then time else now;
      match period {
        case Daily => paidUntil := paidUntil + 86400;
        case Weekly => paidUntil := paidUntil + 7 * 86400;
        case Monthly => paidUntil := paidUntil + 30 * 86400;
        case Yearly => paidUntil := paidUntil + 365 * 86400;
        case Never =>
      }
      house.paidUntil := paidUntil;
    }

    /** The warning branch of `payHouse`. */
    method Warn(house: House, time: int)
      modifies house
      ensures house.Now() == if old(house.rentWarnings) < WarningsLimit(period)
                             then old(house.Now()).(warnings := old(house.rentWarnings) + 1, lastWarning := time)
                             else Owned(old(house.Now()), 0, time, None)
    {
      var warningsLimit := 7;
      match period {
        case Daily => warningsLimit := 1;
        case Weekly => warningsLimit := 3;
        case Monthly => warningsLimit := 7;
        case Yearly => warningsLimit := 14;
        case Never =>
      }
      var warnings := house.rentWarnings;
      if warnings < warningsLimit {
        house.rentWarnings := warnings + 1;
        house.lastWarning := time;
      } else {
        var _ := house.SetOwnerEx(0, time, None);
      }
    }

    /** `payHouse` at the moment `time`. */
    method PayHouse(house: House, player: Player?, time: int, bid: nat, town: bool, guildOwner: bool, named: bool) returns (paid: bool)
      requires time > 0
      modifies house, player
      ensures house.Now() == HousePaid(old(house.Now()), period, time, old(Case(player, town, guildOwner, named, house.rent + bid, time)))
      ensures var o := Verdict(old(house.Now()), period, time, old(Case(player, town, guildOwner, named, house.rent + bid, time)));
              player != null ==>
                player.balance + player.depotMoney == old(player.balance + player.depotMoney) - (if o == Charged then house.rent + bid else 0)
      ensures house.owner != old(house.owner) <==>
        && period != Never && old(house.owner) != 0 && old(house.paidUntil) <= time && house.rent != 0 && town
        && ((house.guild && !guildOwner)
            || !named
            || (player != null
                && ((needPremium && !player.premium)
                    || (cleanOld != 0 && time >= player.lastLogin + cleanOld)
                    || (!player.ignoresRent && time >= old(house.lastWarning) + 86400
                        && !(bank && old(player.balance) >= house.rent + bid)
                        && !(player.hasDepot && old(player.depotMoney) >= house.rent + bid)
                        && old(house.rentWarnings) >=
                           if period == Daily then 1 else if period == Weekly then 3 else if period == Monthly then 7 else 14))))
      ensures house.owner == old(house.owner) || house.owner == 0
      ensures paid <==>
        || period == Never || old(house.owner) == 0 || old(house.paidUntil) > time || house.rent == 0
        || (town && !(house.guild && !guildOwner) && named && player != null && !(needPremium && !player.premium)
            && !(cleanOld != 0 && time >= player.lastLogin + cleanOld)
            && (player.ignoresRent
                || (bank && old(player.balance) >= house.rent + bid)
                || (player.hasDepot && old(player.depotMoney) >= house.rent + bid)))
    {
      if period == Never || house.owner == 0 || house.paidUntil > time || house.rent == 0 {
        return true;
      }
      if !town {
        return false;
      }
      if house.guild && !guildOwner {
        var _ := house.SetOwnerEx(0, time, None);
        return false;
      }
      if !named {
        var _ := house.SetOwnerEx(0, time, None);
        return false;
      }
      if player == null {
        return false;
      }
      if !player.premium && needPremium {
        var _ := house.SetOwnerEx(0, time, None);
        return false;
      }
      if cleanOld != 0 && time >= player.lastLogin + cleanOld {
        var _ := house.SetOwnerEx(0, time, None);
        return false;
      }
      paid := PayRent(player, house, bid, time, time, town);
      if !paid && time >= house.lastWarning + 86400 {
        Warn(house, time);
      }
    }
  }
}
