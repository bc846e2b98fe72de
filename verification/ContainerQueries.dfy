/** Who may be put where: the container and depot queries, and what they protect. */
module ContainerQueries {
  import opened Forest
  import opened Containers
  import opened ContainerIterators

  const INDEX_WHEREEVER: int := -1

  datatype ReturnValue =
    | NoError | NotPossible | CannotPickup | ThisIsImpossible | ContainerNotEnoughRoom | DepotIsFull
    | Refused(code: nat)          // whatever a creature answers

  datatype Flags = Flags(noLimit: bool, childIsOwner: bool)

  /** The top of the climb from x. */
  predicate IsTop<T>(pm: map<T, T>, x: T, top: T) {
    top in Path(pm, x) && top !in pm
  }

  lemma {:induction false} TopIsUnique<T>(pm: map<T, T>, x: T, a: T, b: T)
    requires IsForest(pm) && IsTop(pm, x, a) && IsTop(pm, x, b)
    ensures a == b
    decreases |Ups(pm, x)|
  {
    hide Ups, IsForest;
    if x in pm {
      UpsStep(pm, x);
      UpsShrink(pm, x);
      TopIsUnique(pm, pm[x], a, b);
    } else {
      UpsRoot(pm, x);
    }
  }

  /** The outermost container below the tile or creature. */
  method GetTopParent(c: Item, ghost S: set<Item>) returns (top: Item)
    requires Structure(S) && c in S
    ensures top in S && top.parent == null && IsTop<Item>(Parents(S), c, top)
  {
    hide Coherent, Ups;
    top := c;
    while top.parent != null
      invariant top in S && top in Path<Item>(Parents(S), c)
      decreases |Ups<Item>(Parents(S), top)|
    {
      ParentFacts(top, S);
      UpsInPath(Parents(S), c, top, S);
      top := top.parent;
    }
  }

  lemma UpsInPath(pm: map<Item, Item>, c: Item, x: Item, S: set<Item>)
    requires Structure(S) && pm == Parents(S) && x in Path(pm, c)
    ensures Path(pm, x) <= Path(pm, c)
  {
    if x != c {
      UpsTransitive(pm, c, x);
    }
  }

  /** How many items an accepted add brings below depot d. */
  function AddCount(item: Item, n: nat, inside: bool, holding: nat): nat
    reads item`kind, item`count
  {
    if !inside then (if item.isContainer then holding + 1 else 1)
    else if item.kind.stackable && item.count != n then 1
    else 0
  }

  /** The depot's limit leaves room for what adding n of the thing would bring, counted at all depths. */
  ghost predicate RoomIn(d: Item, thing: Item, n: nat, S: set<Item>)
    reads S, d, thing
  {
    |Below<Item>(Parents(S), d)| + AddCount(thing, n, IsTop<Item>(Parents(S), thing, d), |Below<Item>(Parents(S), thing)|) <= d.depotLimit
  }

  /** What the place at the top of the climb says: the creature carrying it, or a depot asked on behalf of its contents. */
  ghost predicate TopAccepts(c: Item, top: Item, thing: Item, n: nat, noLimit: bool, answer: ReturnValue, S: set<Item>)
    reads S, top, thing
  {
    if top.carried then answer == NoError
    else top != c && top.isDepot && !noLimit ==> RoomIn(top, thing, n, S)
  }

  /** When a container takes n of the thing. */
  ghost predicate ContainerAccepts(c: Item, index: int, thing: Item?, n: nat, flags: Flags, answer: ReturnValue, S: set<Item>)
    requires c in S && (thing != null ==> thing in S)
    reads S
  {
    flags.childIsOwner
    || (thing != null && thing.kind.pickupable
        && thing !in Path<Item>(Parents(S), c)
        && (index == INDEX_WHEREEVER && !flags.noLimit ==> c.maxSize != 0 && |c.itemlist| < c.maxSize)
        && forall top :: top in S && IsTop<Item>(Parents(S), c, top) ==> TopAccepts(c, top, thing, n, flags.noLimit, answer, S))
  }

  /** When a container or a depot does. */
  ghost predicate Accepts(c: Item, index: int, thing: Item?, n: nat, flags: Flags, answer: ReturnValue, S: set<Item>)
    requires c in S && (thing != null ==> thing in S)
    reads S
  {
    && (c.isDepot ==> thing != null && (flags.noLimit || RoomIn(c, thing, n, S)))
    && ContainerAccepts(c, index, thing, n, flags, answer, S)
  }

  /** The limit check of `Depot::__queryAdd`. */
  method HasRoom(c: Item, thing: Item, n: nat, ghost S: set<Item>) returns (room: bool)
    requires Structure(S) && c in S && thing in S
    ensures room <==> RoomIn(c, thing, n, S)
  {
    hide Coherent, Ups, Below, IsForest;
    var addCount := 0;
    if thing.kind.stackable && thing.count != n {
      addCount := 1;
    }
    var top := GetTopParent(thing, S);
    ForestOf(S);
    if IsTop<Item>(Parents(S), thing, c) {
      TopIsUnique<Item>(Parents(S), thing, c, top);
    }
    if top != c {
      addCount := 1;
      if thing.isContainer {
        var holding := GetItemHoldingCount(thing, S);
        addCount := holding + 1;
      }
    }
    var mine := GetItemHoldingCount(c, S);
    room := mine + addCount <= c.depotLimit;
  }

  /** `Container::__queryAdd` and, for depots, `Depot::__queryAdd`; `answer` is what a creature
      carrying the outermost container says. */
  method QueryAdd(c: Item, index: int, thing: Item?, n: nat, flags: Flags, answer: ReturnValue, ghost S: set<Item>)
    returns (r: ReturnValue)
    requires Structure(S) && c in S && c.isContainer && (thing != null ==> thing in S)
    ensures r == NoError <==> Accepts(c, index, thing, n, flags, answer, S)
    ensures flags.childIsOwner ==> r == NoError || r == DepotIsFull || r == NotPossible
    ensures c.isDepot && thing == null ==> r == NotPossible
    ensures c.isDepot && thing != null && !flags.noLimit && !RoomIn(c, thing, n, S) ==> r == DepotIsFull
    decreases !flags.childIsOwner, 1
  {
    hide Structure, Coherent, Ups, Below, IsForest, RoomIn, ContainerAccepts;
    if c.isDepot {
      if thing == null {
        return NotPossible;
      }
      if !flags.noLimit {
        var room := HasRoom(c, thing, n, S);
        if !room {
          return DepotIsFull;
        }
      }
    }
    r := ContainerQueryAdd(c, index, thing, n, flags, answer, S);
  }

  lemma ForestOf(S: set<Item>)
    requires Structure(S)
    ensures IsForest(Parents(S))
  {
  }

  method ContainerQueryAdd(c: Item, index: int, thing: Item?, n: nat, flags: Flags, answer: ReturnValue, ghost S: set<Item>)
    returns (r: ReturnValue)
    requires Structure(S) && c in S && c.isContainer && (thing != null ==> thing in S)
    ensures r == NoError <==> ContainerAccepts(c, index, thing, n, flags, answer, S)
    ensures flags.childIsOwner ==> r == NoError
    ensures !flags.childIsOwner && thing == null ==> r == NotPossible
    ensures !flags.childIsOwner && thing != null && !thing.kind.pickupable ==> r == CannotPickup
    ensures !flags.childIsOwner && thing != null && thing.kind.pickupable && thing in Path<Item>(Parents(S), c) ==> r == ThisIsImpossible
    ensures !flags.childIsOwner && !flags.noLimit && index == INDEX_WHEREEVER && (c.maxSize == 0 || |c.itemlist| >= c.maxSize) ==>
              && r != NoError
              && (thing != null && thing.kind.pickupable && thing !in Path<Item>(Parents(S), c) ==> r == ContainerNotEnoughRoom)
    ensures r == ContainerNotEnoughRoom ==>
              || (!flags.noLimit && index == INDEX_WHEREEVER && (c.maxSize == 0 || |c.itemlist| >= c.maxSize))
              || answer == ContainerNotEnoughRoom
    decreases !flags.childIsOwner, 0
  {
    hide Structure, Coherent, Ups, Below, IsForest, RoomIn;
    if flags.childIsOwner {
      return NoError;
    }
    if thing == null {
      return NotPossible;
    }
    if !thing.kind.pickupable {
      return CannotPickup;
    }
    var around := Encloses(thing, c, S);
    if around {
      return ThisIsImpossible;
    }
    if index == INDEX_WHEREEVER && !flags.noLimit && c.Full() {
      return ContainerNotEnoughRoom;
    }
    var top := GetTopParent(c, S);
    OnlyTop(c, top, S);
    if top.carried {
      return answer;
    }
    if top != c {
      TopIsContainer(c, top, S);
      r := QueryAdd(top, INDEX_WHEREEVER, thing, n, flags.(childIsOwner := true), answer, S);
      return;
    }
    return NoError;
  }

  lemma OnlyTop(c: Item, top: Item, S: set<Item>)
    requires Structure(S) && IsTop<Item>(Parents(S), c, top)
    ensures forall other :: other in S && IsTop<Item>(Parents(S), c, other) ==> other == top
  {
    hide Structure, Ups, IsForest;
    ForestOf(S);
    forall other | other in S && IsTop<Item>(Parents(S), c, other) ensures other == top {
      TopIsUnique<Item>(Parents(S), c, other, top);
    }
  }

  /** The thing is the container asked or stands above it, and only a container can do that. */
  method Encloses(thing: Item, c: Item, ghost S: set<Item>) returns (around: bool)
    requires Structure(S) && c in S && thing in S
    ensures around <==> thing in Path<Item>(Parents(S), c)
  {
    hide Structure, Ups;
    if thing == c {
      return true;
    }
    if thing.isContainer {
      around := StandsAbove(thing, c, S);
    } else {
      PlainHoldsNothing(thing, c, S);
      around := false;
    }
  }

  /** The guard loop: does `thing` stand above c? */
  method StandsAbove(thing: Item, c: Item, ghost S: set<Item>) returns (above: bool)
    requires Structure(S) && c in S && thing in S
    ensures above <==> thing in Ups<Item>(Parents(S), c)
  {
    hide Coherent, Ups;
    var cylinder := c.parent;
    ghost var below: Item := c;
    while cylinder != null
      invariant below in S && cylinder == below.parent
      invariant thing in Ups<Item>(Parents(S), c) <==> thing in Ups<Item>(Parents(S), below)
      decreases |Ups<Item>(Parents(S), below)|
    {
      ParentFacts(below, S);
      ForestOf(S);
      UpsStep<Item>(Parents(S), below);
      if cylinder == thing {
        return true;
      }
      below := cylinder;
      cylinder := cylinder.parent;
    }
    UpsRoot<Item>(Parents(S), below);
    return false;
  }

  lemma {:induction false} PlainHoldsNothing(thing: Item, c: Item, S: set<Item>)
    requires Structure(S) && c in S && thing in S && !thing.isContainer
    ensures thing !in Ups<Item>(Parents(S), c)
    decreases |Ups<Item>(Parents(S), c)|
  {
    hide Coherent, Ups;
    if c.parent != null {
      ParentFacts(c, S);
      ForestOf(S);
      UpsStep<Item>(Parents(S), c);
      PlainHoldsNothing(thing, c.parent, S);
    } else {
      UpsRoot<Item>(Parents(S), c);
    }
  }

  lemma TopIsContainer(c: Item, top: Item, S: set<Item>)
    requires Structure(S) && c in S && IsTop<Item>(Parents(S), c, top) && top != c
    ensures top.isContainer
  {
    if !top.isContainer {
      UpsAreValues(Parents(S), c);
    }
  }
}
