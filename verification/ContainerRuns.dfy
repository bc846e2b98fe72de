/** Whole runs of container operations: weights stay exact, nothing ends up inside itself, and
    depots stay within their limit. */
module ContainerRuns {
  import opened Forest
  import opened Containers
  import opened ContainerIterators
  import opened ContainerQueries

  // ---------------------------------------------------------------- counting below a place

  /** Taking c out of its holder changes nothing below c, nor below anything not above c. */
  lemma BelowWithout<T>(pm: map<T, T>, c: T, d: T)
    requires IsForest(pm) && c in pm && d !in Ups(pm, c)
    ensures Below(pm - {c}, d) == Below(pm, d)
  {
    hide Ups, IsForest;
    var loose := pm - {c};
    var q := pm[c];
    DetachKeepsForest(pm, c);
    UpsStep(pm, c);
    UpsWithout'(pm, c, q);
    assert loose[c := q] == pm;
    forall x ensures x in Below(loose, d) <==> x in Below(pm, d) {
      UpsAfterAttach(loose, c, q, x);
    }
  }

  /** Moving c, loose or not, to p below d: what comes to stand below d. */
  lemma BelowAfterAdd<T>(pm: map<T, T>, c: T, p: T, d: T)
    requires IsForest(pm) && c !in Path(pm, p) && d in Path(pm, p)
    ensures |Below(pm[c := p], d)| == |Below(pm, d)| + (if d in Ups(pm, c) then 0 else 1 + |Below(pm, c)|)
  {
    hide Ups, IsForest, Below;
    if c !in pm {
      UpsRoot(pm, c);
      BelowAfterAttach(pm, c, p, d);
    } else if d in Ups(pm, c) {
      BelowAfterMove(pm, c, p, d);
    } else {
      var loose := pm - {c};
      DetachKeepsForest(pm, c);
      UpsWithout'(pm, c, p);
      NotOwnAncestor(pm, c);
      BelowWithout(pm, c, d);
      BelowWithout(pm, c, c);
      BelowAfterAttach(loose, c, p, d);
      assert loose[c := p] == pm[c := p];
    }
  }

  lemma BelowAfterTake<T>(pm: map<T, T>, c: T, d: T)
    requires IsForest(pm) && c in pm
    ensures |Below(pm - {c}, d)| <= |Below(pm, d)|
  {
    forall x | x in Below(pm - {c}, d) ensures x in Below(pm, d) {
      UpsShrinkWith(pm, c, x);
    }
    Subset(Below(pm - {c}, d), Below(pm, d));
  }

  lemma {:induction false} UpsShrinkWith<T>(pm: map<T, T>, c: T, x: T)
    ensures Ups(pm - {c}, x) <= Ups(pm, x)
    decreases |pm|
  {
    if x in pm && x != c {
      assert (pm - {x}) - {c} == (pm - {c}) - {x};
      UpsShrinkWith(pm - {x}, c, pm[x]);
    }
  }

  // ---------------------------------------------------------------- depots

  /** Depots stand on the ground and cannot be picked up. */
  ghost predicate DepotsFixed(S: set<Item>)
    reads S
  {
    forall d :: d in S && d.isDepot ==> d.parent == null && !d.kind.pickupable && !d.carried && d.isContainer
  }

  ghost predicate DepotsWithin(S: set<Item>)
    reads S
  {
    forall d :: d in S && d.isDepot ==> |Below<Item>(Parents(S), d)| <= d.depotLimit
  }

  /** The query counts right: there is room for all of an item exactly if the depot is within its limit after the move. */
  lemma RoomIsExact(S: set<Item>, d: Item, item: Item, target: Item)
    requires Structure(S) && d in S && d.parent == null && item in S && target in S && item != d
    requires item !in Path<Item>(Parents(S), target) && d in Path<Item>(Parents(S), target)
    ensures RoomIn(d, item, item.count, S) <==> |Below<Item>(Parents(S)[item := target], d)| <= d.depotLimit
  {
    hide Coherent, Ups, Below, IsForest;
    var pm := Parents(S);
    ForestOf(S);
    assert d !in pm;
    if !item.isContainer {
      PlainIsEmpty(S, item);
    }
    BelowAfterAdd<Item>(pm, item, target, d);
  }

  /** The add that queryAdd accepted keeps every depot within its limit. */
  lemma DepotAfterAdd(S: set<Item>, d: Item, item: Item, target: Item)
    requires Structure(S) && DepotsFixed(S) && d in S && d.isDepot && item in S && target in S && item != d
    requires item !in Path<Item>(Parents(S), target)
    requires |Below<Item>(Parents(S), d)| <= d.depotLimit
    requires d in Path<Item>(Parents(S), target) ==> RoomIn(d, item, item.count, S)
    ensures |Below<Item>(Parents(S)[item := target], d)| <= d.depotLimit
  {
    hide Coherent, Ups, Below, IsForest;
    var pm := Parents(S);
    ForestOf(S);
    assert d !in pm;
    if d in Path<Item>(pm, target) {
      RoomIsExact(S, d, item, target);
    } else {
      OutsideUnchanged(pm, item, target, d);
    }
  }

  /** A move to a place not below d can only take things away from d. */
  lemma OutsideUnchanged<T>(pm: map<T, T>, c: T, p: T, d: T)
    requires IsForest(pm) && c !in Path(pm, p) && d !in Path(pm, p) && d !in pm && d != c
    ensures |Below(pm[c := p], d)| <= |Below(pm, d)|
  {
    hide Ups, IsForest;
    var loose := pm - {c};
    DetachKeepsForest(pm, c);
    if c in pm {
      UpsWithout'(pm, c, p);
    } else {
      assert loose == pm;
    }
    UpsRoot(loose, c);
    AttachSafe(loose, c, p);
    assert loose[c := p] == pm[c := p];
    forall x | x in Below(pm[c := p], d) ensures x in Below(pm, d) {
      UpsAfterAttach(loose, c, p, x);
      UpsShrinkWith(pm, c, x);
    }
    Subset(Below(pm[c := p], d), Below(pm, d));
  }

  /** What QueryAdd checks about target and about the top above it covers every depot. */
  lemma PutKeepsDepots(S: set<Item>, item: Item, target: Item)
    requires Structure(S) && DepotsFixed(S) && DepotsWithin(S) && item in S && target in S
    requires item.kind.pickupable && item !in Path<Item>(Parents(S), target)
    requires forall d :: d in S && IsTop<Item>(Parents(S), target, d) && !d.carried && d.isDepot ==> RoomIn(d, item, item.count, S)
    ensures WithinUnder(S, Parents(S)[item := target])
  {
    hide Structure, Ups, Below;
    forall d | d in S && d.isDepot ensures |Below<Item>(Parents(S)[item := target], d)| <= d.depotLimit {
      DepotAfterAdd(S, d, item, target);
    }
  }

  /** Part of a stack: where the query was asked about n of a stack of another size, a new plain piece fits into every depot. */
  lemma DepotAfterSplit(S: set<Item>, d: Item, item: Item, n: nat, piece: Item, target: Item)
    requires Structure(S) && DepotsFixed(S) && d in S && d.isDepot && item in S && piece in S && target in S && target.isContainer
    requires item.kind.stackable && n != item.count && piece.parent == null && !piece.isContainer
    requires |Below<Item>(Parents(S), d)| <= d.depotLimit
    requires d in Path<Item>(Parents(S), target) ==> RoomIn(d, item, n, S)
    ensures |Below<Item>(Parents(S)[piece := target], d)| <= d.depotLimit
  {
    hide Coherent, Ups, Below, IsForest;
    var pm := Parents(S);
    ForestOf(S);
    PlainHoldsNothing(piece, target, S);
    PlainIsEmpty(S, piece);
    UpsRoot<Item>(pm, piece);
    if d in Path<Item>(pm, target) {
      BelowAfterAdd<Item>(pm, piece, target, d);
    } else {
      OutsideUnchanged(pm, piece, target, d);
    }
  }

  lemma SplitKeepsDepots(S: set<Item>, item: Item, n: nat, piece: Item, target: Item)
    requires Structure(S) && DepotsFixed(S) && DepotsWithin(S) && item in S && piece in S && target in S && target.isContainer
    requires item.kind.stackable && n != item.count && piece.parent == null && !piece.isContainer
    requires forall d :: d in S && IsTop<Item>(Parents(S), target, d) && !d.carried && d.isDepot ==> RoomIn(d, item, n, S)
    ensures WithinUnder(S, Parents(S)[piece := target])
  {
    hide Structure, Ups, Below;
    forall d | d in S && d.isDepot ensures |Below<Item>(Parents(S)[piece := target], d)| <= d.depotLimit {
      DepotAfterSplit(S, d, item, n, piece, target);
    }
  }

  ghost predicate WithinUnder(S: set<Item>, pm: map<Item, Item>) {
    forall d :: d in S && d.isDepot ==> |Below<Item>(pm, d)| <= d.depotLimit
  }

  lemma DepotsIn(S: set<Item>, pm: map<Item, Item>)
    requires Parents(S) == pm && WithinUnder(S, pm)
    requires forall d :: d in S && d.isDepot ==> d !in pm && !d.kind.pickupable && !d.carried && d.isContainer
    ensures DepotsWithin(S) && DepotsFixed(S)
  {
  }

  lemma PlainIsEmpty(S: set<Item>, item: Item)
    requires Structure(S) && item in S && !item.isContainer
    ensures Below<Item>(Parents(S), item) == {}
  {
    hide Coherent, Ups;
    forall x | x in S ensures item !in Ups<Item>(Parents(S), x) {
      PlainHoldsNothing(item, x, S);
    }
    assert Parents(S).Keys <= S;
  }

  /** An accepted limited add has been checked against the depot the target is or stands in. */
  lemma AcceptedHasRoom(S: set<Item>, target: Item, item: Item, n: nat, answer: ReturnValue, d: Item)
    requires target in S && item in S && d in S
    requires Accepts(target, INDEX_WHEREEVER, item, n, Flags(false, false), answer, S)
    requires IsTop<Item>(Parents(S), target, d) && !d.carried && d.isDepot
    ensures RoomIn(d, item, n, S)
  {
    hide Ups, Below, IsForest, RoomIn;
  }

  /** An add accepted without the limit waived finds a place left. */
  lemma AcceptedFits(S: set<Item>, target: Item, item: Item, n: nat, answer: ReturnValue)
    requires target in S && item in S && Accepts(target, INDEX_WHEREEVER, item, n, Flags(false, false), answer, S)
    ensures target.maxSize != 0 && |target.itemlist| < target.maxSize
  {
    hide Ups, Below, IsForest, RoomIn;
  }

  // ---------------------------------------------------------------- what moves leave in the lists

  /** The list without the item, the others in their order. */
  function Without<T(==)>(list: seq<T>, x: T): (r: seq<T>)
    ensures |r| <= |list|
  {
    if list == [] then [] else (if list[0] == x then [] else [list[0]]) + Without(list[1..], x)
  }

  lemma {:induction false} WithoutAbsent<T>(list: seq<T>, x: T)
    requires x !in list
    ensures Without(list, x) == list
  {
    if list != [] {
      assert x !in list[1..] && list[0] != x;
      WithoutAbsent(list[1..], x);
    }
  }

  lemma {:induction false} WithoutOne<T>(before: seq<T>, x: T, after: seq<T>)
    requires x !in before && x !in after
    ensures Without(before + [x] + after, x) == before + after
  {
    var list := before + [x] + after;
    if before == [] {
      assert list[0] == x && list[1..] == after;
      WithoutAbsent(after, x);
    } else {
      assert x !in before[1..];
      assert list[0] == before[0] && list[1..] == before[1..] + [x] + after;
      WithoutOne(before[1..], x, after);
      assert [before[0]] + (before[1..] + after) == before + after;
    }
  }

  lemma TakenOut(list: seq<Item>, i: nat, x: Item)
    requires Distinct(list) && i < |list| && list[i] == x
    ensures list[..i] + list[i + 1..] == Without(list, x)
  {
    assert list == list[..i] + [x] + list[i + 1..];
    WithoutOne(list[..i], x, list[i + 1..]);
  }

  lemma DistinctIn(S: set<Item>, x: Item)
    requires Structure(S) && x in S
    ensures Distinct(x.itemlist)
  {
    assert Lists(S)[x] == x.itemlist;
  }

  lemma HeldByOne(S: set<Item>, x: Item, item: Item)
    requires Structure(S) && x in S && item in S && item.parent != x
    ensures Without(x.itemlist, item) == x.itemlist
  {
    forall y | y in x.itemlist ensures y.parent == x {
      assert y in Lists(S)[x];
      assert y in Parents(S) && Parents(S)[y] == x;
    }
    WithoutAbsent(x.itemlist, item);
  }

  /** Two parts of a stack weigh what the whole did. */
  lemma PartsWeigh(x: Item, piece: Item, whole: int)
    requires x.kind == piece.kind && x.kind.stackable && x.count >= 1 && piece.count >= 1 && whole == x.kind.weight * (x.count + piece.count)
    ensures x.OwnWeight() + piece.OwnWeight() == whole
  {
    OwnWeightIs(x);
    OwnWeightIs(piece);
    var w, a, b := x.kind.weight, x.count, piece.count;
    assert w * (a + b) == w * a + w * b;
  }

  // ---------------------------------------------------------------- runs

  /** No container holds more than its size allows; size 0 is no limit. */
  ghost predicate SizesKept(S: set<Item>)
    reads S
  {
    forall x :: x in S && x.maxSize != 0 ==> |x.itemlist| <= x.maxSize
  }

  /** Put moves an item, wherever it is, into a container that accepts it. */
  datatype Command =
    | Put(item: Item, target: Item, noLimit: bool, answer: ReturnValue)
    | Split(item: Item, n: nat, piece: Item, target: Item, noLimit: bool, answer: ReturnValue)
    | Add(holder: Item, at: int, item: Item)
    | InternalAdd(holder: Item, item: Item)
    | Take(holder: Item, item: Item, n: nat)
    | Change(holder: Item, item: Item, kind: ItemType, n: nat)
    | Swap(holder: Item, index: nat, item: Item)
    | Load(holder: Item, item: Item)

  predicate Over(cmd: Command, S: set<Item>) {
    match cmd
    case Put(item, target, _, _) => item in S && target in S && target.isContainer
    case Split(item, _, piece, target, _, _) => item in S && piece in S && target in S && target.isContainer
    case Add(holder, _, item) => holder in S && item in S && holder.isContainer
    case InternalAdd(holder, item) => holder in S && item in S && holder.isContainer
    case Take(holder, item, n) => holder in S && item in S && n < 0x1_0000_0000
    case Change(holder, item, _, _) => holder in S && item in S
    case Swap(holder, _, item) => holder in S && item in S && holder.isContainer
    case Load(holder, item) => holder in S && item in S && holder.isContainer
  }

  /** What a depot's limit is meant to govern: adds the depot has been asked about, and what adds nothing.
      Unlimited, direct and loading adds are not asked for. */
  predicate Governed(cmd: Command) {
    ((cmd.Put? || cmd.Split?) && !cmd.noLimit) || cmd.Take? || cmd.Change?
  }

  method PutItem(item: Item, target: Item, noLimit: bool, answer: ReturnValue, ghost S: set<Item>) returns (r: ReturnValue)
    requires World(S) && item in S && target in S && target.isContainer
    modifies S
    ensures World(S) && forall x :: x in S ==> x.kind == old(x.kind) && x.carried == old(x.carried)
    ensures r == NoError ==>
      && item.parent == target && target.itemlist == [item] + Without(old(target.itemlist), item)
      && (forall x :: x in S && x != target ==> x.itemlist == Without(old(x.itemlist), item))
      && Parents(S) == old(Parents(S))[item := target]
    ensures r != NoError ==> Parents(S) == old(Parents(S)) && Lists(S) == old(Lists(S)) && Totals(S) == old(Totals(S))
    ensures r == NoError <==> old(Accepts(target, INDEX_WHEREEVER, item, item.count, Flags(noLimit, false), answer, S))
    ensures !noLimit && old(DepotsFixed(S) && DepotsWithin(S)) ==> DepotsFixed(S) && DepotsWithin(S)
    ensures !noLimit && old(SizesKept(S)) ==> SizesKept(S)
  {
    hide World, Structure, Ups, DepotsWithin, Below, TopAccepts, RoomIn;
    WorldIsStructure(S);
    r := QueryAdd(target, INDEX_WHEREEVER, item, item.count, Flags(noLimit, false), answer, S);
    if r != NoError {
      return;
    }
    ghost var pm := Parents(S);
    ghost var governed := !noLimit && DepotsFixed(S) && DepotsWithin(S);
    if !noLimit {
      AcceptedFits(S, target, item, item.count, answer);
    }
    if governed {
      forall d | d in S && IsTop<Item>(pm, target, d) && !d.carried && d.isDepot ensures RoomIn(d, item, item.count, S) {
        AcceptedHasRoom(S, target, item, item.count, answer, d);
      }
      PutKeepsDepots(S, item, target);
    }
    MoveItem(item, target, S);
    if governed {
      forall d | d in S && d.isDepot ensures d !in pm[item := target] {
        assert old(d.parent) == null && d != item;
      }
      DepotsIn(S, pm[item := target]);
    }
  }

  /** n of a stack are moved: the query is asked about the stack, the stack loses n, and a new piece goes to the target. */
  method SplitItem(item: Item, n: nat, piece: Item, target: Item, noLimit: bool, answer: ReturnValue, ghost S: set<Item>)
    returns (r: ReturnValue)
    requires World(S) && item in S && target in S && target.isContainer && Piece(item, n, piece, S)
    modifies S
    ensures World(S) && forall x :: x in S ==> x.kind == old(x.kind) && x.carried == old(x.carried)
    ensures r == NoError <==> old(Accepts(target, INDEX_WHEREEVER, item, n, Flags(noLimit, false), answer, S))
    ensures r == NoError ==>
      && piece.parent == target && target.itemlist == [piece] + old(target.itemlist)
      && (forall x :: x in S && x != target ==> x.itemlist == old(x.itemlist))
      && item.count + piece.count == old(item.count) && piece.count == n
      && item.OwnWeight() + piece.OwnWeight() == old(item.OwnWeight())
      && Parents(S) == old(Parents(S))[piece := target]
    ensures r != NoError ==> Parents(S) == old(Parents(S)) && Lists(S) == old(Lists(S)) && Totals(S) == old(Totals(S))
    ensures !noLimit && old(DepotsFixed(S) && DepotsWithin(S)) ==> DepotsFixed(S) && DepotsWithin(S)
    ensures !noLimit && old(SizesKept(S)) ==> SizesKept(S)
  {
    hide World, Structure, Ups, DepotsWithin, Below, TopAccepts, RoomIn, Accepts, Item.OwnWeight;
    WorldIsStructure(S);
    r := QueryAdd(target, INDEX_WHEREEVER, item, n, Flags(noLimit, false), answer, S);
    if r != NoError {
      return;
    }
    ghost var pm := Parents(S);
    ghost var governed := !noLimit && DepotsFixed(S) && DepotsWithin(S);
    if !noLimit {
      AcceptedFits(S, target, item, n, answer);
    }
    if governed {
      forall d | d in S && IsTop<Item>(pm, target, d) && !d.carried && d.isDepot ensures RoomIn(d, item, n, S) {
        AcceptedHasRoom(S, target, item, n, answer, d);
      }
      SplitKeepsDepots(S, item, n, piece, target);
    }
    SplitOff(item, n, piece, target, S);
    if governed {
      forall d | d in S && d.isDepot ensures d !in pm[piece := target] {
        assert old(d.parent) == null && d != piece;
      }
      DepotsIn(S, pm[piece := target]);
    }
  }

  /** A piece just created for n of a stack, and less than all of it. */
  ghost predicate Piece(item: Item, n: nat, piece: Item, S: set<Item>)
    reads item, piece
  {
    && piece in S && piece != item && piece.parent == null && !piece.isContainer
    && piece.kind == item.kind && piece.count == n && item.kind.stackable && 0 < n < item.count
  }

  /** The split itself: the stack loses what the piece has, and the piece goes in front. */
  method SplitOff(item: Item, n: nat, piece: Item, target: Item, ghost S: set<Item>)
    requires World(S) && item in S && target in S && target.isContainer && Piece(item, n, piece, S)
    modifies S
    ensures World(S) && forall x :: x in S ==> x.kind == old(x.kind) && x.carried == old(x.carried)
    ensures piece.parent == target && target.itemlist == [piece] + old(target.itemlist)
    ensures forall x :: x in S && x != target ==> x.itemlist == old(x.itemlist)
    ensures item.count + piece.count == old(item.count) && piece.count == n
    ensures item.OwnWeight() + piece.OwnWeight() == old(item.OwnWeight())
    ensures Parents(S) == old(Parents(S))[piece := target]
  {
    hide World, Structure, Ups, Item.OwnWeight, Parents;
    OwnWeightIs(item);
    ghost var whole := item.OwnWeight();
    TakeOff(item, n, S);
    WorldIsStructure(S);
    PlainHoldsNothing(piece, target, S);
    target.AddThing(INDEX_WHEREEVER, piece, S);
    PartsWeigh(item, piece, whole);
  }

  /** The stack loses n, wherever it lies. */
  method TakeOff(item: Item, n: nat, ghost S: set<Item>)
    requires World(S) && item in S && item.kind.stackable && n < item.count
    modifies item`parent, item`kind, item`count, S`itemlist, S`totalWeight
    ensures World(S) && item.kind == old(item.kind) && item.count == old(item.count) - n
    ensures Parents(S) == old(Parents(S)) && item.parent == old(item.parent)
    ensures forall x :: x in S ==> x.itemlist == old(x.itemlist)
  {
    hide World, Structure, Ups, Coherent;
    WorldIsStructure(S);
    assert forall x :: x in S ==> x.itemlist == Lists(S)[x];
    if item.parent != null {
      ParentFacts(item, S);
      ghost var pm := Parents(S);
      item.parent.RemoveThing(item, n, S);
      RemainingIs(old(item.count), n);
      assert item in Parents(S) && Parents(S)[item] == pm[item];
    } else {
      item.ReduceLoose(n, S);
    }
    assert forall x :: x in S ==> x.itemlist == Lists(S)[x];
  }

  /** The move itself: out of the old holder, if any, then into the new one. */
  method MoveItem(item: Item, target: Item, ghost S: set<Item>)
    requires World(S) && item in S && target in S && target.isContainer
    requires item !in Path<Item>(Parents(S), target)
    modifies S
    ensures World(S) && forall x :: x in S ==> x.kind == old(x.kind) && x.carried == old(x.carried)
    ensures item.parent == target && target.itemlist == [item] + Without(old(target.itemlist), item)
    ensures forall x :: x in S && x != target ==> x.itemlist == Without(old(x.itemlist), item)
    ensures Parents(S) == old(Parents(S))[item := target]
  {
    hide World, Structure, Ups, Without, Parents;
    WorldIsStructure(S);
    ghost var pm := Parents(S);
    assert item.parent == null <==> item !in pm by { ParentKnown(S, item); }
    TakeOut(item, target, S);
    target.AddThing(INDEX_WHEREEVER, item, S);
    assert (pm - {item})[item := target] == pm[item := target];
  }

  lemma ParentKnown(S: set<Item>, item: Item)
    requires item in S
    ensures item.parent == null <==> item !in Parents(S)
  {
  }

  /** The item leaves its holder, if it has one. */
  method TakeOut(item: Item, target: Item, ghost S: set<Item>)
    requires World(S) && item in S && target in S && item !in Path<Item>(Parents(S), target)
    modifies S
    ensures World(S) && forall x :: x in S ==> x.kind == old(x.kind) && x.carried == old(x.carried)
    ensures forall x :: x in S ==> x.itemlist == Without(old(x.itemlist), item)
    ensures Parents(S) == old(Parents(S)) - {item} && Loose(item, target, S)
  {
    hide World, Structure, Ups, Without;
    WorldIsStructure(S);
    ghost var pm := Parents(S);
    forall x | x in S && x != item.parent ensures Without(x.itemlist, item) == x.itemlist {
      HeldByOne(S, x, item);
    }
    if item.parent != null {
      ParentFacts(item, S);
      UpsWithout'<Item>(pm, item, target);
      var holder: Item := item.parent;
      DistinctIn(S, holder);
      ghost var list := holder.itemlist;
      holder.RemoveThing(item, item.count, S);
      ghost var i :| 0 <= i < |list| && list[i] == item && holder.itemlist == list[..i] + list[i + 1..];
      TakenOut(list, i, item);
    }
  }

  /** One command. Commands the real callers would not issue are skipped: a direct add, a swap or a load of something held, or of
      a container into its own contents, and a split into anything but a new piece. */
  method Obey(cmd: Command, ghost S: set<Item>)
    requires World(S) && Over(cmd, S)
    modifies S
    ensures World(S)
    ensures Governed(cmd) && old(DepotsFixed(S) && DepotsWithin(S)) ==> DepotsFixed(S) && DepotsWithin(S)
    ensures Governed(cmd) && old(SizesKept(S)) ==> SizesKept(S)
  {
    hide World, Structure, Ups, Below;
    WorldIsStructure(S);
    match cmd {
      case Put(item, target, noLimit, answer) =>
        var r := PutItem(item, target, noLimit, answer, S);
      case Split(item, n, piece, target, noLimit, answer) =>
        if piece != item && piece.parent == null && !piece.isContainer && piece.kind == item.kind && piece.count == n
           && item.kind.stackable && 0 < n < item.count {
          var r := SplitItem(item, n, piece, target, noLimit, answer, S);
        }
      case Add(holder, at, item) =>
        var above := StandsAbove(item, holder, S);
        if item.parent == null && item != holder && !above {
          holder.AddThing(at, item, S);
        }
      case InternalAdd(holder, item) =>
        var above := StandsAbove(item, holder, S);
        if item.parent == null && item != holder && !above {
          holder.InternalAddThing(item, S);
        }
      case Take(holder, item, n) =>
        TakeItem(holder, item, n, S);
      case Change(holder, item, kind, n) =>
        ChangeItem(holder, item, kind, n, S);
      case Swap(holder, index, item) =>
        var above := StandsAbove(item, holder, S);
        if item.parent == null && item != holder && !above {
          forall y | y in holder.itemlist ensures y in S {
            HeldFacts(holder, y, S);
          }
          holder.ReplaceThing(index, item, S);
        }
      case Load(holder, item) =>
        var above := StandsAbove(item, holder, S);
        if item.parent == null && item != holder && !above {
          holder.LoadItem(item, S);
        }
    }
  }

  method ChangeItem(holder: Item, item: Item, kind: ItemType, n: nat, ghost S: set<Item>)
    requires World(S) && holder in S && item in S
    modifies S
    ensures World(S)
    ensures old(DepotsFixed(S) && DepotsWithin(S)) ==> DepotsFixed(S) && DepotsWithin(S)
    ensures old(SizesKept(S)) ==> SizesKept(S)
    ensures forall x :: x in S ==> x.itemlist == old(x.itemlist)
    ensures if item in holder.itemlist
            then item.kind == kind && item.count == (if kind.countable then n % 0x1_0000 else old(item.count))
            else item.kind == old(item.kind) && item.count == old(item.count)
  {
    hide World, Structure, Ups, Below;
    if item in holder.itemlist {
      HeldFacts(holder, item, S);
      assert item.parent != null;
    }
    assert forall x :: x in S ==> x.itemlist == Lists(S)[x];
    holder.UpdateThing(item, kind, n, S);
    assert forall x :: x in S ==> x.itemlist == Lists(S)[x];
  }

  method TakeItem(holder: Item, item: Item, n: nat, ghost S: set<Item>)
    requires World(S) && holder in S && item in S && n < 0x1_0000_0000
    modifies S
    ensures World(S)
    ensures old(DepotsFixed(S) && DepotsWithin(S)) ==> DepotsFixed(S) && DepotsWithin(S)
    ensures old(SizesKept(S)) ==> SizesKept(S)
    ensures var part := item.kind.stackable && n != old(item.count);
            && item.count == (if part && item in old(holder.itemlist) then Remaining(old(item.count), n) else old(item.count))
            && forall x :: x in S ==> x.itemlist == if !part && x == holder then Without(old(x.itemlist), item) else old(x.itemlist)
  {
    hide World, Structure, Ups, Below, Without, Parents, Remaining;
    WorldIsStructure(S);
    ghost var pm := Parents(S);
    if item in pm {
      forall d | d in S && d.isDepot ensures |Below<Item>(pm - {item}, d)| <= |Below<Item>(pm, d)| {
        BelowAfterTake<Item>(pm, item, d);
      }
    }
    RemoveFrom(holder, item, n, S);
  }

  /** `__removeThing`, with what becomes of the lists. */
  method RemoveFrom(holder: Item, item: Item, n: nat, ghost S: set<Item>)
    requires World(S) && holder in S && item in S && n < 0x1_0000_0000
    modifies S
    ensures World(S) && forall x :: x in S ==> x.kind == old(x.kind) && x.carried == old(x.carried)
    ensures forall x :: x in S ==> x.parent == if x == item then item.parent else old(x.parent)
    ensures item.parent == old(item.parent) || item.parent == null
    ensures Parents(S) == old(Parents(S)) || (item in old(Parents(S)) && Parents(S) == old(Parents(S)) - {item})
    ensures var part := item.kind.stackable && n != old(item.count);
            && item.count == (if part && item in old(holder.itemlist) then Remaining(old(item.count), n) else old(item.count))
            && forall x :: x in S ==> x.itemlist == if !part && x == holder then Without(old(x.itemlist), item) else old(x.itemlist)
  {
    hide World, Structure, Ups, Below, Without, Remaining;
    WorldIsStructure(S);
    ghost var list, pm := holder.itemlist, Parents(S);
    assert item.parent != null ==> item in pm && pm[item] == item.parent;
    DistinctIn(S, holder);
    assert forall x :: x in S ==> x.itemlist == Lists(S)[x];
    if item in list {
      HeldFacts(holder, item, S);
    }
    holder.RemoveThing(item, n, S);
    assert forall x :: x in S ==> x.itemlist == Lists(S)[x];
    assert item.parent != null ==> item in Parents(S) && Parents(S)[item] == item.parent;
    if item !in list {
      WithoutAbsent(list, item);
    } else if !item.kind.stackable || n == old(item.count) {
      ghost var i :| 0 <= i < |list| && list[i] == item && holder.itemlist == list[..i] + list[i + 1..];
      TakenOut(list, i, item);
    }
  }

  /** Any run of commands: cached weights exact and no cycle at every level, throughout. */
  method Run(cmds: seq<Command>, ghost S: set<Item>)
    requires World(S) && forall i :: 0 <= i < |cmds| ==> Over(cmds[i], S)
    modifies S
    ensures World(S)
    ensures (forall i :: 0 <= i < |cmds| ==> Governed(cmds[i])) && old(DepotsFixed(S) && DepotsWithin(S)) ==> DepotsWithin(S)
    ensures (forall i :: 0 <= i < |cmds| ==> Governed(cmds[i])) ==>
            (forall x :: x in S && x.maxSize != 0 ==> |old(x.itemlist)| <= x.maxSize) ==>
            forall x :: x in S && x.maxSize != 0 ==> |x.itemlist| <= x.maxSize
  {
    hide World, DepotsFixed, DepotsWithin;
    for i := 0 to |cmds|
      invariant World(S)
      invariant (forall j :: 0 <= j < i ==> Governed(cmds[j])) && old(DepotsFixed(S) && DepotsWithin(S))
                ==> DepotsFixed(S) && DepotsWithin(S)
      invariant (forall j :: 0 <= j < i ==> Governed(cmds[j])) && old(SizesKept(S)) ==> SizesKept(S)
    {
      Obey(cmds[i], S);
    }
  }
}
