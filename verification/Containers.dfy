/** Containers that hold items and containers, each caching the weight of everything inside it. */
module Containers {
  import opened Forest

  /** What the item table says about a type; `countable` when its subtype is the stack count. */
  datatype ItemType = ItemType(weight: int, stackable: bool, countable: bool, pickupable: bool)

  /** Stack counts are 16 bits wide. */
  type Count = n: int | 0 <= n < 0x1_0000

  function Max(a: int, b: int): int {
    if a < b then b else a
  }

  class Item {
    const isContainer: bool
    const maxSize: nat
    const isDepot: bool
    const depotLimit: nat
    var parent: Item?             // the container holding it, if any
    var kind: ItemType
    var count: Count
    var itemlist: seq<Item>
    var totalWeight: int
    var carried: bool             // a creature, not a tile, holds it

    /** A plain item or a container of the given size; see Depot for depots. */
    constructor (isContainer: bool, maxSize: nat, kind: ItemType, count: Count)
      ensures this.isContainer == isContainer && this.maxSize == maxSize && !isDepot
      ensures this.kind == kind && this.count == count
      ensures parent == null && itemlist == [] && totalWeight == 0
    {
      this.isContainer, this.maxSize, this.isDepot, this.depotLimit := isContainer, maxSize, false, 0;
      this.kind, this.count := kind, count;
      parent, itemlist, totalWeight, carried := null, [], 0, false;
    }

    /** `Depot::Depot` */
    constructor Depot(kind: ItemType)
      ensures isContainer && isDepot && maxSize == 30 && depotLimit == 1000
      ensures parent == null && itemlist == [] && totalWeight == 0
    {
      isContainer, maxSize, isDepot, depotLimit := true, 30, true, 1000;
      this.kind, count := kind, 0;
      parent, itemlist, totalWeight, carried := null, [], 0, false;
    }

    /** `Item::getWeight` */
    function OwnWeight(): int
      reads this`kind, this`count
    {
      if kind.stackable then kind.weight * Max(1, count) else kind.weight
    }

    /** `Container::getWeight`; a plain item carries no totalWeight. */
    function GetWeight(): int
      reads this`kind, this`count, this`totalWeight
    {
      OwnWeight() + totalWeight
    }

    function Capacity(): nat
      reads this`itemlist
    {
      if maxSize != 0 then maxSize else if |itemlist| < 255 then |itemlist| + 1 else 255
    }

    /** A container without a size limit reports itself full. */
    predicate Full()
      reads this`itemlist
    {
      maxSize != 0 ==> |itemlist| >= maxSize
    }

    /** Adds diff to the cached weight here and at every level above. */
    method UpdateItemWeight(diff: int, ghost S: set<Item>)
      requires this in S && Structure(S)
      modifies S`totalWeight
      ensures Totals(S) == Pushed(old(Totals(S)), Path(Parents(S), this), diff)
      ensures Structure(S) && Parents(S) == old(Parents(S)) && Lists(S) == old(Lists(S)) && Owns(S) == old(Owns(S))
      decreases |Ups(Parents(S), this)|
    {
      hide Coherent, Ups, OwnWeight, Lists, Owns, Pushed;
      ghost var pm, t := Parents(S), Totals(S);
      totalWeight := totalWeight + diff;
      assert Totals(S) == t[this := t[this] + diff];
      PushedOneUp(S, pm, Lists(S), t, this, diff);
      if parent != null {
        ParentFacts(this, S);
        hide Totals;
        parent.UpdateItemWeight(diff, S);
      }
    }

    /** Links a loose item into the list, then pushes its weight up. */
    method InsertThing(before: seq<Item>, item: Item, after: seq<Item>, ghost S: set<Item>)
      requires World(S) && this in S && isContainer && Loose(item, this, S)
      requires itemlist == before + after
      modifies item`parent, this`itemlist, S`totalWeight
      ensures World(S) && itemlist == before + [item] + after && item.parent == this
      ensures Parents(S) == old(Parents(S))[item := this]
    {
      hide Coherent, Balanced, ShortBy, Pushed, Ups, OwnWeight, SumOver;
      ghost var pm, ls, own, t := Parents(S), Lists(S), Owns(S), Totals(S);
      Attach(S, pm, ls, item, this, before, after);
      InsertMisses(S, ls, own, t, item, this, before, after);
      var weight := item.GetWeight();
      item.parent, itemlist := this, before + [item] + after;
      assert Parents(S) == pm[item := this];
      assert Lists(S) == ls[this := before + [item] + after];
      UpdateItemWeight(weight, S);
      PushBalances(S, Parents(S), Lists(S), own, t, this, weight);
    }

    /** `__addThing` at an index below capacity, and `__internalAddThing`: item goes in front. */
    method AddThing(index: int, item: Item, ghost S: set<Item>)
      requires World(S) && this in S && isContainer && Loose(item, this, S)
      modifies item`parent, this`itemlist, S`totalWeight
      ensures World(S)
      ensures (maxSize != 0 && index < maxSize) || (maxSize == 0 && index <= |old(itemlist)| && index < 255) ==>
        && itemlist == [item] + old(itemlist) && item.parent == this
        && Parents(S) == old(Parents(S))[item := this]
      ensures (maxSize != 0 && index >= maxSize) || (maxSize == 0 && (index > |old(itemlist)| || index >= 255)) ==>
        itemlist == old(itemlist) && Parents(S) == old(Parents(S)) && Totals(S) == old(Totals(S))
    {
      hide Coherent, Balanced, Ups, OwnWeight, World, Loose, Parents, Totals;
      if index < Capacity() {
        assert [] + itemlist == itemlist && [] + [item] + itemlist == [item] + itemlist;
        InsertThing([], item, itemlist, S);
      }
    }

    /** `__internalAddThing`: in front, whatever the index. */
    method InternalAddThing(item: Item, ghost S: set<Item>)
      requires World(S) && this in S && isContainer && Loose(item, this, S)
      modifies item`parent, this`itemlist, S`totalWeight
      ensures World(S) && itemlist == [item] + old(itemlist) && item.parent == this
      ensures Parents(S) == old(Parents(S))[item := this]
    {
      hide Coherent, Balanced, Ups, OwnWeight, World, Loose, Parents, Totals;
      assert [] + itemlist == itemlist && [] + [item] + itemlist == [item] + itemlist;
      InsertThing([], item, itemlist, S);
    }

    /** Part of a stack that lies in no container is taken off. */
    method ReduceLoose(n: nat, ghost S: set<Item>)
      requires World(S) && this in S && parent == null && n <= count
      modifies `count
      ensures World(S) && count == old(count) - n && Parents(S) == old(Parents(S)) && Lists(S) == old(Lists(S))
    {
      hide Coherent, OwnWeight, Balanced;
      ghost var pm, ls, own, t := Parents(S), Lists(S), Owns(S), Totals(S);
      count := count - n;
      assert Parents(S) == pm && Lists(S) == ls && Totals(S) == t;
      LooseWeight(S, pm, ls, own, Owns(S), t, this);
    }

    /** Loading a saved container appends each child in turn: `addItem`, then `updateItemWeight`. */
    method LoadItem(item: Item, ghost S: set<Item>)
      requires World(S) && this in S && isContainer && Loose(item, this, S)
      modifies item`parent, this`itemlist, S`totalWeight
      ensures World(S) && itemlist == old(itemlist) + [item] && item.parent == this
      ensures Parents(S) == old(Parents(S))[item := this]
    {
      hide Coherent, Balanced, Ups, OwnWeight, World, Loose, Parents, Totals;
      assert itemlist + [] == itemlist && itemlist + [item] + [] == itemlist + [item];
      InsertThing(itemlist, item, [], S);
    }

    /** Pushes the item's weight out of the ancestors, then unlinks it. */
    method UnlinkThing(before: seq<Item>, item: Item, after: seq<Item>, ghost S: set<Item>)
      requires World(S) && this in S && item in S
      requires itemlist == before + [item] + after
      modifies item`parent, this`itemlist, S`totalWeight
      ensures World(S) && itemlist == before + after && item.parent == null
      ensures Parents(S) == old(Parents(S)) - {item} && Loose(item, this, S)
    {
      hide Coherent, Balanced, ShortBy, Pushed, Path, Ups, OwnWeight, SumOver;
      ghost var pm, ls, own, t := Parents(S), Lists(S), Owns(S), Totals(S);
      Detach(S, pm, ls, item, this, before, after);
      RemoveMisses(S, ls, own, t, item, this, before, after);
      var weight := item.GetWeight();
      hide Owns, Totals;
      UpdateItemWeight(-weight, S);
      Unlink(before, item, after, S);
      PushBalances(S, Parents(S), Lists(S), own, t, this, -weight);
    }

    /** The two links of a held item are cut. */
    method Unlink(before: seq<Item>, item: Item, after: seq<Item>, ghost S: set<Item>)
      requires this in S && item in S
      modifies item`parent, this`itemlist
      ensures itemlist == before + after && item.parent == null
      ensures Parents(S) == old(Parents(S)) - {item} && Lists(S) == old(Lists(S))[this := before + after]
      ensures Owns(S) == old(Owns(S)) && Totals(S) == old(Totals(S))
    {
      hide OwnWeight;
      item.parent, itemlist := null, before + after;
    }

    /** Changes the type or the count of a held item and pushes the difference up. */
    method Reweigh(item: Item, newKind: ItemType, newCount: Count, ghost S: set<Item>)
      requires World(S) && this in S && item in itemlist
      modifies item`kind, item`count, S`totalWeight
      ensures World(S) && item.kind == newKind && item.count == newCount
      ensures Parents(S) == old(Parents(S)) && Lists(S) == old(Lists(S))
    {
      hide Coherent, Balanced, ShortBy, Pushed, Path, Parents, Lists, OwnWeight;
      HeldFacts(this, item, S);
      ghost var pm, ls, own, t := Parents(S), Lists(S), Owns(S), Totals(S);
      var oldWeight := item.GetWeight();
      item.kind, item.count := newKind, newCount;
      var diffWeight := -oldWeight + item.GetWeight();
      assert Owns(S) == own[item := own[item] + diffWeight];
      hide Owns, Totals;
      ReweighMisses(S, pm, ls, own, t, item, this, diffWeight);
      UpdateItemWeight(diffWeight, S);
      PushBalances(S, pm, ls, Owns(S), t, this, diffWeight);
    }

    /** `__updateThing`: does nothing unless the item is here. Fluids and charges keep the count. */
    method UpdateThing(item: Item, newKind: ItemType, n: nat, ghost S: set<Item>)
      requires World(S) && this in S
      modifies item`kind, item`count, S`totalWeight
      ensures World(S) && Parents(S) == old(Parents(S)) && Lists(S) == old(Lists(S))
      ensures item in itemlist ==>
        item.kind == newKind && item.count == if newKind.countable then n % 0x1_0000 else old(item.count)
      ensures item !in itemlist ==> Totals(S) == old(Totals(S)) && item.kind == old(item.kind) && item.count == old(item.count)
    {
      hide Coherent, Balanced, Ups, World, OwnWeight;
      if item in itemlist {
        Reweigh(item, newKind, if newKind.countable then n % 0x1_0000 else item.count, S);
      }
    }

    /** `__removeThing`: part of a stack, or the whole item. */
    method RemoveThing(item: Item, n: nat, ghost S: set<Item>)
      requires World(S) && this in S && item in S && n < 0x1_0000_0000
      modifies item`parent, item`kind, item`count, this`itemlist, S`totalWeight
      ensures World(S) && item.kind == old(item.kind)
      ensures var part := item.kind.stackable && n != old(item.count);
        if item !in old(itemlist) then
          Parents(S) == old(Parents(S)) && Lists(S) == old(Lists(S)) && Totals(S) == old(Totals(S)) && item.count == old(item.count)
        else if part then
          Parents(S) == old(Parents(S)) && Lists(S) == old(Lists(S)) && item.count == Remaining(old(item.count), n)
        else
          && Parents(S) == old(Parents(S)) - {item} && item.parent == null && item.count == old(item.count)
          && exists i :: 0 <= i < |old(itemlist)| && old(itemlist)[i] == item && itemlist == old(itemlist)[..i] + old(itemlist)[i + 1..]
    {
      hide Coherent, Balanced, Ups, World, OwnWeight;
      if item in itemlist {
        if item.kind.stackable && n != item.count {
          Reweigh(item, item.kind, Remaining(item.count, n), S);
        } else {
          var i := IndexOf(itemlist, item);
          assert itemlist == itemlist[..i] + [item] + itemlist[i + 1..];
          UnlinkThing(itemlist[..i], item, itemlist[i + 1..], S);
        }
      }
    }

    /** `__replaceThing`: the loose item takes the place of the one at index. */
    method ReplaceThing(index: nat, item: Item, ghost S: set<Item>)
      requires World(S) && this in S && isContainer && Loose(item, this, S)
      modifies item`parent, itemlist`parent, this`itemlist, S`totalWeight
      ensures World(S)
      ensures index >= |old(itemlist)| ==> Parents(S) == old(Parents(S)) && Lists(S) == old(Lists(S)) && Totals(S) == old(Totals(S))
      ensures index < |old(itemlist)| ==>
        && itemlist == old(itemlist)[index := item]
        && Parents(S) == old(Parents(S))[item := this] - {old(itemlist)[index]}
    {
      hide Coherent, Balanced, Ups, World, OwnWeight, Lists, Owns;
      if index < |itemlist| {
        var out := itemlist[index];
        var before, after := itemlist[..index], itemlist[index + 1..];
        HeldFacts(this, out, S);
        ghost var was := itemlist;
        assert itemlist == before + ([out] + after);
        InsertThing(before, item, [out] + after, S);
        assert itemlist == (before + [item]) + [out] + after;
        UnlinkThing(before + [item], out, after, S);
        assert itemlist == was[index := item];
      }
    }
  }

  method IndexOf<T(==)>(s: seq<T>, x: T) returns (i: nat)
    requires x in s
    ensures i < |s| && s[i] == x && x !in s[..i]
  {
    i := 0;
    while s[i] != x
      invariant i < |s| && x !in s[..i] && x in s[i..]
      decreases |s| - i
    {
      i := i + 1;
    }
  }

  /** `item->getItemCount() - count` is unsigned, then cast to int32_t, clamped at 0, then cut to 16 bits. */
  function Remaining(have: Count, n: nat): Count {
    var wrapped := (have - n) % 0x1_0000_0000;
    Max(0, if wrapped >= 0x8000_0000 then wrapped - 0x1_0000_0000 else wrapped) % 0x1_0000
  }

  /** The ordinary difference, floored at 0, exactly up to 2^31 above the stack, or where the cut to 16 bits happens to give 0. */
  lemma RemainingIs(have: Count, n: nat)
    requires n < 0x1_0000_0000
    ensures Remaining(have, n) == (if n <= have then have - n else 0)
            <==> n <= 0x8000_0000 + have || (0x1_0000_0000 + have - n) % 0x1_0000 == 0
  {
  }

  // ---------------------------------------------------------------- the world of items, as values

  /** Who holds whom. */
  ghost function Parents(S: set<Item>): map<Item, Item>
    reads S`parent
  {
    map x: Item | x in S && x.parent != null :: x.parent
  }

  ghost function Lists(S: set<Item>): map<Item, seq<Item>>
    reads S`itemlist
  {
    map x: Item | x in S :: x.itemlist
  }

  ghost function Owns(S: set<Item>): map<Item, int>
    reads S`kind, S`count
  {
    map x: Item | x in S :: x.OwnWeight()
  }

  ghost function Totals(S: set<Item>): map<Item, int>
    reads S`totalWeight
  {
    map x: Item | x in S :: x.totalWeight
  }

  /** A stack of k weighs k times as much as one, and at least as much as one. */
  lemma OwnWeightIs(x: Item)
    ensures !x.kind.stackable || x.count <= 1 ==> x.OwnWeight() == x.kind.weight
    ensures x.kind.stackable && x.count >= 1 ==> x.OwnWeight() == x.kind.weight * x.count
  {
  }

  predicate Distinct<T(==)>(s: seq<T>) {
    forall i, j :: 0 <= i < j < |s| ==> s[i] != s[j]
  }

  /** Parent links and item lists say the same thing, and nothing contains itself. */
  ghost predicate Coherent(S: set<Item>, pm: map<Item, Item>, ls: map<Item, seq<Item>>) {
    && ls.Keys == S && pm.Keys <= S
    && (forall x :: x in S ==> Distinct(ls[x]) && (ls[x] != [] ==> x.isContainer))
    && (forall x, y :: x in S && y in ls[x] ==> y in pm && pm[y] == x)
    && (forall y :: y in pm ==> pm[y] in S && y in ls[pm[y]])
    && IsForest(pm)
  }

  function SumOver<T>(list: seq<T>, w: map<T, int>): int {
    if list == [] then 0
    else (if list[0] in w then w[list[0]] else 0) + SumOver(list[1..], w)
  }

  /** Own weight plus cached weight. */
  function Weights<T>(own: map<T, int>, t: map<T, int>): map<T, int> {
    map x | x in own && x in t :: own[x] + t[x]
  }

  /** Every cached weight is the weight of what the list holds. */
  ghost predicate Balanced<T>(ls: map<T, seq<T>>, own: map<T, int>, t: map<T, int>) {
    forall x :: x in ls ==> x in t && t[x] == SumOver(ls[x], Weights(own, t))
  }

  ghost predicate Structure(S: set<Item>)
    reads S`parent, S`itemlist
  {
    Coherent(S, Parents(S), Lists(S))
  }

  ghost predicate World(S: set<Item>)
    reads S
  {
    Structure(S) && Balanced(Lists(S), Owns(S), Totals(S))
  }

  lemma WorldIsStructure(S: set<Item>)
    requires World(S)
    ensures Structure(S) && IsForest(Parents(S))
  {
  }

  lemma HeldFacts(holder: Item, item: Item, S: set<Item>)
    requires World(S) && holder in S && item in holder.itemlist
    ensures item in S && item.parent == holder && item in Parents(S)
    ensures holder in Lists(S) && item in Lists(S)[holder]
  {
    assert item in Lists(S)[holder];
    assert Parents(S)[item] == holder;
  }

  lemma ParentFacts(x: Item, S: set<Item>)
    requires Structure(S) && x in S && x.parent != null
    ensures x.parent in S && x.parent.isContainer && x in x.parent.itemlist
    ensures x in Parents(S) && Parents(S)[x] == x.parent
    ensures |Ups<Item>(Parents(S), x.parent)| < |Ups(Parents(S), x)|
    ensures Path(Parents(S), x) == {x} + Path<Item>(Parents(S), x.parent) && x !in Path<Item>(Parents(S), x.parent)
  {
    var pm := Parents(S);
    assert x in pm && pm[x] == x.parent && pm[x] in S;
    assert x in Lists(S)[pm[x]];
    hide Ups, IsForest;
    UpsShrink<Item>(pm, x);
    UpsStep<Item>(pm, x);
  }

  // ---------------------------------------------------------------- pushing a weight up

  /** t with d added on A. */
  function Pushed<T>(t: map<T, int>, A: set<T>, d: int): map<T, int> {
    map x | x in t :: t[x] + (if x in A then d else 0)
  }

  /** t misses the weight of the lists at c only, by d. */
  ghost predicate ShortBy<T>(ls: map<T, seq<T>>, own: map<T, int>, t: map<T, int>, c: T, d: int) {
    forall x :: x in ls ==> x in t && t[x] + (if x == c then d else 0) == SumOver(ls[x], Weights(own, t))
  }

  lemma {:induction false} SumShift<T>(list: seq<T>, w: map<T, int>, w': map<T, int>, y: T, d: int)
    requires Distinct(list) && forall z :: z in list ==> z in w && z in w' && w'[z] == w[z] + (if z == y then d else 0)
    ensures SumOver(list, w') == SumOver(list, w) + (if y in list then d else 0)
  {
    if list != [] {
      assert list == [list[0]] + list[1..];
      SumShift(list[1..], w, w', y, d);
    }
  }

  lemma SumSame<T>(list: seq<T>, w: map<T, int>, w': map<T, int>)
    requires forall z :: z in list ==> z in w && z in w' && w'[z] == w[z]
    ensures SumOver(list, w') == SumOver(list, w)
  {
  }

  /** Pushing a difference up is adding it here and pushing it up from the holder, if there is one. */
  lemma PushedOneUp(S: set<Item>, pm: map<Item, Item>, ls: map<Item, seq<Item>>, t: map<Item, int>, x: Item, d: int)
    requires Coherent(S, pm, ls) && x in t
    ensures x !in pm ==> Pushed(t, Path(pm, x), d) == t[x := t[x] + d]
    ensures x in pm ==> Pushed(t, Path(pm, x), d) == Pushed(t[x := t[x] + d], Path<Item>(pm, pm[x]), d)
  {
    hide Ups, IsForest;
    if x in pm {
      UpsStep(pm, x);
      NotOwnAncestor(pm, x);
    } else {
      UpsRoot(pm, x);
    }
  }

  /** What is in no list weighs on nobody. */
  lemma LooseWeight(S: set<Item>, pm: map<Item, Item>, ls: map<Item, seq<Item>>, own: map<Item, int>, own': map<Item, int>,
                    t: map<Item, int>, item: Item)
    requires Coherent(S, pm, ls) && Balanced(ls, own, t) && item !in pm
    requires own.Keys == own'.Keys == t.Keys == S && forall x :: x in S && x != item ==> own'[x] == own[x]
    ensures Balanced(ls, own', t)
  {
    hide SumOver, IsForest;
    forall x | x in ls ensures t[x] == SumOver(ls[x], Weights(own', t)) {
      SumSame(ls[x], Weights(own, t), Weights(own', t));
    }
  }

  /** Pushing up what is missing at c makes every cached weight exact. */
  lemma PushBalances(S: set<Item>, pm: map<Item, Item>, ls: map<Item, seq<Item>>, own: map<Item, int>, t: map<Item, int>, c: Item, d: int)
    requires Coherent(S, pm, ls) && c in S && own.Keys == S && t.Keys == S
    requires ShortBy(ls, own, t, c, d)
    ensures Balanced(ls, own, Pushed(t, Path(pm, c), d))
  {
    hide SumOver, Coherent, Ups;
    forall x | x in ls
      ensures Pushed(t, Path(pm, c), d)[x] == SumOver(ls[x], Weights(own, Pushed(t, Path(pm, c), d)))
    {
      PushAt(x, S, pm, ls, own, t, c, d);
    }
  }

  lemma PushAt(x: Item, S: set<Item>, pm: map<Item, Item>, ls: map<Item, seq<Item>>, own: map<Item, int>, t: map<Item, int>, c: Item, d: int)
    requires Coherent(S, pm, ls) && x in ls && c in S && own.Keys == S && t.Keys == S
    ensures x == c ==> x !in Ups(pm, c)
    ensures SumOver(ls[x], Weights(own, Pushed(t, Path(pm, c), d)))
         == SumOver(ls[x], Weights(own, t)) + (if x in Ups(pm, c) then d else 0)
  {
    hide SumOver, IsForest, Ups;
    var w, w' := Weights(own, t), Weights(own, Pushed(t, Path(pm, c), d));
    if x in Ups(pm, c) {
      var y := HeldOnPath(pm, c, x);
      forall z | z in ls[x] && z in Path(pm, c) ensures z == y {
        OnlyOneHeld(pm, c, y, z);
      }
      SumShift(ls[x], w, w', y, d);
    } else {
      forall z | z in ls[x] ensures z !in Path(pm, c) {
        UpsStep(pm, z);
        if z in Ups(pm, c) {
          UpsTransitive(pm, c, z);
        }
      }
      SumSame(ls[x], w, w');
    }
    NotOwnAncestor(pm, c);
  }

  lemma NotOwnAncestor<T>(pm: map<T, T>, c: T)
    requires IsForest(pm)
    ensures c !in Ups(pm, c)
  {
  }

  // ---------------------------------------------------------------- linking and unlinking

  /** item is held by nobody, and c is neither item nor inside it. */
  ghost predicate Loose(item: Item, c: Item, S: set<Item>)
    reads S`parent, item`parent
  {
    item in S && item.parent == null && item !in Path(Parents(S), c)
  }

  lemma {:induction false} SumInsert<T>(before: seq<T>, y: T, after: seq<T>, w: map<T, int>)
    requires y in w
    ensures SumOver(before + [y] + after, w) == SumOver(before + after, w) + w[y]
  {
    if before == [] {
      assert [] + [y] + after == [y] + after && [] + after == after;
    } else {
      SumInsert(before[1..], y, after, w);
      assert (before + [y] + after)[1..] == before[1..] + [y] + after;
      assert (before + after)[1..] == before[1..] + after;
    }
  }

  /** Inserting y into a list that lacks it. */
  lemma DistinctInsert<T>(before: seq<T>, y: T, after: seq<T>)
    requires Distinct(before + after) && y !in before + after
    ensures Distinct(before + [y] + after)
  {
    var s := before + [y] + after;
    var t := before + after;
    forall i, j | 0 <= i < j < |s| ensures s[i] != s[j] {
      var i' := if i > |before| then i - 1 else i;
      var j' := if j > |before| then j - 1 else j;
      assert i != |before| ==> s[i] == t[i'];
      assert j != |before| ==> s[j] == t[j'];
    }
  }

  lemma DistinctRemove<T>(before: seq<T>, y: T, after: seq<T>)
    requires Distinct(before + [y] + after)
    ensures Distinct(before + after) && y !in before + after
  {
    var s := before + [y] + after;
    var t := before + after;
    forall i, j | 0 <= i < j < |t| ensures t[i] != t[j] {
      assert t[i] == s[if i >= |before| then i + 1 else i];
      assert t[j] == s[if j >= |before| then j + 1 else j];
    }
    forall i | 0 <= i < |t| ensures t[i] != y {
      assert t[i] == s[if i >= |before| then i + 1 else i];
      assert s[|before|] == y;
    }
  }

  lemma Attach(S: set<Item>, pm: map<Item, Item>, ls: map<Item, seq<Item>>, item: Item, holder: Item, before: seq<Item>, after: seq<Item>)
    requires Coherent(S, pm, ls) && item in S && holder in S && holder.isContainer
    requires item !in pm && item !in Path(pm, holder) && ls[holder] == before + after
    ensures Coherent(S, pm[item := holder], ls[holder := before + [item] + after])
  {
    hide Ups, IsForest;
    AttachSafe(pm, item, holder);
    DistinctInsert(before, item, after);
    forall z ensures z in before + [item] + after <==> z == item || z in before + after {
      assert z in before + after <==> z in before || z in after;
    }
  }

  lemma Detach(S: set<Item>, pm: map<Item, Item>, ls: map<Item, seq<Item>>, item: Item, holder: Item, before: seq<Item>, after: seq<Item>)
    requires Coherent(S, pm, ls) && holder in S && ls[holder] == before + [item] + after
    ensures item in pm && pm[item] == holder
    ensures Coherent(S, pm - {item}, ls[holder := before + after])
    ensures item !in Path(pm - {item}, holder) && Path(pm - {item}, holder) == Path(pm, holder)
  {
    assert item in ls[holder];
    hide Ups, IsForest;
    DetachKeepsForest(pm, item);
    UpsStep(pm, item);
    UpsWithout'(pm, item, holder);
    DistinctRemove(before, item, after);
    forall z ensures z in before + [item] + after <==> z == item || z in before + after {
      assert z in before + after <==> z in before || z in after;
    }
  }

  // ---------------------------------------------------------------- what each change leaves missing

  lemma InsertMisses(S: set<Item>, ls: map<Item, seq<Item>>, own: map<Item, int>, t: map<Item, int>,
                     item: Item, holder: Item, before: seq<Item>, after: seq<Item>)
    requires Balanced(ls, own, t) && holder in ls && item in own && item in t && ls[holder] == before + after
    ensures ShortBy(ls[holder := before + [item] + after], own, t, holder, own[item] + t[item])
  {
    hide SumOver;
    SumInsert(before, item, after, Weights(own, t));
  }

  lemma RemoveMisses(S: set<Item>, ls: map<Item, seq<Item>>, own: map<Item, int>, t: map<Item, int>,
                     item: Item, holder: Item, before: seq<Item>, after: seq<Item>)
    requires Balanced(ls, own, t) && holder in ls && item in own && item in t && ls[holder] == before + [item] + after
    ensures ShortBy(ls[holder := before + after], own, t, holder, -(own[item] + t[item]))
  {
    hide SumOver;
    SumInsert(before, item, after, Weights(own, t));
  }

  lemma ReweighMisses(S: set<Item>, pm: map<Item, Item>, ls: map<Item, seq<Item>>, own: map<Item, int>, t: map<Item, int>,
                      item: Item, holder: Item, d: int)
    requires Coherent(S, pm, ls) && Balanced(ls, own, t) && own.Keys == S && t.Keys == S
    requires holder in S && item in ls[holder]
    ensures item in S && ShortBy(ls, own[item := own[item] + d], t, holder, d)
  {
    hide SumOver, IsForest;
    var own' := own[item := own[item] + d];
    forall x | x in ls
      ensures t[x] + (if x == holder then d else 0) == SumOver(ls[x], Weights(own', t))
    {
      SumShift(ls[x], Weights(own, t), Weights(own', t), item, d);
    }
  }
}
