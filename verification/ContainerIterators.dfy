/** The breadth-first container iterator and the two queries built on it. */
module ContainerIterators {
  import opened Forest
  import opened Containers

  /** Where a breadth-first walk below `base` stands: `over` is the queue, `cur` the position in
      the list at its front, `seen` everything handed out so far. */
  datatype Walk = Walk(over: seq<Item>, cur: nat, seen: seq<Item>)

  /** x has been handed out, given that its holder is the base or has been handed out. */
  ghost predicate Passed(ls: map<Item, seq<Item>>, w: Walk, x: Item, holder: Item)
    requires holder in ls
  {
    holder !in w.over
    || (holder == w.over[0] && w.cur <= |ls[holder]| && x in ls[holder][..w.cur])
  }

  ghost predicate Reached(w: Walk, base: Item, k: Item) {
    k == base || k in w.seen
  }

  ghost predicate WalkOk(S: set<Item>, pm: map<Item, Item>, ls: map<Item, seq<Item>>, base: Item, w: Walk)
    requires Coherent(S, pm, ls)
  {
    && base in S && Distinct(w.over) && Distinct(w.seen)
    && (forall k :: k in w.over ==> k in S && Reached(w, base, k) && ls[k] != [])
    && (w.over != [] ==> w.cur < |ls[w.over[0]]|)
    && (forall x :: x in w.seen ==> x in pm && base in Ups(pm, x) && Reached(w, base, pm[x]))
    && (forall x :: x in pm && Reached(w, base, pm[x]) ==> (x in w.seen <==> Passed(ls, w, x, pm[x])))
  }

  /** `operator++`: the current item is handed out; if it holds anything it joins the queue. */
  function Advance(w: Walk, list: seq<Item>, held: seq<Item>): Walk
    requires w.over != [] && w.cur < |list|
  {
    var over := if held != [] then w.over + [list[w.cur]] else w.over;
    var seen := w.seen + [list[w.cur]];
    if w.cur + 1 == |list| then Walk(over[1..], 0, seen) else Walk(over, w.cur + 1, seen)
  }

  lemma WalkStarts(S: set<Item>, pm: map<Item, Item>, ls: map<Item, seq<Item>>, base: Item)
    requires Coherent(S, pm, ls) && base in S
    ensures WalkOk(S, pm, ls, base, Walk(if ls[base] != [] then [base] else [], 0, []))
  {
    hide Ups, IsForest;
  }

  lemma CurrentIsNew(S: set<Item>, pm: map<Item, Item>, ls: map<Item, seq<Item>>, base: Item, w: Walk)
    requires Coherent(S, pm, ls) && WalkOk(S, pm, ls, base, w) && w.over != []
    ensures var k := w.over[0]; var x := ls[k][w.cur];
            && x in S && x in pm && pm[x] == k && x !in w.seen && base in Ups(pm, x) && x != base
            && x != k && !exists y :: y in w.seen && y in pm && pm[y] == x
  {
    hide Ups, IsForest;
    var k := w.over[0];
    var x := ls[k][w.cur];
    assert x in ls[k] && x in pm && pm[x] == k;
    UpsStep(pm, x);
    NotOwnAncestor(pm, x);
  }

  lemma WalkAdvances(S: set<Item>, pm: map<Item, Item>, ls: map<Item, seq<Item>>, base: Item, w: Walk)
    requires Coherent(S, pm, ls) && WalkOk(S, pm, ls, base, w) && w.over != []
    ensures var list := ls[w.over[0]];
            list[w.cur] in ls && WalkOk(S, pm, ls, base, Advance(w, list, ls[list[w.cur]]))
  {
    hide Ups, IsForest, Passed, Advance, Distinct;
    CurrentIsNew(S, pm, ls, base, w);
    var x := ls[w.over[0]][w.cur];
    var w' := Advance(w, ls[w.over[0]], ls[x]);
    forall y | y in pm && Reached(w', base, pm[y]) ensures y in w'.seen <==> Passed(ls, w', y, pm[y]) {
      PassedAdvances(S, pm, ls, base, w, y);
    }
    QueueAdvances(S, pm, ls, base, w);
    SeenAdvances(S, pm, ls, base, w);
  }

  lemma SeenAdvances(S: set<Item>, pm: map<Item, Item>, ls: map<Item, seq<Item>>, base: Item, w: Walk)
    requires Coherent(S, pm, ls) && WalkOk(S, pm, ls, base, w) && w.over != []
    requires ls[w.over[0]][w.cur] in ls
    ensures var w' := Advance(w, ls[w.over[0]], ls[ls[w.over[0]][w.cur]]);
            forall x :: x in w'.seen ==> x in pm && base in Ups(pm, x) && Reached(w', base, pm[x])
  {
    hide Ups, IsForest, Passed, Distinct;
    CurrentIsNew(S, pm, ls, base, w);
  }

  lemma QueueAdvances(S: set<Item>, pm: map<Item, Item>, ls: map<Item, seq<Item>>, base: Item, w: Walk)
    requires Coherent(S, pm, ls) && WalkOk(S, pm, ls, base, w) && w.over != []
    ensures var list := ls[w.over[0]];
            && list[w.cur] in ls
            && var w' := Advance(w, list, ls[list[w.cur]]);
            && Distinct(w'.over) && Distinct(w'.seen)
            && (w'.over != [] ==> w'.over[0] in ls && w'.cur < |ls[w'.over[0]]|)
            && forall k :: k in w'.over ==> k in S && Reached(w', base, k) && ls[k] != []
  {
    hide Ups, IsForest, Passed;
    CurrentIsNew(S, pm, ls, base, w);
    var list := ls[w.over[0]];
    var w' := Advance(w, list, ls[list[w.cur]]);
    assert forall k :: k in w'.over ==> k in w.over || k == list[w.cur] by { QueueWithin(w, list, ls[list[w.cur]]); }
    QueueDistinct(w, list, ls[list[w.cur]]);
  }

  lemma QueueWithin(w: Walk, list: seq<Item>, held: seq<Item>)
    requires w.over != [] && w.cur < |list|
    ensures forall k :: k in Advance(w, list, held).over ==> k in w.over || (k == list[w.cur] && held != [])
  {
  }

  lemma QueueDistinct(w: Walk, list: seq<Item>, held: seq<Item>)
    requires w.over != [] && w.cur < |list| && Distinct(w.over) && Distinct(w.seen)
    requires list[w.cur] !in w.over && list[w.cur] !in w.seen
    ensures Distinct(Advance(w, list, held).over) && Distinct(Advance(w, list, held).seen)
  {
  }

  /** Who is in the queue after a step, and where the front is. */
  lemma QueueHolds(w: Walk, list: seq<Item>, held: seq<Item>, z: Item)
    requires Distinct(w.over) && w.over != [] && w.cur < |list| && list[w.cur] !in w.over
    ensures var w' := Advance(w, list, held); var done := w.cur + 1 == |list|;
            && (z in w'.over <==> (z in w.over && !(done && z == w.over[0])) || (z == list[w.cur] && held != []))
            && (w'.over != [] && w'.over[0] != w.over[0] ==> w'.cur == 0)
            && (!done ==> w'.over != [] && w'.over[0] == w.over[0] && w'.cur == w.cur + 1)
            && w'.seen == w.seen + [list[w.cur]]
  {
    var over := if held != [] then w.over + [list[w.cur]] else w.over;
    assert z in over <==> z in w.over || (z == list[w.cur] && held != []);
    assert z in over[1..] <==> z in over && z != w.over[0];
  }

  lemma PassedAdvances(S: set<Item>, pm: map<Item, Item>, ls: map<Item, seq<Item>>, base: Item, w: Walk, y: Item)
    requires Coherent(S, pm, ls) && WalkOk(S, pm, ls, base, w) && w.over != []
    requires ls[w.over[0]][w.cur] in ls && y in pm
    requires Reached(Advance(w, ls[w.over[0]], ls[ls[w.over[0]][w.cur]]), base, pm[y])
    ensures var w' := Advance(w, ls[w.over[0]], ls[ls[w.over[0]][w.cur]]);
            y in w'.seen <==> Passed(ls, w', y, pm[y])
  {
    hide Ups, IsForest, Advance;
    CurrentIsNew(S, pm, ls, base, w);
    var x := ls[w.over[0]][w.cur];
    assert y in ls[pm[y]] && (y in w.seen ==> pm[y] != x);
    PassedStep(ls, base, w, x, y, pm[y]);
  }

  lemma PassedStep(ls: map<Item, seq<Item>>, base: Item, w: Walk, x: Item, y: Item, holder: Item)
    requires w.over != [] && Distinct(w.over) && w.over[0] in ls && Distinct(ls[w.over[0]])
    requires w.cur < |ls[w.over[0]]| && ls[w.over[0]][w.cur] == x && x in ls && x !in w.over && x !in w.seen
    requires holder in ls && y in ls[holder]
    requires Reached(w, base, holder) ==> (y in w.seen <==> Passed(ls, w, y, holder))
    requires holder == x ==> y !in w.seen && y != x
    requires y in w.seen ==> Reached(w, base, holder)
    requires y == x ==> holder == w.over[0]
    requires Reached(Advance(w, ls[w.over[0]], ls[x]), base, holder)
    requires Reached(w, base, w.over[0])
    ensures var w' := Advance(w, ls[w.over[0]], ls[x]);
            y in w'.seen <==> Passed(ls, w', y, holder)
  {
    hide Advance;
    var k := w.over[0];
    QueueHolds(w, ls[k], ls[x], holder);
    if holder == k {
      assert ls[k][..w.cur + 1] == ls[k][..w.cur] + [x];
      assert ls[k][..|ls[k]|] == ls[k];
    }
  }

  /** When the queue has run empty everything below the base has been handed out. */
  lemma {:induction false} WalkEnds(S: set<Item>, pm: map<Item, Item>, ls: map<Item, seq<Item>>, base: Item, w: Walk, x: Item)
    requires Coherent(S, pm, ls) && WalkOk(S, pm, ls, base, w) && w.over == []
    ensures x in w.seen <==> x in Below(pm, base)
    decreases |Ups(pm, x)|
  {
    hide Ups, IsForest;
    if x in Below(pm, base) {
      UpsStep(pm, x);
      UpsShrink(pm, x);
      if pm[x] != base {
        if pm[x] !in pm {
          UpsRoot(pm, pm[x]);
          assert false;
        }
        WalkEnds(S, pm, ls, base, w, pm[x]);
      }
    }
  }

  // ---------------------------------------------------------------- level by level

  /** How deep x lies. */
  ghost function Depth<T>(pm: map<T, T>, x: T): nat {
    |Ups(pm, x)|
  }

  ghost predicate Rising<T>(pm: map<T, T>, list: seq<T>) {
    forall i, j :: 0 <= i < j < |list| ==> Depth(pm, list[i]) <= Depth(pm, list[j])
  }

  ghost predicate Within<T>(pm: map<T, T>, list: seq<T>, d: nat) {
    forall i :: 0 <= i < |list| ==> Depth(pm, list[i]) <= d
  }

  /** Queue and history rise in depth, and nothing lies more than one level below the front of the queue. */
  ghost predicate Levels(pm: map<Item, Item>, w: Walk) {
    && Rising(pm, w.over) && Rising(pm, w.seen)
    && (w.over != [] ==> Within(pm, w.over, Depth(pm, w.over[0]) + 1) && Within(pm, w.seen, Depth(pm, w.over[0]) + 1))
  }

  lemma RisingPush<T>(pm: map<T, T>, list: seq<T>, x: T)
    requires Rising(pm, list) && Within(pm, list, Depth(pm, x))
    ensures Rising(pm, list + [x]) && Within(pm, list + [x], Depth(pm, x))
  {
    hide Depth;
  }

  lemma RisingTail<T>(pm: map<T, T>, list: seq<T>)
    requires Rising(pm, list) && list != []
    ensures Rising(pm, list[1..]) && (list[1..] != [] ==> Depth(pm, list[0]) <= Depth(pm, list[1..][0]))
  {
    hide Depth;
    if |list| > 1 {
      assert list[1..][0] == list[1];
    }
    forall i, j | 0 <= i < j < |list| - 1 ensures Depth(pm, list[1..][i]) <= Depth(pm, list[1..][j]) {
      assert list[1..][i] == list[i + 1] && list[1..][j] == list[j + 1];
    }
  }

  lemma WithinMore<T>(pm: map<T, T>, list: seq<T>, d: nat, d': nat)
    requires Within(pm, list, d) && d <= d'
    ensures Within(pm, list, d') && (list != [] ==> Within(pm, list[1..], d'))
  {
    hide Depth;
  }

  lemma OneDeeper<T>(pm: map<T, T>, x: T)
    requires IsForest(pm) && x in pm
    ensures Depth(pm, x) == Depth(pm, pm[x]) + 1
  {
    UpsStep(pm, x);
    NotOwnAncestor(pm, pm[x]);
  }

  lemma LevelsAdvance(S: set<Item>, pm: map<Item, Item>, ls: map<Item, seq<Item>>, base: Item, w: Walk)
    requires Coherent(S, pm, ls) && WalkOk(S, pm, ls, base, w) && w.over != [] && Levels(pm, w)
    ensures var list := ls[w.over[0]];
            list[w.cur] in ls && Levels(pm, Advance(w, list, ls[list[w.cur]]))
  {
    hide Ups, IsForest, Passed, Depth, Rising, Within, Advance, Distinct;
    CurrentIsNew(S, pm, ls, base, w);
    var list := ls[w.over[0]];
    OneDeeper(pm, list[w.cur]);
    LevelsAfter(pm, w, list, ls[list[w.cur]]);
  }

  lemma LevelsAfter(pm: map<Item, Item>, w: Walk, list: seq<Item>, held: seq<Item>)
    requires w.over != [] && w.cur < |list| && Levels(pm, w) && Depth(pm, list[w.cur]) == Depth(pm, w.over[0]) + 1
    ensures Levels(pm, Advance(w, list, held))
  {
    hide Depth, Rising, Within;
    var x := list[w.cur];
    RisingPush(pm, w.over, x);
    RisingPush(pm, w.seen, x);
    var over := if held != [] then w.over + [x] else w.over;
    RisingTail(pm, over);
    if over[1..] != [] {
      WithinMore(pm, over, Depth(pm, x), Depth(pm, over[1..][0]) + 1);
      WithinMore(pm, w.seen + [x], Depth(pm, x), Depth(pm, over[1..][0]) + 1);
    }
  }

  function Range<T>(s: seq<T>): set<T> {
    set x | x in s
  }

  lemma {:induction false} DistinctCount<T>(s: seq<T>)
    requires Distinct(s)
    ensures |Range(s)| == |s|
  {
    if s != [] {
      DistinctCount(s[1..]);
      assert Range(s) == {s[0]} + Range(s[1..]);
    }
  }

  class ContainerIterator {
    const base: Item
    var over: seq<Item>
    var current: nat
    ghost var seen: seq<Item>

    ghost predicate Valid(S: set<Item>)
      reads this, S`parent, S`itemlist
    {
      && Structure(S) && WalkOk(S, Parents(S), Lists(S), base, Walk(over, current, seen))
      && Levels(Parents(S), Walk(over, current, seen))
    }

    /** `Container::begin` */
    constructor (base: Item, ghost S: set<Item>)
      requires Structure(S) && base in S
      ensures Valid(S) && this.base == base && seen == []
    {
      this.base := base;
      current := 0;
      over := if base.itemlist != [] then [base] else [];
      seen := [];
      new;
      WalkStarts(S, Parents(S), Lists(S), base);
    }

    /** Comparison with `end()`. */
    predicate AtEnd()
      reads this
    {
      over == []
    }

    /** What the walk stands on. */
    ghost function Now(S: set<Item>): Item
      requires Valid(S) && !AtEnd()
      reads this, S`parent, S`itemlist
    {
      Lists(S)[over[0]][current]
    }

    /** `operator*` */
    method Current(ghost S: set<Item>) returns (x: Item)
      requires Valid(S) && !AtEnd()
      ensures x in S && x !in seen && x in Below(Parents(S), base) && x == Now(S)
    {
      CurrentIsNew(S, Parents(S), Lists(S), base, Walk(over, current, seen));
      hide Ups, Coherent;
      x := over[0].itemlist[current];
    }

    /** The queue and position that `operator++` moves to. */
    method Successor(ghost S: set<Item>) returns (queue: seq<Item>, position: nat, ghost item: Item)
      requires Valid(S) && !AtEnd()
      ensures item == Now(S) && WalkOk(S, Parents(S), Lists(S), base, Walk(queue, position, seen + [item]))
      ensures Levels(Parents(S), Walk(queue, position, seen + [item]))
    {
      hide WalkOk, Levels, Coherent, Parents, Lists;
      ghost var w := Walk(over, current, seen);
      FrontFacts(S, this);
      WalkAdvances(S, Parents(S), Lists(S), base, w);
      LevelsAdvance(S, Parents(S), Lists(S), base, w);
      var x := over[0].itemlist[current];
      ListOf(S, over[0]);
      ListOf(S, x);
      item := x;
      queue, position := over, current + 1;
      if x.itemlist != [] {
        queue := queue + [x];
      }
      if position == |queue[0].itemlist| {
        queue, position := queue[1..], 0;
      }
      assert Walk(queue, position, seen + [x]) == Advance(w, Lists(S)[over[0]], Lists(S)[x]);
    }

    /** `operator++` */
    method Next(ghost S: set<Item>) returns (ghost item: Item)
      requires Valid(S) && !AtEnd()
      modifies this
      ensures Valid(S) && item == old(Now(S)) && seen == old(seen) + [item]
    {
      hide WalkOk, Levels, Coherent, Parents, Lists, Now;
      var queue, position;
      queue, position, item := Successor(S);
      over, current, seen := queue, position, seen + [item];
    }
  }

  lemma ListOf(S: set<Item>, x: Item)
    requires x in S
    ensures x in Lists(S) && Lists(S)[x] == x.itemlist
  {
  }

  lemma FrontFacts(S: set<Item>, it: ContainerIterator)
    requires it.Valid(S) && !it.AtEnd()
    ensures it.over[0] in S && it.current < |it.over[0].itemlist| && it.over[0].itemlist[it.current] in S
  {
    CurrentIsNew(S, Parents(S), Lists(S), it.base, Walk(it.over, it.current, it.seen));
  }

  lemma SeenIsBelow(S: set<Item>, it: ContainerIterator)
    requires it.Valid(S) && it.AtEnd()
    ensures Range(it.seen) == Below(Parents(S), it.base)
  {
    forall x ensures x in it.seen <==> x in Below(Parents(S), it.base) {
      WalkEnds(S, Parents(S), Lists(S), it.base, Walk(it.over, it.current, it.seen), x);
    }
  }

  lemma SeenStaysBelow(S: set<Item>, it: ContainerIterator)
    requires it.Valid(S)
    ensures Distinct(it.seen) && Range(it.seen) <= Below(Parents(S), it.base)
    ensures |it.seen| <= |S|
  {
    DistinctCount(it.seen);
    assert Range(it.seen) <= S;
    Subset(Range(it.seen), S);
  }

  lemma SeenRises(S: set<Item>, it: ContainerIterator)
    requires it.Valid(S)
    ensures forall i, j :: 0 <= i < j < |it.seen| ==> |Ups(Parents(S), it.seen[i])| <= |Ups(Parents(S), it.seen[j])|
  {
    hide Ups;
    forall i, j | 0 <= i < j < |it.seen| ensures |Ups(Parents(S), it.seen[i])| <= |Ups(Parents(S), it.seen[j])| {
      assert Depth(Parents(S), it.seen[i]) <= Depth(Parents(S), it.seen[j]);
    }
  }

  /** The walk hands out every item held at any depth, each exactly once, breadth first, and ends. */
  method Walkthrough(c: Item, ghost S: set<Item>) returns (handed: seq<Item>)
    requires Structure(S) && c in S
    ensures Distinct(handed) && Range(handed) == Below(Parents(S), c)
    ensures forall i, j :: 0 <= i < j < |handed| ==> |Ups(Parents(S), handed[i])| <= |Ups(Parents(S), handed[j])|
  {
    hide WalkOk, Levels, Coherent, Below;
    var it := new ContainerIterator(c, S);
    handed := [];
    while !it.AtEnd()
      invariant it.Valid(S) && handed == it.seen && it.base == c
      decreases |S| - |it.seen|
    {
      var x := it.Current(S);
      handed := handed + [x];
      ghost var item := it.Next(S);
      SeenStaysBelow(S, it);
    }
    SeenStaysBelow(S, it);
    SeenIsBelow(S, it);
    SeenRises(S, it);
  }

  /** `getItemHoldingCount` */
  method GetItemHoldingCount(c: Item, ghost S: set<Item>) returns (counter: nat)
    requires Structure(S) && c in S
    ensures counter == |Below(Parents(S), c)|
  {
    hide WalkOk, Levels, Coherent, Below;
    var it := new ContainerIterator(c, S);
    counter := 0;
    while !it.AtEnd()
      invariant it.Valid(S) && counter == |it.seen| && it.base == c
      decreases |S| - |it.seen|
    {
      ghost var item := it.Next(S);
      counter := counter + 1;
      SeenStaysBelow(S, it);
    }
    SeenStaysBelow(S, it);
    SeenIsBelow(S, it);
    DistinctCount(it.seen);
  }

  /** `isHoldingItem` is the descendant relation. */
  method IsHoldingItem(c: Item, item: Item, ghost S: set<Item>) returns (held: bool)
    requires Structure(S) && c in S
    ensures held <==> item in Below(Parents(S), c)
  {
    hide WalkOk, Levels, Coherent, Below;
    var it := new ContainerIterator(c, S);
    while !it.AtEnd()
      invariant it.Valid(S) && item !in it.seen && it.base == c
      decreases |S| - |it.seen|
    {
      var x := it.Current(S);
      if x == item {
        return true;
      }
      ghost var next := it.Next(S);
      SeenStaysBelow(S, it);
    }
    SeenIsBelow(S, it);
    return false;
  }
}
