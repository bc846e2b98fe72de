/** What the cached weights add up to, and whole runs of container operations. */
module ContainerWeights {
  import opened Forest
  import opened Containers

  lemma AncestorsBounded(S: set<Item>, pm: map<Item, Item>, ls: map<Item, seq<Item>>, x: Item)
    requires Coherent(S, pm, ls)
    ensures |Ups(pm, x)| <= |S|
  {
    UpsAreValues(pm, x);
    Subset(Ups(pm, x), S);
  }

  /** The recursive weight of everything inside x, at every depth. */
  ghost function Contents(S: set<Item>, pm: map<Item, Item>, ls: map<Item, seq<Item>>, own: map<Item, int>, x: Item): int
    requires Coherent(S, pm, ls) && own.Keys == S && x in S
    decreases |S| - |Ups(pm, x)|, 1, 0
  {
    ContentsOf(S, pm, ls, own, x, ls[x])
  }

  ghost function ContentsOf(S: set<Item>, pm: map<Item, Item>, ls: map<Item, seq<Item>>, own: map<Item, int>,
        x: Item, list: seq<Item>): int
    requires Coherent(S, pm, ls) && own.Keys == S && x in S
    requires forall y :: y in list ==> y in ls[x]
    decreases |S| - |Ups(pm, x)|, 0, |list|
  {
    if list == [] then 0
    else
      var y := list[0];
      assert y in pm && pm[y] == x;
      UpsShrink(pm, y);
      AncestorsBounded(S, pm, ls, y);
      own[y] + Contents(S, pm, ls, own, y) + ContentsOf(S, pm, ls, own, x, list[1..])
  }

  /** In a world every cached weight, at every level, is the recursive weight of the contents. */
  lemma {:induction false} CachedIsRecursive(S: set<Item>, pm: map<Item, Item>, ls: map<Item, seq<Item>>, own: map<Item, int>,
        t: map<Item, int>, x: Item)
    requires Coherent(S, pm, ls) && Balanced(ls, own, t) && own.Keys == S && t.Keys == S && x in S
    ensures t[x] == Contents(S, pm, ls, own, x)
    decreases |S| - |Ups(pm, x)|, 1, 0
  {
    hide Ups, IsForest, SumOver;
    CachedOver(S, pm, ls, own, t, x, ls[x]);
  }

  lemma {:induction false} CachedOver(S: set<Item>, pm: map<Item, Item>, ls: map<Item, seq<Item>>, own: map<Item, int>,
        t: map<Item, int>, x: Item, list: seq<Item>)
    requires Coherent(S, pm, ls) && Balanced(ls, own, t) && own.Keys == S && t.Keys == S && x in S
    requires forall y :: y in list ==> y in ls[x]
    ensures SumOver(list, Weights(own, t)) == ContentsOf(S, pm, ls, own, x, list)
    decreases |S| - |Ups(pm, x)|, 0, |list|
  {
    if list != [] {
      var y := list[0];
      assert y in pm && pm[y] == x;
      hide Ups, IsForest;
      UpsShrink(pm, y);
      AncestorsBounded(S, pm, ls, y);
      CachedIsRecursive(S, pm, ls, own, t, y);
      CachedOver(S, pm, ls, own, t, x, list[1..]);
    }
  }

  lemma WorldWeights(S: set<Item>, x: Item)
    requires World(S) && x in S
    ensures x.totalWeight == Contents(S, Parents(S), Lists(S), Owns(S), x)
  {
    CachedIsRecursive(S, Parents(S), Lists(S), Owns(S), Totals(S), x);
  }
}
