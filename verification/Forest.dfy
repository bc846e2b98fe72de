/** Containment as a parent map: who is inside what, ancestors, and what keeps it a forest. */
module Forest {

  /** Every ancestor of x. Edges are dropped as they are climbed, so this is total. */
  function Ups<T>(pm: map<T, T>, x: T): (r: set<T>)
    decreases |pm|
  {
    if x in pm then {pm[x]} + Ups(pm - {x}, pm[x]) else {}
  }

  /** Nothing is its own ancestor. */
  predicate IsForest<T>(pm: map<T, T>) {
    forall x :: x in pm ==> x !in Ups(pm, x)
  }

  /** Everything at any depth below a. */
  function Below<T>(pm: map<T, T>, a: T): set<T> {
    set x | x in pm && a in Ups(pm, x)
  }

  // ---------------------------------------------------------------- climbing

  lemma {:induction false} UpsAreValues<T>(pm: map<T, T>, x: T)
    ensures Ups(pm, x) <= pm.Values
    decreases |pm|
  {
    if x in pm {
      UpsAreValues(pm - {x}, pm[x]);
    }
  }

  /** An edge that the climb never meets does not matter. */
  lemma {:induction false} UpsWithout<T>(pm: map<T, T>, x: T, y: T)
    requires y != x && x !in Ups(pm - {x}, y)
    ensures Ups(pm - {x}, y) == Ups(pm, y)
    decreases |pm|
  {
    if y in pm {
      assert (pm - {y}) - {x} == (pm - {x}) - {y};
      if pm[y] != x {
        UpsWithout(pm - {y}, x, pm[y]);
      }
    }
  }

  lemma UpsStep<T>(pm: map<T, T>, x: T)
    requires IsForest(pm) && x in pm
    ensures Ups(pm, x) == {pm[x]} + Ups(pm, pm[x])
    ensures pm[x] != x && pm[x] !in Ups(pm, pm[x]) && x !in Ups(pm, pm[x])
  {
    var y := pm[x];
    assert x !in Ups(pm, x);
    UpsWithout(pm, x, y);
    if y in pm {
      assert y !in Ups(pm, y);
    }
  }

  lemma UpsShrink<T>(pm: map<T, T>, x: T)
    requires IsForest(pm) && x in pm
    ensures |Ups(pm, pm[x])| < |Ups(pm, x)|
  {
    UpsStep(pm, x);
  }

  lemma {:induction false} UpsTransitive<T>(pm: map<T, T>, x: T, a: T)
    requires IsForest(pm) && a in Ups(pm, x)
    ensures Ups(pm, a) <= Ups(pm, x)
    decreases |Ups(pm, x)|
  {
    UpsStep(pm, x);
    if a != pm[x] {
      UpsShrink(pm, x);
      UpsTransitive(pm, pm[x], a);
    }
  }

  // ---------------------------------------------------------------- what keeps a forest

  /** A rank that grows along every edge is a certificate. */
  ghost predicate Ranked<T>(pm: map<T, T>, h: T -> int) {
    forall x :: x in pm ==> h(x) < h(pm[x])
  }

  lemma {:induction false} RankedAbove<T>(pm: map<T, T>, h: T -> int, x: T, a: T)
    requires Ranked(pm, h) && a in Ups(pm, x)
    ensures h(x) < h(a)
    decreases |pm|
  {
    if a != pm[x] {
      RankedAbove(pm - {x}, h, pm[x], a);
    }
  }

  lemma RankedIsForest<T>(pm: map<T, T>, h: T -> int)
    requires Ranked(pm, h)
    ensures IsForest(pm)
  {
    forall x | x in pm ensures x !in Ups(pm, x) {
      if x in Ups(pm, x) {
        RankedAbove(pm, h, x, x);
      }
    }
  }

  /** In a forest the number of ancestors is such a rank, counted down. */
  lemma ForestIsRanked<T>(pm: map<T, T>)
    requires IsForest(pm)
    ensures Ranked(pm, (x: T) => -|Ups(pm, x)|)
  {
    var h := (x: T) => -|Ups(pm, x)|;
    forall x | x in pm ensures h(x) < h(pm[x]) {
      UpsShrink(pm, x);
    }
  }

  /** Putting a loose c into p keeps a forest exactly when c is neither p nor above p. */
  lemma AttachKeepsForest<T>(pm: map<T, T>, c: T, p: T)
    requires IsForest(pm) && c !in pm
    ensures IsForest(pm[c := p]) <==> c != p && c !in Ups(pm, p)
  {
    if c == p || c in Ups(pm, p) {
      AttachCycle(pm, c, p);
    } else {
      AttachSafe(pm, c, p);
    }
  }

  lemma AttachCycle<T>(pm: map<T, T>, c: T, p: T)
    requires c !in pm && (c == p || c in Ups(pm, p))
    ensures c in Ups(pm[c := p], c)
  {
    assert pm[c := p] - {c} == pm;
  }

  lemma AttachSafe<T>(pm: map<T, T>, c: T, p: T)
    requires IsForest(pm) && c !in pm && c != p && c !in Ups(pm, p)
    ensures IsForest(pm[c := p])
  {
    var A := {p} + Ups(pm, p);
    var lift := |Ups(pm, p)| + 1;
    var h := (x: T) => (if x in A then lift else 0) - |Ups(pm, x)|;
    var pm' := pm[c := p];
    forall x {:trigger x in pm'} | x in pm' ensures h(x) < h(pm'[x]) {
      if x == c {
        assert Ups(pm, c) == {};
      } else {
        UpsShrink(pm, x);
        if x in A {
          UpsStep(pm, x);
          if x != p {
            UpsTransitive(pm, p, x);
          }
        }
      }
    }
    RankedIsForest(pm', h);
  }

  lemma DetachKeepsForest<T>(pm: map<T, T>, c: T)
    requires IsForest(pm)
    ensures IsForest(pm - {c})
  {
    ForestIsRanked(pm);
    RankedIsForest(pm - {c}, (x: T) => -|Ups(pm, x)|);
  }

  // ---------------------------------------------------------------- how many are below

  lemma {:induction false} UpsAfterAttach<T>(pm: map<T, T>, c: T, p: T, x: T)
    requires IsForest(pm) && c !in pm && c != p && c !in Ups(pm, p) && IsForest(pm[c := p])
    ensures Ups(pm[c := p], x) == Ups(pm, x) + (if x == c || c in Ups(pm, x) then {p} + Ups(pm, p) else {})
    decreases |Ups(pm, x)|
  {
    hide IsForest, Ups;
    var pm' := pm[c := p];
    if x == c {
      UpsRoot(pm, c);
      UpsAttached(pm, c, p);
    } else if x in pm {
      UpsStep(pm, x);
      UpsStep(pm', x);
      UpsShrink(pm, x);
      UpsAfterAttach(pm, c, p, pm[x]);
    } else {
      UpsRoot(pm, x);
      UpsRoot(pm', x);
    }
  }

  lemma UpsRoot<T>(pm: map<T, T>, x: T)
    requires x !in pm
    ensures Ups(pm, x) == {}
  {
  }

  lemma UpsAttached<T>(pm: map<T, T>, c: T, p: T)
    requires c !in pm
    ensures Ups(pm[c := p], c) == {p} + Ups(pm, p)
  {
    assert pm[c := p] - {c} == pm;
  }

  /** Below an ancestor d of the place c goes to, exactly c and its contents are new. */
  lemma BelowAfterAttach<T>(pm: map<T, T>, c: T, p: T, d: T)
    requires IsForest(pm) && c !in pm && c != p && c !in Ups(pm, p)
    requires d == p || d in Ups(pm, p)
    ensures Below(pm[c := p], d) == Below(pm, d) + {c} + Below(pm, c)
    ensures |Below(pm[c := p], d)| == |Below(pm, d)| + 1 + |Below(pm, c)|
  {
    hide IsForest, Ups;
    AttachSafe(pm, c, p);
    var pm' := pm[c := p];
    forall x ensures x in Below(pm', d) <==> x in Below(pm, d) + {c} + Below(pm, c) {
      if x in pm' {
        UpsAfterAttach(pm, c, p, x);
        if x == c {
          UpsRoot(pm, c);
        }
      }
    }
    assert Below(pm', d) == Below(pm, d) + {c} + Below(pm, c);
    forall x | x in Below(pm, d) ensures x !in Below(pm, c) {
      if c in Ups(pm, x) {
        Comparable(pm, x, c, d);
        if d != p {
          UpsTransitive(pm, p, d);
        }
      }
    }
    Cardinality(Below(pm, d), c, Below(pm, c));
  }

  lemma Cardinality<T>(a: set<T>, c: T, b: set<T>)
    requires c !in a && c !in b && a !! b
    ensures |a + {c} + b| == |a| + 1 + |b|
  {
    assert |a + {c}| == |a| + 1;
    assert (a + {c}) !! b;
  }

  /** Two ancestors of one thing are on one line; a root among them is the top. */
  lemma {:induction false} Comparable<T>(pm: map<T, T>, x: T, c: T, d: T)
    requires IsForest(pm) && c !in pm && c in Ups(pm, x) && d in Ups(pm, x)
    ensures d == c || c in Ups(pm, d)
    decreases |Ups(pm, x)|
  {
    UpsStep(pm, x);
    UpsShrink(pm, x);
    var y := pm[x];
    if d == y {
    } else if c == y {
      assert false;
    } else {
      Comparable(pm, y, c, d);
    }
  }

  /** Taking c out and putting it back elsewhere below d leaves the number below d unchanged. */
  lemma BelowAfterMove<T>(pm: map<T, T>, c: T, p: T, d: T)
    requires IsForest(pm) && c in pm && d in Ups(pm, c)
    requires c != p && c !in Ups(pm, p) && (d == p || d in Ups(pm, p))
    ensures |Below(pm[c := p], d)| == |Below(pm, d)|
  {
    var q := pm[c];
    var loose := pm - {c};
    DetachKeepsForest(pm, c);
    assert loose[c := p] == pm[c := p] && loose[c := q] == pm;
    UpsStep(pm, c);
    UpsWithout'(pm, c, p);
    UpsWithout'(pm, c, q);
    BelowAfterAttach(loose, c, p, d);
    BelowAfterAttach(loose, c, q, d);
  }

  lemma {:induction false} UpsWithout'<T>(pm: map<T, T>, x: T, y: T)
    requires y != x && x !in Ups(pm, y)
    ensures Ups(pm - {x}, y) == Ups(pm, y)
    decreases |pm|
  {
    if y in pm {
      assert (pm - {y}) - {x} == (pm - {x}) - {y};
      UpsWithout'(pm - {y}, x, pm[y]);
    }
  }

  // ---------------------------------------------------------------- the climb from c

  /** c itself and everything above it. */
  function Path<T>(pm: map<T, T>, c: T): set<T> {
    {c} + Ups(pm, c)
  }

  /** Every holder on the climb holds exactly one thing on it. */
  lemma {:induction false} HeldOnPath<T>(pm: map<T, T>, c: T, x: T) returns (y: T)
    requires IsForest(pm) && x in Ups(pm, c)
    ensures y in Path(pm, c) && y in pm && pm[y] == x
    decreases |Ups(pm, c)|
  {
    UpsStep(pm, c);
    if x == pm[c] {
      y := c;
    } else {
      UpsShrink(pm, c);
      y := HeldOnPath(pm, pm[c], x);
    }
  }

  lemma {:induction false} OnlyOneHeld<T>(pm: map<T, T>, c: T, y: T, z: T)
    requires IsForest(pm) && y in pm && z in pm && pm[y] == pm[z]
    requires y in Path(pm, c) && z in Path(pm, c)
    ensures y == z
    decreases |Ups(pm, c)|
  {
    hide IsForest, Ups;
    if y == c || z == c {
      var other := if y == c then z else y;
      if other != c {
        UpsStep(pm, c);
        UpsStep(pm, other);
        assert false;
      }
    } else {
      if c !in pm {
        UpsRoot(pm, c);
        assert false;
      }
      UpsStep(pm, c);
      UpsShrink(pm, c);
      OnlyOneHeld(pm, pm[c], y, z);
    }
  }

  lemma {:induction false} Subset<T>(a: set<T>, b: set<T>)
    requires a <= b
    ensures |a| <= |b|
  {
    if a != {} {
      var x :| x in a;
      Subset(a - {x}, b - {x});
    }
  }
}
