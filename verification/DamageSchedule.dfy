/** How an amount of damage is cut into a falling list of hits, and how the list is delivered. */
module DamageSchedule {

  function Abs(n: int): (r: int)
    ensures r >= 0 && (r == n || r == -n)
  {
    if n < 0 then -n else n
  }

  function AbsR(x: real): real {
    if x < 0.0 then -x else x
  }

  function Sum(list: seq<int>): int {
    if list == [] then 0 else list[0] + Sum(list[1..])
  }

  lemma {:induction false} SumPush(list: seq<int>, x: int)
    ensures Sum(list + [x]) == Sum(list) + x
  {
    if list == [] {
      assert list + [x] == [x];
    } else {
      SumPush(list[1..], x);
      assert (list + [x])[1..] == list[1..] + [x];
    }
  }

  /** What the values of at least i add up to. */
  function SumFrom(list: seq<int>, i: int): int {
    if list == [] then 0 else (if list[0] >= i then list[0] else 0) + SumFrom(list[1..], i)
  }

  lemma {:induction false} SumFromPush(list: seq<int>, x: int, i: int)
    ensures SumFrom(list + [x], i) == SumFrom(list, i) + if x >= i then x else 0
  {
    if list == [] {
      assert list + [x] == [x];
    } else {
      SumFromPush(list[1..], x, i);
      assert (list + [x])[1..] == list[1..] + [x];
    }
  }

  lemma {:induction false} SumOfAll(list: seq<int>, i: int)
    requires forall x :: x in list ==> x >= i
    ensures SumFrom(list, i) == Sum(list)
  {
    if list != [] {
      assert list[0] in list;
      assert forall x :: x in list[1..] ==> x in list;
      SumOfAll(list[1..], i);
    }
  }

  lemma {:induction false} SumOfNone(list: seq<int>, i: int)
    requires forall x :: x in list ==> x < i
    ensures SumFrom(list, i) == 0
  {
    if list != [] {
      assert list[0] in list;
      assert forall x :: x in list[1..] ==> x in list;
      SumOfNone(list[1..], i);
    }
  }

  function Triangle(n: int): (r: int)
    requires n >= 0
    ensures r >= 0 && 2 * r == n * (n + 1)
  {
    if n == 0 then 0 else n + Triangle(n - 1)
  }

  /** The running target after the values start, start-1, ..., i: `med`. */
  function Med(amount: int, start: int, i: int): int
    requires amount >= 0 && 1 <= i <= start
  {
    ((start + 1 - i) * amount) / start
  }

  /** `x1 < x2`: another i brings the sum closer to med. Dividing by med = 0 gives two infinities. */
  predicate Closer(sum: int, i: int, med: int)
  {
    if med == 0 then false
    else AbsR(1.0 - (sum as real + i as real) / med as real) < AbsR(1.0 - sum as real / med as real)
  }

  lemma CloserIs(sum: int, i: int, med: int)
    requires med >= 0 && i > 0 && sum > 0
    ensures Closer(sum, i, med) <==> 2 * sum + i < 2 * med
  {
    if med > 0 {
      var m, s, r := med as real, sum as real, i as real;
      QuotientSum(s, r, m);
      Quotient(s, m);
      Quotient(r, m);
      hide Closer, AbsR;
      Nearer(s / m, r / m);
      Scaled(s / m, r / m, m, s, r);
      CloserUnfolds(sum, i, med);
    }
  }

  lemma CloserUnfolds(sum: int, i: int, med: int)
    requires med > 0
    ensures Closer(sum, i, med)
      <==> AbsR(1.0 - (sum as real + i as real) / med as real) < AbsR(1.0 - sum as real / med as real)
  {
  }

  lemma Nearer(a: real, b: real)
    requires b > 0.0
    ensures AbsR(1.0 - (a + b)) < AbsR(1.0 - a) <==> 2.0 * a + b < 2.0
  {
  }

  lemma QuotientSum(s: real, r: real, m: real)
    requires m > 0.0
    ensures (s + r) / m == s / m + r / m
  {
  }

  lemma Quotient(x: real, m: real)
    requires m > 0.0
    ensures x / m * m == x && (x > 0.0 ==> x / m > 0.0)
  {
  }

  lemma Scaled(a: real, b: real, m: real, s: real, r: real)
    requires m > 0.0 && a * m == s && b * m == r
    ensures 2.0 * a + b < 2.0 <==> 2.0 * s + r < 2.0 * m
  {
    var t := 2.0 - (2.0 * a + b);
    Distributed(a, b, m);
    assert t * m == 2.0 * m - (2.0 * s + r);
    SignKept(t, m);
  }

  lemma Distributed(a: real, b: real, m: real)
    ensures (2.0 - (2.0 * a + b)) * m == 2.0 * m - (2.0 * (a * m) + b * m)
  {
  }

  lemma SignKept(t: real, m: real)
    requires m > 0.0
    ensures t > 0.0 <==> t * m > 0.0
  {
  }

  // ---------------------------------------------------------------- facts about the target

  lemma MedBounds(amount: int, start: int, i: int)
    requires amount >= 0 && 1 <= i <= start
    ensures 0 <= Med(amount, start, i) <= amount
    ensures i == 1 ==> Med(amount, start, i) == amount
    ensures i < start ==> Med(amount, start, i + 1) <= Med(amount, start, i)
    ensures start * (amount - Med(amount, start, i)) >= amount * (i - 1)
  {
    var n := (start + 1 - i) * amount;
    var m := n / start;
    Spread(amount, start, i);
    NotNegative(i - 1, amount);
    NotNegative(start + 1 - i, amount);
    AtMost(n, start, amount);
    DivBounds(n, start);
    assert start * (amount - m) == start * amount - start * m;
    if i == 1 {
      AtLeast(n, start, amount);
    }
    if i < start {
      var k := (start - i) * amount;
      assert k == n - amount;
      NotNegative(start - i, amount);
      Ordered(k, n, start);
    }
  }

  lemma Spread(amount: int, start: int, i: int)
    ensures (start + 1 - i) * amount == start * amount - amount * (i - 1)
    ensures (start - i) * amount == (start + 1 - i) * amount - amount
  {
  }

  lemma NotNegative(a: int, b: int)
    requires a >= 0 && b >= 0
    ensures a * b >= 0 && b * a >= 0
  {
  }

  lemma DivBounds(n: int, d: int)
    requires d > 0
    ensures d * (n / d) <= n < d * (n / d) + d
  {
  }

  /** A larger factor is larger by at least d. */
  lemma Step(d: int, a: int, b: int)
    requires d > 0 && a > b
    ensures d * a >= d * b + d
  {
    NotNegative(d, a - b - 1);
    assert d * (a - b - 1) == d * a - d * b - d;
  }

  lemma AtMost(n: int, d: int, q: int)
    requires d > 0 && n <= d * q && n >= 0
    ensures 0 <= n / d <= q
  {
    DivBounds(n, d);
    if n / d > q {
      Step(d, n / d, q);
      assert false;
    }
  }

  lemma AtLeast(n: int, d: int, q: int)
    requires d > 0 && n >= d * q
    ensures n / d >= q
  {
    DivBounds(n, d);
    if n / d < q {
      Step(d, q, n / d);
      assert false;
    }
  }

  lemma Ordered(k: int, n: int, d: int)
    requires d > 0 && k <= n
    ensures k / d <= n / d
  {
    DivBounds(k, d);
    AtLeast(n, d, k / d);
  }

  /** With enough to go round, the target leaves room for one each of the values still to come. */
  lemma MedRoom(amount: int, start: int, i: int)
    requires 1 <= i <= start && amount >= Triangle(start)
    ensures 2 * (amount - Med(amount, start, i)) >= (i - 1) * (i + 1)
  {
    hide Triangle, Med;
    MedBounds(amount, start, i);
    RoomFrom(amount, start, i, amount - Med(amount, start, i), Triangle(start));
  }

  lemma RoomFrom(amount: int, start: int, i: int, slack: int, t: int)
    requires 1 <= i <= start && amount >= t && 2 * t == start * (start + 1)
    requires start * slack >= amount * (i - 1)
    ensures 2 * slack >= (i - 1) * (i + 1)
  {
    var want := (start + 1) * (i - 1);
    NotNegative(amount - t, i - 1);
    Distribute(amount, t, i - 1);
    DoubleTriangle(start, t, i - 1);
    DoubleSlack(start, slack);
    if 2 * slack < want {
      Step(start, want, 2 * slack);
      assert false;
    }
    WantIsEnough(start, i);
  }

  lemma Distribute(a: int, t: int, k: int)
    ensures a * k == (a - t) * k + t * k
  {
  }

  lemma DoubleTriangle(start: int, t: int, k: int)
    requires 2 * t == start * (start + 1)
    ensures 2 * (t * k) == start * ((start + 1) * k)
  {
    assert 2 * (t * k) == (2 * t) * k;
  }

  lemma DoubleSlack(start: int, slack: int)
    ensures 2 * (start * slack) == start * (2 * slack)
  {
  }

  lemma WantIsEnough(start: int, i: int)
    requires 1 <= i <= start
    ensures (start + 1) * (i - 1) >= (i - 1) * (i + 1)
  {
    NotNegative(start - i, i - 1);
    assert (start + 1) * (i - 1) == (i - 1) * (i + 1) + (start - i) * (i - 1);
  }

  // ---------------------------------------------------------------- the list

  predicate Falling(list: seq<int>) {
    forall a, b :: 0 <= a <= b < |list| ==> list[a] >= list[b]
  }

  /** The value i is dealt until another one would not bring the values from start down to i closer to
      their share of the amount, and at least once. */
  predicate Share(list: seq<int>, amount: int, start: int, i: int)
    requires start >= 1
  {
    var s, t, m := SumFrom(list, i), SumFrom(list, i + 1), ((start + 1 - i) * amount) / start;
    2 * s + i >= 2 * m && (s == t + i || 2 * s - i < 2 * m)
  }

  ghost predicate Shared(list: seq<int>, amount: int, start: int, i: int)
    requires start >= 1
  {
    forall k :: i <= k <= start ==> Share(list, amount, start, k)
  }

  /** What the schedule promises of the list made for `amount`, starting from `start`. */
  ghost predicate Schedule(list: seq<int>, amount: int, start: int)
    requires amount >= 0 && start >= 1
  {
    && Falling(list)
    && (forall x :: x in list <==> 1 <= x <= start)
    && Shared(list, amount, start, 1)
    && amount <= Sum(list) <= amount + Triangle(start)
    && (Sum(list) == amount <==> amount >= Triangle(start))
  }

  /** After the values start, ..., i the sum has caught up with the target for i, has not run away
      from it, and, if there is enough to go round, has left room for one each of i-1, ..., 1. */
  ghost predicate OnTarget(sum: int, amount: int, start: int, i: int)
    requires amount >= 0 && 1 <= i <= start
  {
    && 2 * (Med(amount, start, i) - sum) <= i
    && Triangle(start) - Triangle(i - 1) <= sum <= Med(amount, start, i) + Triangle(start) - Triangle(i - 1)
    && (amount >= Triangle(start) ==> sum <= amount - Triangle(i - 1))
  }

  lemma TwiceTriangle(i: int)
    requires i >= 1
    ensures 2 * Triangle(i - 1) == i * i - i && (i - 1) * (i + 1) == i * i - 1
  {
  }

  lemma {:induction false} TriangleGrows(a: int, b: int)
    requires 0 <= a < b
    ensures Triangle(b) >= Triangle(a) + a + 1
    decreases b
  {
    if a + 1 < b {
      TriangleGrows(a, b - 1);
    }
  }

  /** A falling list of exactly the values from start down to i. */
  ghost predicate Covers(list: seq<int>, i: int, start: int) {
    Falling(list) && forall x :: x in list <==> i <= x <= start
  }

  lemma CoversPush(list: seq<int>, i: int, start: int)
    requires i <= start && (Covers(list, i, start) || Covers(list, i + 1, start))
    ensures Covers(list + [i], i, start)
  {
    forall k | 0 <= k < |list| ensures list[k] >= i {
      assert list[k] in list;
    }
  }

  /** The bounds that hold while values are being pushed for stage i. */
  ghost predicate Bounded(sum: int, amount: int, start: int, i: int)
    requires amount >= 0 && 1 <= i <= start
  {
    && 0 < Triangle(start) - Triangle(i - 1) <= sum <= Med(amount, start, i) + Triangle(start) - Triangle(i - 1)
    && (amount >= Triangle(start) ==> sum <= amount - Triangle(i - 1))
  }

  /** `generateDamageList` in exact arithmetic. */
  method GenerateDamageList(amount: int, start: int) returns (list: seq<int>)
    ensures start < 1 ==> list == []
    ensures start >= 1 ==> Schedule(list, Abs(amount), start)
    ensures forall i {:trigger SumFrom(list, i)} :: 1 <= i <= start ==>
              var s, t, m := SumFrom(list, i), SumFrom(list, i + 1), ((start + 1 - i) * Abs(amount)) / start;
              2 * s + i >= 2 * m && (s == t + i || 2 * s - i < 2 * m)
  {
    hide Med, Closer, Sum, SumFrom, Covers, Bounded, OnTarget, Share, Shared, Schedule;
    list := [];
    var sum, med := 0, 0;
    var a := Abs(amount);
    var i := start;
    Nothing(start);
    while i > 0
      invariant start >= 1 ==> 0 <= i <= start
      invariant start < 1 ==> list == []
      invariant sum == Sum(list) && (i == start ==> sum == 0)
      invariant start >= 1 ==> Covers(list, i + 1, start)
      invariant 0 <= i < start ==> OnTarget(sum, a, start, i + 1)
      invariant 0 <= i < start ==> Shared(list, a, start, i + 1)
      decreases i
    {
      med := ((start + 1 - i) * a) / start;
      ghost var before := sum;
      StageOpens(sum, a, start, i);
      BeforeStage(list, a, start, i);
      Pushed(list, a, start, i);
      sum := sum + i;
      list := list + [i];
      while Closer(sum, i, med)
        invariant sum == Sum(list) && Covers(list, i, start) && Bounded(sum, a, start, i)
        invariant Shared(list, a, start, i + 1) && SumFrom(list, i + 1) == before
        invariant sum == before + i || 2 * sum - i < 2 * med
        decreases med - sum
      {
        PushKeepsBounds(sum, a, start, i);
        CloserIs(sum, i, med);
        Pushed(list, a, start, i);
        sum := sum + i;
        list := list + [i];
      }
      StageCloses(sum, a, start, i);
      StageShares(list, a, start, i, sum, before);
      i := i - 1;
    }
    if start >= 1 {
      ScheduleDone(list, a, start);
      ShareOf(list, a, start);
    }
  }

  lemma BeforeStage(list: seq<int>, amount: int, start: int, i: int)
    requires 1 <= i <= start && Covers(list, i + 1, start) && (i < start ==> Shared(list, amount, start, i + 1))
    ensures SumFrom(list, i + 1) == Sum(list) && Shared(list, amount, start, i + 1)
  {
    SumOfAll(list, i + 1);
  }

  /** Another i changes neither the sums of the larger values nor their shares. */
  lemma Pushed(list: seq<int>, amount: int, start: int, i: int)
    requires 1 <= i <= start && (Covers(list, i, start) || Covers(list, i + 1, start))
    requires Shared(list, amount, start, i + 1)
    ensures Sum(list + [i]) == Sum(list) + i && Covers(list + [i], i, start)
    ensures SumFrom(list + [i], i + 1) == SumFrom(list, i + 1) && Shared(list + [i], amount, start, i + 1)
  {
    SumPush(list, i);
    CoversPush(list, i, start);
    SumFromPush(list, i, i + 1);
    hide SumFrom, Sum, Covers;
    forall k | i + 1 <= k <= start ensures Share(list + [i], amount, start, k) {
      assert Share(list, amount, start, k);
      SumFromPush(list, i, k);
      SumFromPush(list, i, k + 1);
    }
  }

  lemma StageShares(list: seq<int>, amount: int, start: int, i: int, sum: int, before: int)
    requires amount >= 0 && 1 <= i <= start && Covers(list, i, start) && Shared(list, amount, start, i + 1)
    requires sum == Sum(list) && SumFrom(list, i + 1) == before
    requires OnTarget(sum, amount, start, i)
    requires sum == before + i || 2 * sum - i < 2 * (((start + 1 - i) * amount) / start)
    ensures Shared(list, amount, start, i)
  {
    SumOfAll(list, i);
    hide Sum, SumFrom, Covers, Triangle;
    assert Share(list, amount, start, i);
  }

  lemma ShareOf(list: seq<int>, amount: int, start: int)
    requires start >= 1 && Shared(list, amount, start, 1)
    ensures forall i {:trigger SumFrom(list, i)} :: 1 <= i <= start ==>
              var s, t, m := SumFrom(list, i), SumFrom(list, i + 1), ((start + 1 - i) * amount) / start;
              2 * s + i >= 2 * m && (s == t + i || 2 * s - i < 2 * m)
  {
    hide SumFrom;
    forall i {:trigger SumFrom(list, i)} | 1 <= i <= start
      ensures var s, t, m := SumFrom(list, i), SumFrom(list, i + 1), ((start + 1 - i) * amount) / start;
              2 * s + i >= 2 * m && (s == t + i || 2 * s - i < 2 * m)
    {
      assert Share(list, amount, start, i);
    }
  }

  lemma Nothing(start: int)
    ensures Sum([]) == 0 && Covers([], start + 1, start)
  {
  }

  lemma StageOpens(sum: int, amount: int, start: int, i: int)
    requires amount >= 0 && 1 <= i <= start
    requires i == start ==> sum == 0
    requires i < start ==> OnTarget(sum, amount, start, i + 1)
    ensures Med(amount, start, i) == ((start + 1 - i) * amount) / start >= 0
    ensures Bounded(sum + i, amount, start, i)
  {
    MedBounds(amount, start, i);
    assert Triangle(i) == i + Triangle(i - 1);
    TriangleGrows(i - 1, start);
  }

  lemma PushKeepsBounds(sum: int, amount: int, start: int, i: int)
    requires amount >= 0 && 1 <= i <= start && Bounded(sum, amount, start, i)
    requires Closer(sum, i, Med(amount, start, i))
    ensures Bounded(sum + i, amount, start, i) && sum < Med(amount, start, i)
  {
    hide Med, Closer;
    MedBounds(amount, start, i);
    TriangleGrows(i - 1, start);
    CloserIs(sum, i, Med(amount, start, i));
    if amount >= Triangle(start) {
      MedRoom(amount, start, i);
      TwiceTriangle(i);
    }
  }

  lemma StageCloses(sum: int, amount: int, start: int, i: int)
    requires amount >= 0 && 1 <= i <= start && Bounded(sum, amount, start, i)
    requires !Closer(sum, i, Med(amount, start, i))
    ensures OnTarget(sum, amount, start, i)
  {
    hide Med, Closer;
    MedBounds(amount, start, i);
    CloserIs(sum, i, Med(amount, start, i));
  }

  lemma ScheduleDone(list: seq<int>, amount: int, start: int)
    requires amount >= 0 && start >= 1 && Covers(list, 1, start) && OnTarget(Sum(list), amount, start, 1)
    requires Shared(list, amount, start, 1)
    ensures Schedule(list, amount, start)
  {
    hide Med, Sum, SumFrom, Share, Shared;
    MedBounds(amount, start, 1);
  }

  // ---------------------------------------------------------------- there is only one such list

  /** The values of at least i are those of at least i + 1 and so many times i. */
  lemma {:induction false} Multiples(list: seq<int>, i: int) returns (n: int)
    ensures SumFrom(list, i) == SumFrom(list, i + 1) + i * n
    ensures n >= 0 && (i in list ==> n >= 1)
  {
    if list == [] {
      n := 0;
    } else {
      n := Multiples(list[1..], i);
      if list[0] == i {
        assert i * (n + 1) == i * n + i;
        n := n + 1;
      }
    }
  }

  /** The shares leave no choice how often i is dealt. */
  lemma SameShare(a: seq<int>, b: seq<int>, amount: int, start: int, i: int)
    requires 1 <= i <= start && Share(a, amount, start, i) && Share(b, amount, start, i)
    requires SumFrom(a, i + 1) == SumFrom(b, i + 1) && i in a && i in b
    ensures SumFrom(a, i) == SumFrom(b, i)
  {
    hide SumFrom;
    var n := Multiples(a, i);
    var k := Multiples(b, i);
    if n < k {
      Step(i, k, n);
      Step(i, k, 1);
      assert false;
    }
    if k < n {
      Step(i, n, k);
      Step(i, n, 1);
      assert false;
    }
  }

  lemma {:induction false} SameSums(a: seq<int>, b: seq<int>, amount: int, start: int, i: int)
    requires amount >= 0 && start >= 1 && Schedule(a, amount, start) && Schedule(b, amount, start)
    requires 1 <= i <= start + 1
    ensures SumFrom(a, i) == SumFrom(b, i)
    decreases start - i
  {
    hide SumFrom, Share, Sum, Triangle, Falling;
    if i == start + 1 {
      SumOfNone(a, i);
      SumOfNone(b, i);
    } else {
      SameSums(a, b, amount, start, i + 1);
      SameShare(a, b, amount, start, i);
    }
  }

  lemma {:induction false} SameList(a: seq<int>, b: seq<int>)
    requires Falling(a) && Falling(b) && (forall x :: x in a + b ==> x >= 1)
    requires forall i :: i >= 1 ==> SumFrom(a, i) == SumFrom(b, i)
    ensures a == b
  {
    if a == [] || b == [] {
      NothingElse(a, b);
    } else {
      assert forall x :: x in a || x in b ==> x in a + b;
      assert SumFrom(a, a[0]) == SumFrom(b, a[0]) && SumFrom(a, b[0]) == SumFrom(b, b[0]) by {
        assert a[0] in a + b && b[0] in a + b;
      }
      HeadFits(a, b);
      HeadFits(b, a);
      forall i | i >= 1 ensures SumFrom(a[1..], i) == SumFrom(b[1..], i) {
        assert SumFrom(a, i) == SumFrom(b, i);
      }
      forall x | x in a[1..] + b[1..] ensures x in a + b {
      }
      SameList(a[1..], b[1..]);
    }
  }

  lemma {:induction false} FromPositive(list: seq<int>, i: int)
    requires forall x :: x in list ==> x >= 1
    ensures SumFrom(list, i) >= 0
  {
    if list != [] {
      assert list[0] in list;
      assert forall x :: x in list[1..] ==> x in list;
      FromPositive(list[1..], i);
    }
  }

  lemma NothingElse(a: seq<int>, b: seq<int>)
    requires (a == [] || b == []) && (forall x :: x in a + b ==> x >= 1) && SumFrom(a, 1) == SumFrom(b, 1)
    ensures a == b
  {
    var c := if a == [] then b else a;
    if c != [] {
      assert forall x :: x in c ==> x in a + b;
      assert c[0] in c && forall x :: x in c[1..] ==> x in c;
      FromPositive(c[1..], 1);
    }
  }

  /** A value missing at the head of b shows in the sum. */
  lemma HeadFits(a: seq<int>, b: seq<int>)
    requires a != [] && b != [] && Falling(b) && (forall x :: x in a ==> x >= 1)
    requires SumFrom(a, a[0]) == SumFrom(b, a[0])
    ensures a[0] <= b[0]
  {
    assert a[0] in a && forall x :: x in a[1..] ==> x in a;
    FromPositive(a[1..], a[0]);
    if a[0] > b[0] {
      SumOfNone(b, a[0]);
    }
  }

  /** The schedule determines the list. */
  lemma OneSchedule(a: seq<int>, b: seq<int>, amount: int, start: int)
    requires amount >= 0 && start >= 1 && Schedule(a, amount, start) && Schedule(b, amount, start)
    ensures a == b
  {
    hide SumFrom, Shared, Sum, Triangle, Falling;
    forall i | i >= 1 ensures SumFrom(a, i) == SumFrom(b, i) {
      if i <= start {
        SameSums(a, b, amount, start, i);
      } else {
        SumOfNone(a, i);
        SumOfNone(b, i);
      }
    }
    SameList(a, b);
  }
}
