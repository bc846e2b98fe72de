/** Bytes of a node file, the escape code over them, and the bit arithmetic the block cache uses. */
module Bytes {

  type byte = x: int | 0 <= x < 256

  const ESCAPE_CHAR: byte := 0xFD
  const NODE_START: byte := 0xFE
  const NODE_END: byte := 0xFF

  /** The three bytes that `writeData` prefixes with ESCAPE_CHAR are the three largest. */
  predicate Special(b: byte) {
    b >= ESCAPE_CHAR
  }

  predicate Bracket(b: byte) {
    b >= NODE_START
  }

  function EscapeByte(b: byte): seq<byte> {
    if Special(b) then [ESCAPE_CHAR, b] else [b]
  }

  function Escape(s: seq<byte>): seq<byte> {
    if s == [] then [] else EscapeByte(s[0]) + Escape(s[1..])
  }

  /** No unescaped bracket and no dangling escape: what may stand between two brackets. */
  predicate Clean(s: seq<byte>) {
    if s == [] then true
    else if s[0] == ESCAPE_CHAR then |s| >= 2 && Clean(s[2..])
    else !Bracket(s[0]) && Clean(s[1..])
  }

  function Unescape(s: seq<byte>): (r: seq<byte>)
    requires Clean(s)
    ensures |r| <= |s|
  {
    if s == [] then []
    else if s[0] == ESCAPE_CHAR then [s[1]] + Unescape(s[2..])
    else [s[0]] + Unescape(s[1..])
  }

  lemma {:induction false} EscapeRoundTrip(s: seq<byte>)
    ensures Clean(Escape(s)) && Unescape(Escape(s)) == s
  {
    if s != [] {
      EscapeRoundTrip(s[1..]);
      var e := Escape(s);
      assert e[|EscapeByte(s[0])|..] == Escape(s[1..]);
      assert s == [s[0]] + s[1..];
    }
  }

  /** The writer escapes what the reader could not take bare, and nothing else. */
  lemma EscapesWhatItMust(b: byte)
    ensures if Clean([b]) then Escape([b]) == [b] else Escape([b]) == [0xFD, b]
  {
    assert [b][1..] == [] && Clean([b]) == !Special(b);
    assert Escape([b]) == EscapeByte(b) + [] == EscapeByte(b);
  }

  lemma {:induction false} EscapeConcat(s: seq<byte>, t: seq<byte>)
    ensures Escape(s + t) == Escape(s) + Escape(t)
  {
    if s == [] {
      assert s + t == t;
    } else {
      assert (s + t)[1..] == s[1..] + t;
      EscapeConcat(s[1..], t);
    }
  }

  predicate CleanSpan(f: seq<byte>, lo: nat, hi: nat) {
    lo <= hi <= |f| && Clean(f[lo..hi])
  }

  /** f holds `block` at p. */
  predicate At(f: seq<byte>, p: nat, block: seq<byte>) {
    p + |block| <= |f| && f[p..p + |block|] == block
  }

  lemma AtConcat(s: seq<byte>, p: nat, a: seq<byte>, b: seq<byte>)
    ensures At(s, p, a + b) <==> At(s, p, a) && At(s, p + |a|, b)
  {
    if At(s, p, a + b) {
      assert s[p..p + |a|] == s[p..p + |a + b|][..|a|] == a;
      assert s[p + |a|..p + |a| + |b|] == s[p..p + |a + b|][|a|..] == b;
    }
    if At(s, p, a) && At(s, p + |a|, b) {
      assert s[p..p + |a + b|] == s[p..p + |a|] + s[p + |a|..p + |a| + |b|];
    }
  }

  lemma AtByte(s: seq<byte>, p: nat, b: byte)
    ensures At(s, p, [b]) <==> p < |s| && s[p] == b
  {
    if At(s, p, [b]) {
      assert s[p..p + 1][0] == b;
    }
  }

  /** Index of the first unescaped bracket at or after p, or |f| when the file ends first. */
  function Scan(f: seq<byte>, p: nat): (q: nat)
    requires p <= |f|
    ensures p <= q <= |f|
    ensures q < |f| ==> Bracket(f[q])
    decreases |f| - p
  {
    if p == |f| then |f|
    else if Bracket(f[p]) then p
    else if f[p] == ESCAPE_CHAR then (if p + 1 == |f| then |f| else Scan(f, p + 2))
    else Scan(f, p + 1)
  }

  lemma {:induction false} ScanIsClean(f: seq<byte>, p: nat)
    requires p <= |f| && Scan(f, p) < |f|
    ensures CleanSpan(f, p, Scan(f, p))
    decreases |f| - p
  {
    var q := Scan(f, p);
    var s := f[p..q];
    if Bracket(f[p]) {
    } else if f[p] == ESCAPE_CHAR {
      ScanIsClean(f, p + 2);
      assert s[2..] == f[p + 2..q];
    } else {
      ScanIsClean(f, p + 1);
      assert s[1..] == f[p + 1..q];
    }
  }

  /** Scan is the only place a clean run can stop: the span between two brackets is determined. */
  lemma {:induction false} CleanIsScanned(f: seq<byte>, p: nat, q: nat)
    requires q < |f| && Bracket(f[q]) && CleanSpan(f, p, q)
    ensures Scan(f, p) == q
    decreases q - p
  {
    var s := f[p..q];
    if p < q {
      if f[p] == ESCAPE_CHAR {
        assert s[2..] == f[p + 2..q];
        CleanIsScanned(f, p + 2, q);
      } else {
        assert s[1..] == f[p + 1..q];
        CleanIsScanned(f, p + 1, q);
      }
    }
  }

  // ---------------------------------------------------------------- bit arithmetic

  /** `a & b` on unsigned integers, bit by bit. */
  function BitAnd(a: nat, b: nat): (r: nat)
    ensures r <= a && r <= b
  {
    if a == 0 || b == 0 then 0
    else (a % 2) * (b % 2) + 2 * BitAnd(a / 2, b / 2)
  }

  /** `a & ~b`. */
  function BitClear(a: nat, b: nat): (r: nat)
    ensures a - b <= r <= a
  {
    a - BitAnd(a, b)
  }

  function Pow2(k: nat): (r: nat)
    ensures r > 0
  {
    if k == 0 then 1 else 2 * Pow2(k - 1)
  }

  /** Against an all-ones mask, `&` is the remainder. */
  lemma {:induction false} BitAndMask(a: nat, k: nat)
    ensures BitAnd(a, Pow2(k) - 1) == a % Pow2(k)
    decreases k
  {
    if k == 0 {
      assert Pow2(k) == 1;
    } else if a == 0 {
      RemainderIs(0, Pow2(k), 0, 0);
    } else {
      var h := Pow2(k - 1);
      BitAndMask(a / 2, k - 1);
      assert Pow2(k) == 2 * h;
      BitAndStep(a, h);
      HalvedRemainder(a, h);
    }
  }

  lemma BitAndStep(a: nat, h: nat)
    requires a > 0 && h > 0
    ensures BitAnd(a, 2 * h - 1) == a % 2 + 2 * BitAnd(a / 2, h - 1)
  {
    assert (2 * h - 1) / 2 == h - 1 && (2 * h - 1) % 2 == 1;
  }

  lemma HalvedRemainder(a: nat, h: nat)
    requires h > 0
    ensures a % (2 * h) == a % 2 + 2 * (a / 2 % h)
    ensures a / (2 * h) == a / 2 / h
  {
    var q := a / 2 / h;
    var r := a % 2 + 2 * (a / 2 % h);
    assert a / 2 == q * h + a / 2 % h;
    assert 2 * (q * h) == q * (2 * h);
    RemainderIs(a, 2 * h, q, r);
  }

  lemma RemainderIs(a: int, n: int, q: int, r: int)
    requires n > 0 && a == q * n + r && 0 <= r < n
    ensures a % n == r && a / n == q
  {
    var d := q - a / n;
    assert d * n == q * n - (a / n) * n;
    if d >= 1 {
      MultipleAtLeast(d, n);
      assert false;
    } else if d <= -1 {
      MultipleAtLeast(-d, n);
      assert false;
    }
  }

  lemma MultipleAtLeast(d: int, n: int)
    requires d >= 1 && n > 0
    ensures d * n >= n && (-d) * n <= -n
  {
  }
}
