/** The node-file grammar: what the writer emits, what the parser accepts, and why they agree.
    Both trees below are child/next binary trees, the shape of `NodeStruct`. */
module NodeFormat {
  import opened Bytes

  /** What a client writes: a chain of sibling nodes. */
  datatype Doc = NoDoc | Item(kind: byte, props: seq<byte>, child: Doc, next: Doc)

  /** What the parser builds: offsets into the file. */
  datatype Tree = NoTree | Node(start: nat, size: nat, kind: byte, child: Tree, next: Tree)

  datatype Parsed = Fail | Done(tree: Tree, pos: nat)

  // ---------------------------------------------------------------- the parser, as a function of the file

  /** `parseNode` with the cursor at p, the type byte of a node that starts at p - 1.
      On success `pos` is the cursor it leaves behind: at end of file, or on the
      NODE_END that closes the parent (the byte it stepped back over). */
  function Parse(f: seq<byte>, p: nat): (r: Parsed)
    requires p >= 1
    ensures r.Done? ==> p < r.pos <= |f| && r.tree.Node? && (r.pos < |f| ==> f[r.pos] == NODE_END)
    decreases |f| - p
  {
    if p >= |f| then Fail
    else
      var q := Scan(f, p + 1);
      if q == |f| then Fail
      else if f[q] == NODE_START then
        match Parse(f, q + 1)
        case Fail => Fail
        case Done(child, close) => if close == |f| then Fail else ParseAfter(f, p, q, child, close)
      else ParseAfter(f, p, q, NoTree, q)
  }

  /** The rest of the loop once the node's own NODE_END has been met at `close`. */
  function ParseAfter(f: seq<byte>, p: nat, q: nat, child: Tree, close: nat): (r: Parsed)
    requires 1 <= p < q <= close < |f|
    ensures r.Done? ==> p < r.pos <= |f| && r.tree.Node? && (r.pos < |f| ==> f[r.pos] == NODE_END)
    decreases |f| - close
  {
    var e := close + 1;
    if e == |f| then Done(Node(p - 1, q - p - 1, f[p], child, NoTree), e)
    else if f[e] == NODE_START then
      match Parse(f, e + 1)
      case Fail => Fail
      case Done(next, pos) => Done(Node(p - 1, q - p - 1, f[p], child, next), pos)
    else if f[e] == NODE_END then Done(Node(p - 1, q - p - 1, f[p], child, NoTree), e)
    else Fail
  }

  /** The node whose first bracket is at q reaches its own NODE_END... */
  predicate Closes(f: seq<byte>, q: nat) {
    q < |f| && (f[q] == NODE_START ==> Parse(f, q + 1).Done? && Parse(f, q + 1).pos < |f|)
  }

  /** ...with these children in between. */
  function ChildTree(f: seq<byte>, q: nat): Tree
    requires Closes(f, q)
  {
    if f[q] == NODE_START then Parse(f, q + 1).tree else NoTree
  }

  /** Where that NODE_END is. */
  function ClosingAt(f: seq<byte>, q: nat): nat
    requires Closes(f, q)
  {
    if f[q] == NODE_START then Parse(f, q + 1).pos else q
  }

  /** What a successful parse did with the first node. */
  lemma ParseParts(f: seq<byte>, p: nat)
    requires 1 <= p && Parse(f, p).Done?
    ensures p < |f|
    ensures var q := Scan(f, p + 1); var t := Parse(f, p).tree;
            && Closes(f, q)
            && t.start == p - 1 && t.size == q - p - 1 && t.kind == f[p] && t.child == ChildTree(f, q)
            && var e := ClosingAt(f, q) + 1;
            && e <= |f|
            && (e < |f| && f[e] == NODE_START ==> Parse(f, e + 1).Done? && t.next == Parse(f, e + 1).tree)
            && (e == |f| || f[e] == NODE_END ==> t.next == NoTree)
  {
  }

  // ---------------------------------------------------------------- the grammar, declaratively

  /** Number of file bytes a tree covers. */
  function Extent(t: Tree): nat {
    match t
    case NoTree => 0
    case Node(_, size, _, child, next) => 3 + size + Extent(child) + Extent(next)
  }

  /** The tree's nodes tile f[lo..hi] without gap or overlap: every node opens with NODE_START
      and its type, its property span is clean, its children fill the room up to its NODE_END,
      and its siblings follow. */
  predicate Tiles(f: seq<byte>, t: Tree, lo: nat, hi: nat) {
    match t
    case NoTree => lo == hi
    case Node(start, size, kind, child, next) =>
      var body := lo + 2;
      var close := body + size + Extent(child);
      && start == lo && close < hi <= |f|
      && f[lo] == NODE_START && f[lo + 1] == kind
      && CleanSpan(f, body, body + size)
      && Tiles(f, child, body + size, close)
      && f[close] == NODE_END
      && Tiles(f, next, close + 1, hi)
  }

  lemma {:induction false} TilesExtent(f: seq<byte>, t: Tree, lo: nat, hi: nat)
    requires Tiles(f, t, lo, hi)
    ensures hi == lo + Extent(t)
    ensures t.Node? ==> lo + 2 < hi <= |f| && f[lo] == NODE_START && f[hi - 1] == NODE_END
    decreases t
  {
    hide CleanSpan;
    if t.Node? {
      var close := lo + 2 + t.size + Extent(t.child);
      TilesExtent(f, t.next, close + 1, hi);
    }
  }

  lemma {:induction false} ParseIsSound(f: seq<byte>, p: nat)
    requires 1 <= p <= |f| && f[p - 1] == NODE_START
    requires Parse(f, p).Done?
    ensures Tiles(f, Parse(f, p).tree, p - 1, Parse(f, p).pos)
    decreases |f| - p, 1
  {
    hide CleanSpan;
    var q := Scan(f, p + 1);
    ScanIsClean(f, p + 1);
    if f[q] == NODE_START {
      ParseIsSound(f, q + 1);
      var c := Parse(f, q + 1);
      TilesExtent(f, c.tree, q, c.pos);
      AfterIsSound(f, p, q, c.tree, c.pos);
    } else {
      AfterIsSound(f, p, q, NoTree, q);
    }
  }

  lemma {:induction false} AfterIsSound(f: seq<byte>, p: nat, q: nat, child: Tree, close: nat)
    requires 1 <= p < q <= close < |f| && f[p - 1] == NODE_START
    requires CleanSpan(f, p + 1, q) && Tiles(f, child, q, close) && f[close] == NODE_END
    requires ParseAfter(f, p, q, child, close).Done?
    ensures Tiles(f, ParseAfter(f, p, q, child, close).tree, p - 1, ParseAfter(f, p, q, child, close).pos)
    decreases |f| - close, 0
  {
    hide CleanSpan;
    TilesExtent(f, child, q, close);
    if close + 1 < |f| && f[close + 1] == NODE_START {
      ParseIsSound(f, close + 2);
    }
  }

  lemma {:induction false} ParseIsComplete(f: seq<byte>, t: Tree, lo: nat, hi: nat)
    requires t.Node? && Tiles(f, t, lo, hi)
    requires hi == |f| || f[hi] == NODE_END
    ensures Parse(f, lo + 1) == Done(t, hi)
    decreases t, 1
  {
    hide CleanSpan;
    var q := lo + 2 + t.size;
    var close := q + Extent(t.child);
    AfterIsComplete(f, t, lo, hi);
    if t.child.Node? {
      TilesExtent(f, t.child, q, close);
      ParseIsComplete(f, t.child, q, close);
    }
    CleanIsScanned(f, lo + 2, q);
  }

  lemma {:induction false} AfterIsComplete(f: seq<byte>, t: Tree, lo: nat, hi: nat)
    requires t.Node? && Tiles(f, t, lo, hi)
    requires hi == |f| || f[hi] == NODE_END
    ensures ParseAfter(f, lo + 1, lo + 2 + t.size, t.child, lo + 2 + t.size + Extent(t.child)) == Done(t, hi)
    decreases t, 0
  {
    hide CleanSpan;
    var close := lo + 2 + t.size + Extent(t.child);
    TilesExtent(f, t.next, close + 1, hi);
    if t.next.Node? {
      ParseIsComplete(f, t.next, close + 1, hi);
    }
  }

  /** On arbitrary bytes the parser accepts exactly the tilings, and returns the tiling. */
  lemma ParserMeetsGrammar(f: seq<byte>, p: nat, t: Tree, e: nat)
    requires 1 <= p <= |f| && f[p - 1] == NODE_START
    ensures Parse(f, p) == Done(t, e)
            <==> t.Node? && Tiles(f, t, p - 1, e) && (e == |f| || f[e] == NODE_END)
  {
    hide Parse, Tiles;
    if Parse(f, p) == Done(t, e) {
      ParseIsSound(f, p);
    } else if t.Node? && Tiles(f, t, p - 1, e) {
      TilesExtent(f, t, p - 1, e);
      if e == |f| || f[e] == NODE_END {
        ParseIsComplete(f, t, p - 1, e);
      }
    }
  }
}
