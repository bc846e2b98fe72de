/** Parse after write: which documents survive, exactly. */
module NodeRoundTrip {
  import opened Bytes
  import opened NodeFormat

  const HEADER: seq<byte> := [0, 0, 0, 0]

  /** The bytes that startNode/setProps/endNode write for a chain. The type byte is escaped too. */
  function Encode(d: Doc): seq<byte> {
    match d
    case NoDoc => []
    case Item(kind, props, child, next) =>
      [NODE_START] + (EscapeByte(kind) + (Escape(props) + (Encode(child) + ([NODE_END] + Encode(next)))))
  }

  /** A file, byte for byte: two nodes side by side, the first with a child, and properties that need escaping. */
  lemma ByteForByte()
    ensures Encode(Item(1, [2, 0xFE], Item(3, [], NoDoc, NoDoc), Item(4, [0xFC], NoDoc, NoDoc)))
            == [0xFE, 1, 2, 0xFD, 0xFE, 0xFE, 3, 0xFF, 0xFF, 0xFE, 4, 0xFC, 0xFF]
  {
    hide Escape, EscapeByte;
    EscapedBytes();
    var last, child: Doc := Item(4, [0xFC], NoDoc, NoDoc), Item(3, [], NoDoc, NoDoc);
    assert Encode(last) == [0xFE, 4, 0xFC, 0xFF];
    assert Encode(child) == [0xFE, 3, 0xFF];
  }

  lemma EscapedBytes()
    ensures EscapeByte(1) == [1] && EscapeByte(3) == [3] && EscapeByte(4) == [4]
    ensures Escape([]) == [] && Escape([0xFC]) == [0xFC] && Escape([2, 0xFE]) == [2, 0xFD, 0xFE]
  {
    assert [0xFC as byte][1..] == [] && [2 as byte, 0xFE][1..] == [0xFE] && [0xFE as byte][1..] == [];
    assert Escape([0xFE]) == [0xFD, 0xFE];
  }

  // ---------------------------------------------------------------- reading a parsed tree back

  /** Every property span lies in the file and can be unescaped without leaving it. */
  predicate Spans(f: seq<byte>, t: Tree) {
    match t
    case NoTree => true
    case Node(start, size, _, child, next) =>
      CleanSpan(f, start + 2, start + 2 + size) && Spans(f, child) && Spans(f, next)
  }

  function Span(f: seq<byte>, t: Tree): seq<byte>
    requires t.Node? && Spans(f, t)
  {
    f[t.start + 2..t.start + 2 + t.size]
  }

  /** What a client sees: the type of every node, `getProps` of every node, children and siblings. */
  function View(f: seq<byte>, t: Tree): Doc
    requires Spans(f, t)
  {
    match t
    case NoTree => NoDoc
    case Node(_, _, kind, child, next) => Item(kind, Unescape(Span(f, t)), View(f, child), View(f, next))
  }

  lemma {:induction false} TilesAreSpans(f: seq<byte>, t: Tree, lo: nat, hi: nat)
    requires Tiles(f, t, lo, hi)
    ensures Spans(f, t)
    decreases t
  {
    if t.Node? {
      var close := lo + 2 + t.size + Extent(t.child);
      TilesAreSpans(f, t.child, lo + 2 + t.size, close);
      TilesAreSpans(f, t.next, close + 1, hi);
    }
  }

  // ---------------------------------------------------------------- which nodes survive

  /** Some property byte is not ESCAPE_CHAR, and the first such byte is not a bracket. */
  predicate FirstPlain(props: seq<byte>) {
    props != [] && (props[0] < ESCAPE_CHAR || (props[0] == ESCAPE_CHAR && FirstPlain(props[1..])))
  }

  /** The parser reads the type byte raw, so the escape the writer puts before a special type is
      itself taken for the type. That is harmless only for type ESCAPE_CHAR, and only when the
      second ESCAPE_CHAR pairs up with what follows. */
  predicate Survives(kind: byte, props: seq<byte>) {
    kind < ESCAPE_CHAR || (kind == ESCAPE_CHAR && FirstPlain(props))
  }

  predicate Faithful(d: Doc) {
    d.Item? ==> Survives(d.kind, d.props) && Faithful(d.child) && Faithful(d.next)
  }

  /** The byte the parser takes for the type of a node. */
  function TypeByte(kind: byte): byte {
    EscapeByte(kind)[0]
  }

  /** What the parser takes for the property span of a node. */
  function RawSpan(kind: byte, props: seq<byte>): seq<byte> {
    (if Special(kind) then [kind] else []) + Escape(props)
  }

  lemma PairUnescaped(b: byte, rest: seq<byte>)
    requires Clean(rest)
    ensures Clean([ESCAPE_CHAR, b] + rest) && Unescape([ESCAPE_CHAR, b] + rest) == [b] + Unescape(rest)
  {
    assert ([ESCAPE_CHAR, b] + rest)[2..] == rest;
  }

  lemma {:induction false} EscapedTail(props: seq<byte>)
    requires FirstPlain(props)
    ensures Clean([ESCAPE_CHAR] + Escape(props)) && Unescape([ESCAPE_CHAR] + Escape(props)) == props
  {
    hide Clean, Unescape;
    assert props == [props[0]] + props[1..];
    if props[0] < ESCAPE_CHAR {
      EscapeRoundTrip(props[1..]);
      PairUnescaped(props[0], Escape(props[1..]));
      assert [ESCAPE_CHAR] + Escape(props) == [ESCAPE_CHAR, props[0]] + Escape(props[1..]);
    } else {
      EscapedTail(props[1..]);
      PairUnescaped(ESCAPE_CHAR, [ESCAPE_CHAR] + Escape(props[1..]));
      assert [ESCAPE_CHAR] + Escape(props) == [ESCAPE_CHAR, ESCAPE_CHAR] + ([ESCAPE_CHAR] + Escape(props[1..]));
    }
  }

  lemma SurvivorReads(kind: byte, props: seq<byte>)
    requires Survives(kind, props)
    ensures TypeByte(kind) == kind
    ensures Clean(RawSpan(kind, props)) && Unescape(RawSpan(kind, props)) == props
  {
    if kind == ESCAPE_CHAR {
      EscapedTail(props);
    } else {
      EscapeRoundTrip(props);
      assert RawSpan(kind, props) == Escape(props);
    }
  }

  /** Conversely: if some clean prefix of the bytes after an ESCAPE_CHAR type reads back as
      the properties, the properties start as FirstPlain demands. */
  lemma {:induction false} EscapedTailOnlyIf(s: seq<byte>, n: nat, props: seq<byte>, rest: seq<byte>)
    requires s == [ESCAPE_CHAR] + Escape(props) + rest
    requires rest != [] && Bracket(rest[0])
    requires n < |s| && Bracket(s[n]) && Clean(s[..n]) && Unescape(s[..n]) == props
    ensures FirstPlain(props)
    decreases |props|
  {
    var head := s[..n];
    assert n > 0 && head[0] == ESCAPE_CHAR;
    assert Unescape(head)[0] == head[1] == s[1];
    if props[0] == ESCAPE_CHAR {
      assert s[2..] == [ESCAPE_CHAR] + Escape(props[1..]) + rest;
      assert head[2..] == s[2..][..n - 2];
      assert Unescape(head) == [head[1]] + Unescape(head[2..]);
      EscapedTailOnlyIf(s[2..], n - 2, props[1..], rest);
    }
  }

  // ---------------------------------------------------------------- writing then parsing

  /** Number of bytes a chain takes in the file. */
  function Length(d: Doc): nat {
    match d
    case NoDoc => 0
    case Item(kind, props, child, next) => 3 + |RawSpan(kind, props)| + Length(child) + Length(next)
  }

  /** Where the property span and then the whole first node of a chain written at lo stop. */
  function BodyEnd(d: Doc, lo: nat): (r: nat)
    requires d.Item?
    ensures r >= lo + 2
  {
    lo + 2 + |RawSpan(d.kind, d.props)|
  }

  function CloseAt(d: Doc, lo: nat): (r: nat)
    requires d.Item?
    ensures r >= lo + 2
  {
    BodyEnd(d, lo) + Length(d.child)
  }

  /** f[lo..hi] holds an encoded chain, part by part. */
  predicate Written(f: seq<byte>, d: Doc, lo: nat, hi: nat) {
    if d.NoDoc? then lo == hi <= |f|
    else
      && CloseAt(d, lo) < hi <= |f|
      && f[lo] == NODE_START && f[lo + 1] == TypeByte(d.kind)
      && At(f, lo + 2, RawSpan(d.kind, d.props))
      && Written(f, d.child, BodyEnd(d, lo), CloseAt(d, lo))
      && f[CloseAt(d, lo)] == NODE_END
      && Written(f, d.next, CloseAt(d, lo) + 1, hi)
  }

  lemma AtHead(f: seq<byte>, p: nat, kind: byte, props: seq<byte>, rest: seq<byte>)
    requires At(f, p, [NODE_START] + (EscapeByte(kind) + (Escape(props) + rest)))
    ensures p + 1 < |f| && f[p] == NODE_START && f[p + 1] == TypeByte(kind)
    ensures At(f, p + 2, RawSpan(kind, props)) && At(f, p + 2 + |RawSpan(kind, props)|, rest)
  {
    hide Escape, At;
    var raw := RawSpan(kind, props);
    AtConcat(f, p, [NODE_START], EscapeByte(kind) + (Escape(props) + rest));
    Regroup(kind, Escape(props), rest);
    AtConcat(f, p + 1, [TypeByte(kind)], raw + rest);
    AtConcat(f, p + 2, raw, rest);
    AtByte(f, p, NODE_START);
    AtByte(f, p + 1, TypeByte(kind));
  }

  lemma AtBound(f: seq<byte>, p: nat, block: seq<byte>)
    requires At(f, p, block)
    ensures p <= |f|
  {
  }

  lemma Regroup(kind: byte, body: seq<byte>, rest: seq<byte>)
    ensures EscapeByte(kind) + (body + rest)
            == [TypeByte(kind)] + (((if Special(kind) then [kind] else []) + body) + rest)
  {
  }

  lemma {:induction false} EncodeLength(d: Doc)
    ensures |Encode(d)| == Length(d)
  {
    if d.Item? {
      EncodeLength(d.child);
      EncodeLength(d.next);
    }
  }

  lemma {:induction false} EncodeIsWritten(f: seq<byte>, d: Doc, lo: nat)
    requires At(f, lo, Encode(d))
    ensures Written(f, d, lo, lo + Length(d))
    decreases d
  {
    hide RawSpan, TypeByte, At, Encode, Length, BodyEnd, CloseAt;
    AtBound(f, lo, Encode(d));
    Lengths(d, lo);
    if d.Item? {
      EncodedParts(f, d, lo);
      EncodeIsWritten(f, d.child, BodyEnd(d, lo));
      EncodeIsWritten(f, d.next, CloseAt(d, lo) + 1);
      WrittenStarts(f, d.next, CloseAt(d, lo) + 1, lo + Length(d));
    }
  }

  lemma Lengths(d: Doc, lo: nat)
    ensures d.NoDoc? ==> Length(d) == 0
    ensures d.Item? ==> CloseAt(d, lo) == BodyEnd(d, lo) + Length(d.child)
    ensures d.Item? ==> lo + Length(d) == CloseAt(d, lo) + 1 + Length(d.next)
  {
  }

  lemma EncodedParts(f: seq<byte>, d: Doc, lo: nat)
    requires d.Item? && At(f, lo, Encode(d))
    ensures lo + 1 < |f| && f[lo] == NODE_START && f[lo + 1] == TypeByte(d.kind)
    ensures At(f, lo + 2, RawSpan(d.kind, d.props))
    ensures At(f, BodyEnd(d, lo), Encode(d.child)) && CloseAt(d, lo) < |f| && f[CloseAt(d, lo)] == NODE_END
    ensures At(f, CloseAt(d, lo) + 1, Encode(d.next))
  {
    hide RawSpan, EscapeByte, TypeByte, Escape, At, Length;
    AtHead(f, lo, d.kind, d.props, Encode(d.child) + ([NODE_END] + Encode(d.next)));
    AtTail(f, BodyEnd(d, lo), Encode(d.child), Encode(d.next));
    EncodeLength(d.child);
  }

  lemma AtTail(f: seq<byte>, p: nat, a: seq<byte>, b: seq<byte>)
    requires At(f, p, a + ([NODE_END] + b))
    ensures At(f, p, a) && p + |a| < |f| && f[p + |a|] == NODE_END && At(f, p + |a| + 1, b)
  {
    AtConcat(f, p, a, [NODE_END] + b);
    AtConcat(f, p + |a|, [NODE_END], b);
    AtByte(f, p + |a|, NODE_END);
  }

  lemma {:induction false} WrittenStarts(f: seq<byte>, d: Doc, lo: nat, hi: nat)
    requires Written(f, d, lo, hi)
    ensures hi == lo + Length(d) <= |f|
    ensures d.Item? ==> lo < hi && f[lo] == NODE_START
    decreases d
  {
    if d.Item? {
      WrittenStarts(f, d.next, CloseAt(d, lo) + 1, hi);
    }
  }

  /** The tree the parser ought to build for a chain written at lo. */
  function Layout(d: Doc, lo: nat): (t: Tree)
    ensures t.Node? <==> d.Item?
    ensures Extent(t) == Length(d)
  {
    if d.NoDoc? then NoTree
    else Node(lo, |RawSpan(d.kind, d.props)|, d.kind, Layout(d.child, BodyEnd(d, lo)), Layout(d.next, CloseAt(d, lo) + 1))
  }

  lemma AtClean(f: seq<byte>, p: nat, raw: seq<byte>)
    requires At(f, p, raw) && Clean(raw)
    ensures CleanSpan(f, p, p + |raw|)
  {
  }

  lemma AtReads(f: seq<byte>, p: nat, raw: seq<byte>)
    requires At(f, p, raw) && Clean(raw)
    ensures CleanSpan(f, p, p + |raw|) && f[p..p + |raw|] == raw
  {
  }

  lemma {:induction false} LayoutTiles(f: seq<byte>, d: Doc, lo: nat, hi: nat)
    requires Faithful(d) && Written(f, d, lo, hi)
    ensures Tiles(f, Layout(d, lo), lo, hi)
    decreases d
  {
    hide Extent, Clean, Unescape, TypeByte, RawSpan, Survives, At, CleanSpan, Length;
    Lengths(d, lo);
    if d.Item? {
      SurvivorReads(d.kind, d.props);
      AtClean(f, lo + 2, RawSpan(d.kind, d.props));
      LayoutTiles(f, d.child, BodyEnd(d, lo), CloseAt(d, lo));
      LayoutTiles(f, d.next, CloseAt(d, lo) + 1, hi);
    }
  }

  lemma {:induction false} LayoutViews(f: seq<byte>, d: Doc, lo: nat, hi: nat)
    requires Faithful(d) && Written(f, d, lo, hi)
    ensures Spans(f, Layout(d, lo)) && View(f, Layout(d, lo)) == d
    decreases d
  {
    hide Extent, Clean, Unescape, TypeByte, RawSpan, Survives, At, CleanSpan;
    if d.Item? {
      SurvivorReads(d.kind, d.props);
      AtReads(f, lo + 2, RawSpan(d.kind, d.props));
      LayoutViews(f, d.child, BodyEnd(d, lo), CloseAt(d, lo));
      LayoutViews(f, d.next, CloseAt(d, lo) + 1, hi);
    }
  }

  /** A faithful chain followed by end of file or by NODE_END parses to its layout. */
  lemma FaithfulParses(f: seq<byte>, d: Doc, lo: nat, hi: nat)
    requires d.Item? && Faithful(d) && Written(f, d, lo, hi)
    requires hi == |f| || (hi < |f| && f[hi] == NODE_END)
    ensures Parse(f, lo + 1) == Done(Layout(d, lo), hi)
    ensures Spans(f, Layout(d, lo)) && View(f, Layout(d, lo)) == d
  {
    LayoutTiles(f, d, lo, hi);
    LayoutViews(f, d, lo, hi);
    ParseIsComplete(f, Layout(d, lo), lo, hi);
  }

  lemma FaithfulEnds(f: seq<byte>, d: Doc, lo: nat, hi: nat)
    requires d.Item? && Faithful(d) && Written(f, d, lo, hi)
    requires hi == |f| || (hi < |f| && f[hi] == NODE_END)
    ensures Parse(f, lo + 1).Done? && Parse(f, lo + 1).pos == hi
  {
    FaithfulParses(f, d, lo, hi);
  }

  predicate Returns(f: seq<byte>, r: Parsed, d: Doc) {
    r.Done? && Spans(f, r.tree) && View(f, r.tree) == d
  }

  lemma ParsedFirst(f: seq<byte>, p: nat)
    requires p >= 1 && Parse(f, p).Done?
    ensures p < |f|
    ensures var q, t := Scan(f, p + 1), Parse(f, p).tree; q < |f| && t == Node(p - 1, q - p - 1, f[p], t.child, t.next)
  {
    hide Parse, Scan;
    ParseParts(f, p);
  }

  /** What it means for the first node that a parse reads back as d... */
  lemma ReturnsFirst(f: seq<byte>, p: nat, d: Doc)
    requires p >= 1 && d.Item? && Returns(f, Parse(f, p), d)
    ensures p < |f| && d.kind == f[p]
    ensures var q := Scan(f, p + 1);
            q < |f| && CleanSpan(f, p + 1, q) && Unescape(f[p + 1..q]) == d.props
  {
    hide Extent, Clean, Unescape, CleanSpan, Parse, Scan;
    ParsedFirst(f, p);
  }

  /** ...and for its children and siblings. */
  lemma ReturnsRest(f: seq<byte>, p: nat, d: Doc)
    requires p >= 1 && d.Item? && Returns(f, Parse(f, p), d)
    ensures p < |f|
    ensures var q := Scan(f, p + 1);
            && Closes(f, q)
            && (f[q] == NODE_START ==> Returns(f, Parse(f, q + 1), d.child))
            && var e := ClosingAt(f, q) + 1;
            && e <= |f|
            && (e < |f| && f[e] == NODE_START ==> Returns(f, Parse(f, e + 1), d.next))
  {
    hide Extent, Clean, Unescape, CleanSpan, Parse;
    ParseParts(f, p);
  }

  /** The first node of a parse that reads back as written was a survivor. */
  lemma FirstSurvives(f: seq<byte>, d: Doc, lo: nat, hi: nat)
    requires d.Item? && Written(f, d, lo, hi) && Returns(f, Parse(f, lo + 1), d)
    ensures Survives(d.kind, d.props)
  {
    hide Extent, FirstPlain, Escape, Clean, Unescape, CleanSpan, Parse, Returns;
    ReturnsFirst(f, lo + 1, d);
    if d.kind == ESCAPE_CHAR {
      SpanShows(f, d, lo, hi, Scan(f, lo + 2) - lo - 2);
    }
  }

  /** Behind a written first node's properties a bracket stands. */
  lemma SpanEnds(f: seq<byte>, d: Doc, lo: nat, hi: nat)
    requires d.Item? && Written(f, d, lo, hi)
    ensures var q := lo + 2 + |RawSpan(d.kind, d.props)|; At(f, lo + 2, RawSpan(d.kind, d.props)) && q < |f| && Bracket(f[q])
  {
    hide Clean, Unescape, Escape, Extent, RawSpan, At;
    WrittenStarts(f, d.child, BodyEnd(d, lo), CloseAt(d, lo));
  }

  lemma RestAfter(f: seq<byte>, p: nat, block: seq<byte>)
    requires At(f, p, block) && p + |block| < |f|
    ensures f[p..] == block + f[p + |block|..]
  {
    assert f[p..p + |block|] + f[p + |block|..] == f[p..];
  }

  lemma SpanShows(f: seq<byte>, d: Doc, lo: nat, hi: nat, size: nat)
    requires d.Item? && d.kind == ESCAPE_CHAR && Written(f, d, lo, hi)
    requires lo + 2 + size < |f| && Bracket(f[lo + 2 + size])
    requires CleanSpan(f, lo + 2, lo + 2 + size) && Unescape(f[lo + 2..lo + 2 + size]) == d.props
    ensures FirstPlain(d.props)
  {
    hide Written, Clean, Unescape, Escape, Extent, FirstPlain, At;
    SpanEnds(f, d, lo, hi);
    var raw := RawSpan(d.kind, d.props);
    RestAfter(f, lo + 2, raw);
    assert f[lo + 2..][..size] == f[lo + 2..lo + 2 + size];
    EscapedTailOnlyIf(f[lo + 2..], size, d.props, f[lo + 2 + |raw|..]);
  }

  /** The parser finds the parts of a surviving first node where they were written. */
  lemma FirstNodeFound(f: seq<byte>, d: Doc, lo: nat, hi: nat)
    requires d.Item? && Written(f, d, lo, hi) && Survives(d.kind, d.props)
    ensures lo + 2 <= BodyEnd(d, lo) <= CloseAt(d, lo) < hi <= |f| && Scan(f, lo + 2) == BodyEnd(d, lo)
    ensures Written(f, d.child, BodyEnd(d, lo), CloseAt(d, lo)) && Written(f, d.next, CloseAt(d, lo) + 1, hi)
    ensures f[CloseAt(d, lo)] == NODE_END
    ensures if d.child.Item? then f[BodyEnd(d, lo)] == NODE_START else BodyEnd(d, lo) == CloseAt(d, lo)
    ensures if d.next.Item? then CloseAt(d, lo) + 1 < |f| && f[CloseAt(d, lo) + 1] == NODE_START else CloseAt(d, lo) + 1 == hi
  {
    hide Clean, Unescape, TypeByte, RawSpan, Survives, At, CleanSpan, Length;
    Lengths(d, lo);
    SurvivorReads(d.kind, d.props);
    AtClean(f, lo + 2, RawSpan(d.kind, d.props));
    WrittenStarts(f, d.child, BodyEnd(d, lo), CloseAt(d, lo));
    WrittenStarts(f, d.next, CloseAt(d, lo) + 1, hi);
    CleanIsScanned(f, lo + 2, BodyEnd(d, lo));
  }

  lemma {:induction false} OnlyFaithfulReturns(f: seq<byte>, d: Doc, lo: nat, hi: nat)
    requires d.Item? && Written(f, d, lo, hi) && Returns(f, Parse(f, lo + 1), d)
    requires hi == |f| || (hi < |f| && f[hi] == NODE_END)
    ensures Faithful(d)
    decreases d
  {
    hide Written, BodyEnd, CloseAt, Survives, Parse, Returns;
    FirstSurvives(f, d, lo, hi);
    FirstNodeFound(f, d, lo, hi);
    ReturnsRest(f, lo + 1, d);
    if d.child.Item? {
      OnlyFaithfulReturns(f, d.child, BodyEnd(d, lo), CloseAt(d, lo));
      FaithfulEnds(f, d.child, BodyEnd(d, lo), CloseAt(d, lo));
    }
    if d.next.Item? {
      OnlyFaithfulReturns(f, d.next, CloseAt(d, lo) + 1, hi);
    }
  }

  // ---------------------------------------------------------------- the file as a whole

  function FileOf(d: Doc): seq<byte> {
    HEADER + Encode(d)
  }

  datatype OpenError = Eof | InvalidVersion | NoRoot | BadTree

  datatype Opened = Error(error: OpenError) | Opened(root: Tree)

  /** `openFile` for reading, on the bytes of the file. */
  function Open(f: seq<byte>): (r: Opened)
    ensures r.Opened? ==> |f| > 4 && f[..4] == HEADER && Parse(f, 5).Done? && r.root == Parse(f, 5).tree && Spans(f, r.root)
  {
    if |f| < 4 then Error(Eof)
    else if f[..4] != HEADER then Error(InvalidVersion)
    else if |f| == 4 || f[4] != NODE_START then Error(NoRoot)
    else
      match Parse(f, 5)
      case Fail => Error(BadTree)
      case Done(t, e) =>
        ParseIsSound(f, 5);
        TilesAreSpans(f, t, 4, e);
        Opened(t)
  }

  predicate ReadsBack(d: Doc) {
    var r := Open(FileOf(d));
    r.Opened? && View(FileOf(d), r.root) == d
  }

  /** The round trip holds exactly for the documents whose nodes all survive. */
  lemma RoundTrip(d: Doc)
    requires d.Item?
    ensures ReadsBack(d) <==> Faithful(d)
    ensures Faithful(d) ==> Open(FileOf(d)) == Opened(Layout(d, 4))
  {
    var f := FileOf(d);
    FileHoldsDoc(d);
    if Faithful(d) {
      FaithfulParses(f, d, 4, |f|);
    }
    if ReadsBack(d) {
      OnlyFaithfulReturns(f, d, 4, |f|);
    }
  }

  lemma FileHoldsDoc(d: Doc)
    ensures |FileOf(d)| == 4 + Length(d) && FileOf(d)[..4] == HEADER
    ensures Written(FileOf(d), d, 4, |FileOf(d)|)
    ensures d.Item? ==> FileOf(d)[4] == NODE_START
  {
    hide Length, Written, Encode, At;
    EncodeLength(d);
    HeadAndBody(HEADER, Encode(d));
    EncodeIsWritten(FileOf(d), d, 4);
    WrittenStarts(FileOf(d), d, 4, |FileOf(d)|);
  }

  lemma HeadAndBody(head: seq<byte>, body: seq<byte>)
    ensures (head + body)[..|head|] == head && At(head + body, |head|, body)
  {
  }

  /** In particular every document whose types stay below the special bytes comes back. */
  predicate PlainTypes(d: Doc) {
    d.Item? ==> d.kind < ESCAPE_CHAR && PlainTypes(d.child) && PlainTypes(d.next)
  }

  lemma {:induction false} PlainTypesReadBack(d: Doc)
    requires d.Item? && PlainTypes(d)
    ensures ReadsBack(d)
  {
    PlainTypesAreFaithful(d);
    RoundTrip(d);
  }

  lemma {:induction false} PlainTypesAreFaithful(d: Doc)
    requires PlainTypes(d)
    ensures Faithful(d)
  {
    if d.Item? {
      PlainTypesAreFaithful(d.child);
      PlainTypesAreFaithful(d.next);
    }
  }

  /** A node of type NODE_START does not: the parser sees type ESCAPE_CHAR and an opening child. */
  lemma SpecialTypeIsLost()
    ensures !ReadsBack(Item(NODE_START, [], NoDoc, NoDoc))
    ensures ReadsBack(Item(ESCAPE_CHAR, [1], NoDoc, NoDoc))
    ensures !ReadsBack(Item(ESCAPE_CHAR, [], NoDoc, NoDoc))
  {
    RoundTrip(Item(NODE_START, [], NoDoc, NoDoc));
    RoundTrip(Item(ESCAPE_CHAR, [1], NoDoc, NoDoc));
    RoundTrip(Item(ESCAPE_CHAR, [], NoDoc, NoDoc));
  }
}
