/** The writer half of the node-file loader, and writing followed by reading, end to end. */
module NodeFiles {
  import opened Bytes
  import opened NodeFormat
  import opened NodeRoundTrip
  import opened FileLoader

  const MAX_PROPS: nat := 0xFFFF

  function Coded(data: seq<byte>, unescape: bool): seq<byte> {
    if unescape then Escape(data) else data
  }

  lemma CodedStep(data: seq<byte>, i: nat, unescape: bool)
    requires i < |data|
    ensures Coded(data[..i + 1], unescape) == Coded(data[..i], unescape) + (if unescape then EscapeByte(data[i]) else [data[i]])
  {
    assert data[..i + 1] == data[..i] + [data[i]];
    EscapeConcat(data[..i], [data[i]]);
    assert Escape([data[i]]) == EscapeByte(data[i]);
  }

  lemma CodedEmpty(unescape: bool)
    ensures Coded([], unescape) == []
  {
  }

  class NodeWriter {
    var out: seq<byte>

    /** Opening for writing emits version 0. */
    constructor ()
      ensures out == HEADER
    {
      out := HEADER;
    }

    method WriteData(data: seq<byte>, unescape: bool)
      modifies this
      ensures out == old(out) + Coded(data, unescape)
    {
      hide Coded;
      var i := 0;
      CodedEmpty(unescape);
      while i < |data|
        invariant i <= |data|
        invariant out == old(out) + Coded(data[..i], unescape)
      {
        var c := data[i];
        CodedStep(data, i, unescape);
        ghost var was := out;
        if unescape && Special(c) {
          out := out + [ESCAPE_CHAR];
        }
        out := out + [c];
        assert out == was + if unescape then EscapeByte(c) else [c];
        i := i + 1;
      }
      assert data[..|data|] == data;
    }

    method StartNode(kind: byte)
      modifies this
      ensures out == old(out) + ([NODE_START] + EscapeByte(kind))
    {
      WriteData([NODE_START], false);
      WriteData([kind], true);
      assert Escape([kind]) == EscapeByte(kind);
    }

    method SetProps(data: seq<byte>)
      requires |data| <= MAX_PROPS
      modifies this
      ensures out == old(out) + Escape(data)
    {
      WriteData(data, true);
    }

    method EndNode()
      modifies this
      ensures out == old(out) + [NODE_END]
    {
      WriteData([NODE_END], false);
    }
  }

  /** Properties of any length, in pieces setProps can take. */
  method WriteProps(w: NodeWriter, props: seq<byte>)
    modifies w
    ensures w.out == old(w.out) + Escape(props)
  {
    hide Escape;
    var rest := props;
    while |rest| > MAX_PROPS
      invariant w.out + Escape(rest) == old(w.out) + Escape(props)
    {
      var piece := rest[..MAX_PROPS];
      EscapeConcat(piece, rest[MAX_PROPS..]);
      assert piece + rest[MAX_PROPS..] == rest;
      w.SetProps(piece);
      rest := rest[MAX_PROPS..];
    }
    w.SetProps(rest);
  }

  /** A client that writes a chain of nodes. */
  method WriteDoc(w: NodeWriter, d: Doc)
    modifies w
    ensures w.out == old(w.out) + Encode(d)
    decreases d
  {
    if d.Item? {
      ghost var start := w.out;
      w.StartNode(d.kind);
      WriteProps(w, d.props);
      WriteDoc(w, d.child);
      w.EndNode();
      WriteDoc(w, d.next);
      Reassociate(start, [NODE_START], EscapeByte(d.kind), Escape(d.props), Encode(d.child), [NODE_END], Encode(d.next));
    }
  }

  lemma Reassociate(s: seq<byte>, a: seq<byte>, b: seq<byte>, c: seq<byte>, d: seq<byte>, e: seq<byte>, g: seq<byte>)
    ensures s + (a + b) + c + d + e + g == s + (a + (b + (c + (d + (e + g)))))
  {
    assert (s + (a + b) + c) + d + e + g == s + (a + b) + c + (d + (e + g));
    assert s + (a + b) + c == s + (a + (b + c));
  }

  /** Every property span of the tree fits the buffer after it has grown once. */
  predicate Fits(t: Tree) {
    t.Node? ==> t.size <= 2 * BUFFER_STEP && Fits(t.child) && Fits(t.next)
  }

  /** A client that walks the nodes and asks for the properties of each. */
  method ReadDoc(f: FileLoader, n: NodeStruct?, ghost t: Tree, ghost R: set<NodeStruct>) returns (d: Doc)
    requires f.Valid() && f.Ready() && f.buffer.Length >= BUFFER_STEP
    requires Shows(n, t, R) && Spans(f.file, t) && Fits(t)
    modifies f`pos, f`cacheIndex, f`cacheOffset, f`lastError, f`buffer, f.blocks, f.buffer
    ensures f.Valid() && f.Ready() && f.buffer.Length >= BUFFER_STEP
    ensures f.buffer == old(f.buffer) || fresh(f.buffer)
    ensures d == View(f.file, t)
    decreases t
  {
    if n == null {
      return NoDoc;
    }
    hide Clean, Unescape;
    var ok, size := f.GetProps(n);
    var props := f.buffer[..size];
    var child := ReadDoc(f, n.child, t.child, R);
    var next := ReadDoc(f, n.next, t.next, R);
    d := Item(n.kind, props, child, next);
  }

  /** What a save followed by a load returns, with or without the block cache: the document itself
      exactly when all its nodes survive. */
  method SaveAndLoad(d: Doc, caching: bool) returns (loaded: bool, result: Doc)
    requires d.Item?
    requires Open(FileOf(d)).Opened? ==> Fits(Open(FileOf(d)).root)
    ensures loaded && result == d <==> Faithful(d)
    ensures loaded <==> Open(FileOf(d)).Opened?
  {
    var w := new NodeWriter();
    WriteDoc(w, d);
    assert w.out == FileOf(d);
    var f := new FileLoader(w.out);
    ghost var R;
    loaded, R := f.OpenFile(caching);
    result := NoDoc;
    RoundTrip(d);
    if loaded {
      result := ReadDoc(f, f.root, Open(f.file).root, R);
    }
  }

  // ---------------------------------------------------------------- whole runs of the byte layer

  datatype Op = Byte | Range(size: nat, from: nat) | Seek(to: nat) | Tell

  datatype Seen = Nothing | OneByte(b: byte) | Bytes(s: seq<byte>) | Offset(p: int)

  /** The run stays inside the file. */
  predicate InFile(f: seq<byte>, op: Op) {
    match op
    case Byte => true
    case Range(size, from) => from + size <= |f|
    case Seek(to) => to <= |f|
    case Tell => true
  }

  /** What a plain file with its position at p shows, and where it is left. */
  function Observe(f: seq<byte>, p: nat, op: Op): (Seen, nat)
    requires p <= |f| && InFile(f, op)
  {
    match op
    case Byte => if p < |f| then (OneByte(f[p]), p + 1) else (Nothing, p)
    case Range(size, from) => (Bytes(f[from..from + size]), from + size)
    case Seek(to) => (Nothing, to)
    case Tell => (Offset(p - 1), p)
  }

  function Trace(f: seq<byte>, p: nat, ops: seq<Op>): seq<Seen>
    requires p <= |f| && forall op :: op in ops ==> InFile(f, op)
    ensures |Trace(f, p, ops)| == |ops|
    decreases |ops|
  {
    if ops == [] then []
    else
      var (seen, p') := Observe(f, p, ops[0]);
      assert p' <= |f|;
      [seen] + Trace(f, p', ops[1..])
  }

  method Perform1(l: FileLoader, op: Op) returns (seen: Seen)
    requires l.Valid() && l.Ready() && InFile(l.file, op)
    modifies l`pos, l`cacheIndex, l`cacheOffset, l`lastError, l.blocks
    ensures l.Valid() && l.Ready()
    ensures (seen, l.Position()) == Observe(l.file, old(l.Position()), op)
  {
    match op
    case Byte =>
      var ok, b := l.ReadByte();
      seen := if ok then OneByte(b) else Nothing;
    case Range(size, from) =>
      var dest := new byte[size];
      var ok := l.ReadBytes(dest, size, from);
      seen := Bytes(dest[..size]);
    case Seek(to) =>
      var ok := l.SafeSeek(to);
      seen := Nothing;
    case Tell =>
      var ok, p := l.SafeTell();
      seen := Offset(p);
  }

  /** Whatever the mode, the cache size, the blocks already cached and the run, a loader shows
      what the plain file shows. */
  method Perform(l: FileLoader, ops: seq<Op>) returns (seen: seq<Seen>)
    requires l.Valid() && l.Ready() && forall op :: op in ops ==> InFile(l.file, op)
    modifies l`pos, l`cacheIndex, l`cacheOffset, l`lastError, l.blocks
    ensures l.Valid() && l.Ready()
    ensures seen == Trace(l.file, old(l.Position()), ops)
  {
    seen := [];
    var i := 0;
    assert ops[0..] == ops;
    while i < |ops|
      invariant i <= |ops| && l.Valid() && l.Ready()
      invariant seen + Trace(l.file, l.Position(), ops[i..]) == Trace(l.file, old(l.Position()), ops)
    {
      var one := Perform1(l, ops[i]);
      assert ops[i..][1..] == ops[i + 1..];
      seen := seen + [one];
      i := i + 1;
    }
  }
}
