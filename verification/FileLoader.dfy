/** The reader half of the node-file loader: byte access directly or through a three-block
    cache, the recursive parser over it, and the in-place unescape. */
module FileLoader {
  import opened Bytes
  import opened NodeFormat
  import opened NodeRoundTrip

  const CACHE_BLOCKS := 3
  const NO_VALID_CACHE: nat := 0xFFFFFFFF
  const BUFFER_STEP: nat := 1024

  datatype LoaderError =
    | NoError | EofError | InvalidVersionError | InvalidFormat | CacheError

  /** One cached block: the bytes of the file from `base` on. */
  datatype Block = Block(loaded: bool, base: nat, data: seq<byte>)

  function Min(a: int, b: int): (r: int)
    ensures r <= a && r <= b && (r == a || r == b)
  {
    if a < b then a else b
  }

  function Max(a: int, b: int): int {
    if a < b then b else a
  }

  /** The block size `openFile` picks: between one and four 8 KiB pages, and not always a power of two. */
  function CacheSize(fileSize: nat): (m: nat)
    ensures m >= 1
  {
    BitClear(Min(32768, Max(fileSize / 20, 8192)), 0x1FFF)
  }

  lemma CacheSizes(fileSize: nat)
    ensures CacheSize(fileSize) ==
            if fileSize < 327680 then 8192 else if fileSize < 491520 then 16384 else if fileSize < 655360 then 24576 else 32768
  {
    hide BitAnd;
    var v := Min(32768, Max(fileSize / 20, 8192));
    assert Pow2(13) == 0x2000;
    BitAndMask(v, 13);
  }

  /** `pos & ~(m_cache_size - 1)`, whatever m_cache_size is. */
  function BasePos(p: nat, m: nat): (b: nat)
    requires m >= 1
    ensures b <= p < b + m
  {
    BitClear(p, m - 1)
  }

  /** For block sizes that are powers of two, the multiple of the size below. */
  lemma BasePosIs(p: nat, k: nat)
    ensures BasePos(p, Pow2(k)) == p - p % Pow2(k)
  {
    BitAndMask(p, k);
  }

  /** The bytes a block based at `base` holds. */
  function Window(f: seq<byte>, base: nat, m: nat): (w: seq<byte>)
    requires base <= |f|
    ensures |w| == Min(m, |f| - base)
    ensures forall i :: 0 <= i < |w| ==> w[i] == f[base + i]
  {
    f[base..base + Min(m, |f| - base)]
  }

  predicate Distant(b: Block, base: nat, m: nat) {
    b.base - base > 2 * m || base - b.base > 2 * m
  }

  function Apart(a: int, b: int): (r: nat)
    ensures r == a - b || r == b - a
  {
    if a < b then b - a else a - b
  }

  /** The slot a new block goes to: the first empty one, else the first distant one, else slot 0. */
  predicate IsVictim(blocks: seq<Block>, base: nat, m: nat, k: nat) {
    k < |blocks| &&
    if exists i :: 0 <= i < |blocks| && !blocks[i].loaded then
      !blocks[k].loaded && forall i :: 0 <= i < k ==> blocks[i].loaded
    else if exists i :: 0 <= i < |blocks| && Apart(blocks[i].base, base) > 2 * m then
      Apart(blocks[k].base, base) > 2 * m && forall i :: 0 <= i < k ==> Apart(blocks[i].base, base) <= 2 * m
    else k == 0
  }

  class NodeStruct {
    var start: nat
    var propsSize: nat
    var kind: byte
    var next: NodeStruct?
    var child: NodeStruct?

    constructor ()
      ensures start == 0 && propsSize == 0 && kind == 0 && next == null && child == null
    {
      start, propsSize, kind, next, child := 0, 0, 0, null, null;
    }
  }

  /** The nodes reachable from n spell out t; all of them are in R. */
  ghost predicate Shows(n: NodeStruct?, t: Tree, R: set<NodeStruct>)
    reads R
    decreases t
  {
    match t
    case NoTree => n == null
    case Node(start, size, kind, child, next) =>
      && n != null && n in R
      && n.start == start && n.propsSize == size && n.kind == kind
      && Shows(n.child, child, R) && Shows(n.next, next, R)
  }

  class FileLoader {
    const file: seq<byte>
    var pos: nat                  // position of the underlying stream
    var useCache: bool
    var cacheSize: nat
    var cacheIndex: nat
    var cacheOffset: nat
    const blocks: array<Block>
    var buffer: array<byte>       // m_buffer, whose size is its length
    var lastError: LoaderError
    var root: NodeStruct?

    ghost predicate BlocksOk()
      reads this, blocks
    {
      && blocks.Length == CACHE_BLOCKS && cacheSize >= 1
      && forall i :: 0 <= i < CACHE_BLOCKS && blocks[i].loaded ==>
           blocks[i].base <= |file| && blocks[i].data == Window(file, blocks[i].base, cacheSize)
    }

    /** A cached loader has a current block once something has been sought. */
    ghost predicate Ready()
      reads this
    {
      useCache ==> cacheIndex < CACHE_BLOCKS
    }

    ghost predicate Valid()
      reads this, blocks
    {
      if useCache then
        && BlocksOk()
        && (Ready() ==> blocks[cacheIndex].loaded && cacheOffset <= |blocks[cacheIndex].data|)
        && (!Ready() ==> cacheIndex == NO_VALID_CACHE)
      else pos <= |file|
    }

    /** Nothing has been read and nothing is cached. */
    ghost predicate Unopened()
      reads this, blocks
    {
      && !useCache && cacheIndex == NO_VALID_CACHE && blocks.Length == CACHE_BLOCKS
      && forall i :: 0 <= i < CACHE_BLOCKS ==> !blocks[i].loaded
    }

    /** Where the next byte comes from, in either mode. */
    ghost function Position(): (p: nat)
      reads this, blocks
      requires Valid() && Ready()
      ensures p <= |file|
    {
      if useCache then blocks[cacheIndex].base + cacheOffset else pos
    }

    method LoadCacheBlock(p: nat) returns (k: nat)
      requires useCache && BlocksOk() && p <= |file|
      modifies blocks, `lastError
      ensures BlocksOk()
      ensures IsVictim(old(blocks[..]), BasePos(p, cacheSize), cacheSize, k)
      ensures k < CACHE_BLOCKS
      ensures blocks[..] == old(blocks[..])[k := Block(true, BasePos(p, cacheSize), Window(file, BasePos(p, cacheSize), cacheSize))]
    {
      hide Window, BasePos;
      var base := BasePos(p, cacheSize);
      k := 0;
      while k < CACHE_BLOCKS && blocks[k].loaded
        invariant k <= CACHE_BLOCKS
        invariant forall i :: 0 <= i < k ==> blocks[i].loaded
      {
        k := k + 1;
      }
      if k == CACHE_BLOCKS {
        k := 0;
        while k < CACHE_BLOCKS && !Distant(blocks[k], base, cacheSize)
          invariant k <= CACHE_BLOCKS
          invariant forall i :: 0 <= i < k ==> !Distant(blocks[i], base, cacheSize)
        {
          k := k + 1;
        }
        if k == CACHE_BLOCKS {
          k := 0;
        }
      }
      blocks[k] := Block(true, base, Window(file, base, cacheSize));
    }

    method GetCacheBlock(p: nat) returns (k: nat)
      requires useCache && BlocksOk() && p <= |file|
      modifies blocks, `lastError
      ensures BlocksOk() && k < CACHE_BLOCKS
      ensures blocks[k].loaded && blocks[k].base == BasePos(p, cacheSize)
      ensures p - blocks[k].base <= |blocks[k].data|
    {
      var base := BasePos(p, cacheSize);
      k := 0;
      while k < CACHE_BLOCKS && !(blocks[k].loaded && blocks[k].base == base)
        invariant k <= CACHE_BLOCKS
      {
        k := k + 1;
      }
      if k == CACHE_BLOCKS {
        k := LoadCacheBlock(p);
      }
    }

    /** One byte, the same in both modes: fails exactly at end of file. */
    method ReadByte() returns (ok: bool, value: byte)
      requires Valid()
      modifies `pos, `cacheIndex, `cacheOffset, `lastError, blocks
      ensures Valid()
      ensures !old(Ready()) ==> !ok && lastError == CacheError
      ensures old(Ready()) ==>
        && Ready()
        && ok == (old(Position()) < |file|)
        && (ok ==> value == file[old(Position())])
        && Position() == old(Position()) + (if ok then 1 else 0)
    {
      hide Window, BasePos, CacheSize;
      value := 0;
      if useCache {
        if cacheIndex == NO_VALID_CACHE {
          lastError := CacheError;
          return false, 0;
        }
        if cacheOffset >= |blocks[cacheIndex].data| {
          var p := cacheOffset + blocks[cacheIndex].base;
          cacheIndex := GetCacheBlock(p);
          cacheOffset := p - blocks[cacheIndex].base;
          if cacheOffset >= |blocks[cacheIndex].data| {
            return false, 0;
          }
        }
        value := blocks[cacheIndex].data[cacheOffset];
        cacheOffset := cacheOffset + 1;
        return true, value;
      }
      if pos < |file| {
        value := file[pos];
        pos := pos + 1;
        return true, value;
      }
      lastError := EofError;
      return false, 0;
    }

    method SafeSeek(p: nat) returns (ok: bool)
      requires Valid() && p <= |file|
      modifies `pos, `cacheIndex, `cacheOffset, `lastError, blocks
      ensures Valid() && Ready() && ok && Position() == p
    {
      if useCache {
        cacheIndex := GetCacheBlock(p);
        cacheOffset := p - blocks[cacheIndex].base;
      } else {
        pos := p;
      }
      ok := true;
    }

    /** Reports the offset of the byte read last. */
    method SafeTell() returns (ok: bool, p: int)
      requires Valid()
      modifies `lastError
      ensures Valid() && ok == Ready() == old(Ready()) && (ok ==> Position() == old(Position()) && p == Position() - 1)
      ensures !ok ==> lastError == CacheError
    {
      if useCache {
        if cacheIndex == NO_VALID_CACHE {
          lastError := CacheError;
          return false, 0;
        }
        return true, blocks[cacheIndex].base + cacheOffset - 1;
      }
      return true, pos - 1;
    }

    method SetError(error: LoaderError)
      requires Valid()
      modifies `lastError
      ensures Valid() && Ready() == old(Ready()) && lastError == error
      ensures Ready() ==> Position() == old(Position())
    {
      lastError := error;
    }

    /** A range of bytes, the same in both modes. */
    method ReadBytes(dest: array<byte>, size: nat, p: nat) returns (ok: bool)
      requires Valid() && size <= dest.Length && dest as object != blocks
      requires useCache ==> p + size <= |file|
      modifies `pos, `cacheIndex, `cacheOffset, `lastError, blocks, dest
      ensures Valid() && (old(Ready()) ==> Ready())
      ensures ok == (p + size <= |file|)
      ensures ok ==> dest[..size] == file[p..p + size] && Ready() && Position() == p + size
      ensures dest[size..] == old(dest[size..])
    {
      hide Window, BasePos, CacheSize;
      if useCache {
        var remain, done, at := size, 0, p;
        var first := true;
        while first || remain > 0
          invariant 0 <= done && 0 <= remain && done + remain == size && at == p + done
          invariant useCache && BlocksOk()
          invariant !first ==> Valid() && Ready() && Position() == at
          invariant dest[..done] == file[p..at]
          invariant dest[size..] == old(dest[size..])
          decreases first, remain
        {
          first := false;
          cacheIndex := GetCacheBlock(at);
          cacheOffset := at - blocks[cacheIndex].base;
          var reading := Min(remain, |blocks[cacheIndex].data| - cacheOffset);
          remain := remain - reading;
          CopyIn(dest, done, reading, size, p);
          cacheOffset := cacheOffset + reading;
          done := done + reading;
          at := at + reading;
        }
        return true;
      }
      if p + size <= |file| {
        pos := p + size;
        forall i | 0 <= i < size {
          dest[i] := file[p + i];
        }
        return true;
      }
      pos := |file|;
      lastError := EofError;
      return false;
    }

    /** memcpy out of the current block, continuing a copy of the file from p. */
    method CopyIn(dest: array<byte>, done: nat, n: nat, ghost size: nat, ghost p: nat)
      requires useCache && BlocksOk() && cacheIndex < CACHE_BLOCKS && blocks[cacheIndex].loaded
      requires cacheOffset + n <= |blocks[cacheIndex].data| && done + n <= size <= dest.Length
      requires dest as object != blocks && p + done == blocks[cacheIndex].base + cacheOffset <= |file|
      requires dest[..done] == file[p..p + done]
      modifies dest
      ensures p + done + n <= |file| && dest[..done + n] == file[p..p + done + n]
      ensures dest[size..] == old(dest[size..])
    {
      var data := blocks[cacheIndex].data;
      forall i | 0 <= i < n {
        dest[done + i] := data[cacheOffset + i];
      }
      assert forall i :: 0 <= i < done ==> dest[i] == old(dest[..done])[i] == file[p..p + done][i];
      assert forall i :: done <= i < done + n ==> dest[i] == data[cacheOffset + (i - done)];
    }

    constructor (contents: seq<byte>)
      ensures file == contents && Valid() && fresh(blocks) && fresh(buffer) && buffer.Length == BUFFER_STEP
      ensures Unopened() && root == null && lastError == NoError
    {
      file, pos, useCache, cacheSize := contents, 0, false, 0;
      cacheIndex, cacheOffset := NO_VALID_CACHE, NO_VALID_CACHE;
      blocks := new Block[CACHE_BLOCKS](_ => Block(false, 0, []));
      buffer := new byte[BUFFER_STEP];
      lastError, root := NoError, null;
    }

    /** Opening for reading: checks the version, then parses, with or without the cache. */
    method OpenFile(caching: bool) returns (ok: bool, ghost R: set<NodeStruct>)
      requires Valid() && Unopened()
      modifies `pos, `useCache, `cacheSize, `cacheIndex, `cacheOffset, `lastError, `root, blocks
      ensures Valid()
      ensures ok == Open(file).Opened?
      ensures ok ==> Ready() && Shows(root, Open(file).root, R)
      ensures Open(file) == Error(Eof) ==> lastError == EofError
      ensures Open(file) == Error(InvalidVersion) ==> lastError == InvalidVersionError
    {
      hide Parse, Shows, Spans, Tiles, CacheSize, Window;
      R := {};
      if |file| < 4 {
        lastError := EofError;
        return false, R;
      }
      if file[..4] != HEADER {
        lastError := InvalidVersionError;
        return false, R;
      }
      if caching {
        useCache := true;
        cacheSize := CacheSize(|file|);
      }
      var sought := SafeSeek(4);
      var node := new NodeStruct();
      node.start := 4;
      root := node;
      sought := SafeSeek(4);
      var read, byte := ReadByte();
      if !read || byte != NODE_START {
        return false, R;
      }
      ok, R := ParseNode(node);
    }

    /** A node's properties, unescaped in the shared buffer, which grows by one step when needed. */
    method GetProps(node: NodeStruct) returns (ok: bool, size: nat)
      requires Valid()
      requires var from := node.start + 2;
               from + node.propsSize <= |file| ==> CleanSpan(file, from, from + node.propsSize)
      requires useCache ==> node.start + 2 + node.propsSize <= |file|
      requires node.propsSize <= buffer.Length + BUFFER_STEP
      modifies `pos, `cacheIndex, `cacheOffset, `lastError, `buffer, blocks, buffer
      ensures Valid() && (old(Ready()) ==> Ready()) && (buffer == old(buffer) || fresh(buffer))
      ensures buffer.Length >= old(buffer.Length)
      ensures ok == (node.start + 2 + node.propsSize <= |file|)
      ensures ok ==> size <= buffer.Length
      ensures ok ==> buffer[..size] == Unescape(file[node.start + 2..node.start + 2 + node.propsSize])
    {
      hide Clean, Unescape;
      if node.propsSize >= buffer.Length {
        buffer := new byte[buffer.Length + BUFFER_STEP];
      }
      size := 0;
      ok := ReadBytes(buffer, node.propsSize, node.start + 2);
      if ok {
        size := UnescapeInPlace(buffer, node.propsSize);
      }
    }

    /** The recursive parser: a chain of siblings. It returns true exactly when the file parses
        from here, and then the nodes it linked up spell out the parse. */
    method ParseNode(node: NodeStruct) returns (ok: bool, ghost R: set<NodeStruct>)
      requires Valid() && Ready() && Position() >= 1 && node.start == Position() - 1
      requires node.child == null && node.next == null
      modifies `pos, `cacheIndex, `cacheOffset, `lastError, blocks, node
      ensures Valid() && Ready()
      ensures ok == Parse(file, old(Position())).Done?
      ensures ok ==> Position() == Parse(file, old(Position())).pos
      ensures ok ==> Shows(node, Parse(file, old(Position())).tree, R) && fresh(R - {node})
      decreases |file| - Position(), 2
    {
      hide Parse, After, PartAt, Shows, Segment, Valid, Ready, Position, BlocksOk;
      ghost var first := Position();
      R := {};
      var current := node;
      ghost var parts: seq<Part> := [];
      SegmentStart(node, R);
      while true
        invariant Valid() && Ready() && first <= Position()
        invariant current.start == Position() - 1 && current.child == null && current.next == null
        invariant current == node || fresh(current)
        invariant current !in R && fresh(R - {node})
        invariant Segment(node, parts, current, R)
        invariant Parse(file, first) == Prepend(parts, Parse(file, Position()))
        decreases |file| - Position()
      {
        ghost var p := Position();
        ParseByOutcome(file, p);
        var outcome;
        ghost var Rc;
        outcome, Rc := ReadNode(current);
        if outcome == Broken || outcome == Garbage {
          return false, R;
        }
        ghost var part := PartAt(file, p);
        ghost var Rn := R + Rc + {current};
        if outcome == Sibling {
          PrependSnoc(parts, part, Parse(file, Position()));
          current := LinkNext(node, parts, current, part, R, Rc);
          R, parts := Rn, parts + [part];
        } else {
          SegmentEnd(node, parts, current, part, R, Rc, Rn);
          if outcome == ParentEnd {
            var told, tell := SafeTell();
            var sought := SafeSeek(tell);
          }
          return true, Rn;
        }
      }
    }

    /** Starts the next sibling: the new node hangs off the current one. */
    method LinkNext(ghost from: NodeStruct, ghost parts: seq<Part>, current: NodeStruct, ghost part: Part,
                    ghost R: set<NodeStruct>, ghost Rc: set<NodeStruct>) returns (nextNode: NodeStruct)
      requires Valid() && Ready() && Position() >= 1
      requires Segment(from, parts, current, R) && Shaped(current, part) && Shows(current.child, part.child, Rc)
      requires current !in R + Rc
      modifies `lastError, current`next
      ensures Valid() && Ready() && Position() == old(Position())
      ensures fresh(nextNode) && nextNode.start == Position() - 1 && nextNode.child == null && nextNode.next == null
      ensures Segment(from, parts + [part], nextNode, R + Rc + {current})
    {
      hide Shows, Segment, Valid, Ready, Position, BlocksOk;
      var told, tell := SafeTell();
      nextNode := new NodeStruct();
      nextNode.start := tell;
      current.next := nextNode;
      SegmentSnoc(from, parts, current, part, R, Rc, R + Rc + {current});
    }

    /** One node, from its type byte to the byte after its NODE_END. */
    method ReadNode(node: NodeStruct) returns (outcome: Outcome, ghost R: set<NodeStruct>)
      requires Valid() && Ready() && Position() >= 1 && node.start == Position() - 1
      requires node.child == null
      modifies `pos, `cacheIndex, `cacheOffset, `lastError, blocks, node`kind, node`propsSize, node`child
      ensures Valid() && Ready()
      ensures outcome == After(file, old(Position()))
      ensures outcome != Broken ==>
        && Position() == EndAt(file, old(Position())) + (if outcome == EndOfFile then 0 else 1)
        && Shaped(node, PartAt(file, old(Position())))
        && Shows(node.child, PartAt(file, old(Position())).child, R)
      ensures fresh(R)
      decreases |file| - Position(), 1
    {
      hide Scan, Parse, ParseAfter, Shows, Valid, Ready, Position, BlocksOk;
      R := {};
      var read, byte := ReadByte();
      if !read {
        return Broken, R;
      }
      node.kind := byte;
      read, R := ParseBody(node);
      if !read {
        return Broken, R;
      }
      read, byte := ReadByte();
      if !read {
        return EndOfFile, R;
      }
      if byte == NODE_START {
        return Sibling, R;
      } else if byte == NODE_END {
        return ParentEnd, R;
      } else {
        SetError(InvalidFormat);
        return Garbage, R;
      }
    }

    /** The parser's inner loop: property bytes and children, up to the node's own NODE_END. */
    method ParseBody(node: NodeStruct) returns (ok: bool, ghost R: set<NodeStruct>)
      requires Valid() && Ready() && Position() >= 2 && node.start == Position() - 2
      requires node.child == null
      modifies `pos, `cacheIndex, `cacheOffset, `lastError, blocks, node`propsSize, node`child
      ensures Valid() && Ready()
      ensures var q := Scan(file, old(Position()));
              && ok == Closes(file, q)
              && (ok ==> && Position() == ClosingAt(file, q) + 1
                         && node.propsSize == q - old(Position())
                         && Shows(node.child, ChildTree(file, q), R))
      ensures fresh(R)
      decreases |file| - Position(), 0
    {
      hide Scan, Parse, ParseAfter, Valid, Ready, Position, BlocksOk;
      ghost var body := Position();
      ghost var q := Scan(file, body);
      R := {};
      var setPropsSize := false;
      while true
        invariant Valid() && Ready() && body <= Position() <= |file|
        invariant !setPropsSize ==> node.child == null && q == Scan(file, Position())
        invariant setPropsSize ==> q < |file| && file[q] == NODE_START && Parse(file, q + 1).Done?
        invariant setPropsSize ==> Position() == Parse(file, q + 1).pos && node.propsSize == q - body
        invariant setPropsSize ==> Shows(node.child, Parse(file, q + 1).tree, R)
        invariant fresh(R)
        decreases |file| - Position()
      {
        ghost var at := Position();
        var read, byte := ReadByte();
        if !read {
          return false, R;
        }
        ScanStep(file, at);
        if byte == NODE_START {
          var told, tell := SafeTell();
          var childNode := new NodeStruct();
          childNode.start := tell;
          node.propsSize := tell - node.start - 2;
          node.child := childNode;
          setPropsSize := true;
          ghost var Rc;
          read, Rc := ParseNode(childNode);
          if !read {
            return false, {};
          }
          R := Rc + {childNode};
          ShowsMore(childNode, Parse(file, q + 1).tree, Rc, R);
        } else if byte == NODE_END {
          if !setPropsSize {
            var told, tell := SafeTell();
            node.propsSize := tell - node.start - 2;
          }
          return true, R;
        } else if byte == ESCAPE_CHAR {
          read, byte := ReadByte();
          if !read {
            return false, R;
          }
        }
      }
    }
  }

  /** A node of a sibling chain that has been read completely. */
  datatype Part = Part(start: nat, size: nat, kind: byte, child: Tree)

  function Chain(parts: seq<Part>, t: Tree): Tree {
    if parts == [] then t
    else Node(parts[0].start, parts[0].size, parts[0].kind, parts[0].child, Chain(parts[1..], t))
  }

  function Prepend(parts: seq<Part>, r: Parsed): Parsed {
    if r.Fail? then Fail else Done(Chain(parts, r.tree), r.pos)
  }

  /** The nodes from `from` up to, not including, `to` show the parts. */
  ghost predicate Segment(from: NodeStruct, parts: seq<Part>, to: NodeStruct, R: set<NodeStruct>)
    reads R
    decreases |parts|
  {
    if parts == [] then from == to
    else
      && from in R
      && Shaped(from, parts[0])
      && Shows(from.child, parts[0].child, R)
      && from.next != null && Segment(from.next, parts[1..], to, R)
  }

  // ---------------------------------------------------------------- one step of the parser at a time

  lemma ScanStep(f: seq<byte>, c: nat)
    requires c < |f|
    ensures Bracket(f[c]) ==> Scan(f, c) == c
    ensures f[c] == ESCAPE_CHAR ==> Scan(f, c) == if c + 1 == |f| then |f| else Scan(f, c + 2)
    ensures !Special(f[c]) ==> Scan(f, c) == Scan(f, c + 1)
  {
  }

  /** What follows the first node of a chain. */
  datatype Outcome = Broken | EndOfFile | Sibling | ParentEnd | Garbage

  /** Offset just past the NODE_END of the node whose type byte is at p. */
  function EndAt(f: seq<byte>, p: nat): (e: nat)
    requires p < |f| && Closes(f, Scan(f, p + 1))
    ensures p + 2 <= e <= |f|
  {
    ClosingAt(f, Scan(f, p + 1)) + 1
  }

  function After(f: seq<byte>, p: nat): Outcome {
    if p >= |f| || !Closes(f, Scan(f, p + 1)) then Broken
    else
      var e := EndAt(f, p);
      if e == |f| then EndOfFile
      else if f[e] == NODE_START then Sibling
      else if f[e] == NODE_END then ParentEnd
      else Garbage
  }

  function PartAt(f: seq<byte>, p: nat): Part
    requires p >= 1 && After(f, p) != Broken
  {
    Part(p - 1, Scan(f, p + 1) - p - 1, f[p], ChildTree(f, Scan(f, p + 1)))
  }

  lemma ParseByOutcome(f: seq<byte>, p: nat)
    requires 1 <= p <= |f|
    ensures Parse(f, p) ==
      match After(f, p)
      case Broken => Fail
      case Garbage => Fail
      case Sibling => Prepend([PartAt(f, p)], Parse(f, EndAt(f, p) + 1))
      case EndOfFile => Done(Chain([PartAt(f, p)], NoTree), EndAt(f, p))
      case ParentEnd => Done(Chain([PartAt(f, p)], NoTree), EndAt(f, p))
  {
    hide Scan;
    if After(f, p) != Broken {
      ChainOne(PartAt(f, p), NoTree);
      if After(f, p) == Sibling && Parse(f, EndAt(f, p) + 1).Done? {
        ChainOne(PartAt(f, p), Parse(f, EndAt(f, p) + 1).tree);
      }
    }
  }

  lemma ChainOne(part: Part, t: Tree)
    ensures Chain([part], t) == Node(part.start, part.size, part.kind, part.child, t)
  {
    assert [part][1..] == [];
  }

  lemma {:induction false} PrependSnoc(parts: seq<Part>, part: Part, r: Parsed)
    ensures Prepend(parts + [part], r) == Prepend(parts, Prepend([part], r))
  {
    if parts == [] {
      assert parts + [part] == [part];
    } else {
      PrependSnoc(parts[1..], part, r);
      assert (parts + [part])[1..] == parts[1..] + [part];
    }
  }

  lemma {:induction false} ShowsMore(n: NodeStruct?, t: Tree, R: set<NodeStruct>, R': set<NodeStruct>)
    requires Shows(n, t, R) && R <= R'
    ensures Shows(n, t, R')
    decreases t
  {
    if t.Node? {
      ShowsMore(n.child, t.child, R, R');
      ShowsMore(n.next, t.next, R, R');
    }
  }

  predicate Shaped(n: NodeStruct, part: Part)
    reads n
  {
    n.start == part.start && n.propsSize == part.size && n.kind == part.kind
  }

  lemma {:induction false} SegmentSnoc(from: NodeStruct, parts: seq<Part>, to: NodeStruct, part: Part,
                                         R: set<NodeStruct>, Rc: set<NodeStruct>, R': set<NodeStruct>)
    requires Segment(from, parts, to, R) && R + Rc <= R'
    requires to in R' && Shaped(to, part) && Shows(to.child, part.child, Rc) && to.next != null
    ensures Segment(from, parts + [part], to.next, R')
    decreases |parts|
  {
    if parts == [] {
      assert parts + [part] == [part];
      ShowsMore(to.child, part.child, Rc, R');
    } else {
      ShowsMore(from.child, parts[0].child, R, R');
      SegmentSnoc(from.next, parts[1..], to, part, R, Rc, R');
      assert (parts + [part])[1..] == parts[1..] + [part];
    }
  }

  lemma SegmentStart(n: NodeStruct, R: set<NodeStruct>)
    ensures Segment(n, [], n, R)
  {
  }

  lemma {:induction false} SegmentShows(from: NodeStruct, parts: seq<Part>, to: NodeStruct, t: Tree, R: set<NodeStruct>, R': set<NodeStruct>)
    requires Segment(from, parts, to, R) && R <= R' && Shows(to, t, R')
    ensures Shows(from, Chain(parts, t), R')
    decreases |parts|
  {
    if parts != [] {
      ShowsMore(from.child, parts[0].child, R, R');
      SegmentShows(from.next, parts[1..], to, t, R, R');
    }
  }

  lemma SegmentEnd(from: NodeStruct, parts: seq<Part>, to: NodeStruct, part: Part,
                                         R: set<NodeStruct>, Rc: set<NodeStruct>, R': set<NodeStruct>)
    requires Segment(from, parts, to, R) && R + Rc <= R'
    requires to in R' && Shaped(to, part) && Shows(to.child, part.child, Rc) && to.next == null
    ensures Shows(from, Chain(parts, Chain([part], NoTree)), R')
  {
    ShowsMore(to.child, part.child, Rc, R');
    ChainOne(part, NoTree);
    SegmentShows(from, parts, to, Chain([part], NoTree), R, R');
  }

  // ---------------------------------------------------------------- unescaping in place

  lemma UnescapeStep(s: seq<byte>, i: nat)
    requires i < |s| && Clean(s[i..])
    ensures if s[i] == ESCAPE_CHAR then
              i + 1 < |s| && Clean(s[i + 2..]) && Unescape(s[i..]) == [s[i + 1]] + Unescape(s[i + 2..])
            else Clean(s[i + 1..]) && Unescape(s[i..]) == [s[i]] + Unescape(s[i + 1..])
  {
    var t := s[i..];
    assert t[1..] == s[i + 1..];
    if s[i] == ESCAPE_CHAR {
      assert t[2..] == s[i + 2..];
    }
  }

  /** The two-index loop of getProps: it never reads past n and leaves the unescaped bytes in front. */
  method UnescapeInPlace(a: array<byte>, n: nat) returns (j: nat)
    requires n <= a.Length && Clean(a[..n])
    modifies a
    ensures j <= n && a[..j] == Unescape(old(a[..n])) && a[n..] == old(a[n..])
  {
    hide Clean, Unescape;
    ghost var s, out := a[..n], [];
    assert s[0..] == s;
    var i := 0;
    j := 0;
    var escaped := false;
    while i < n
      invariant j <= i <= n && (!escaped ==> i == j)
      invariant forall k :: i <= k < a.Length ==> a[k] == old(a[k])
      invariant |out| == j && forall k :: 0 <= k < j ==> a[k] == out[k]
      invariant Clean(s[i..]) && out + Unescape(s[i..]) == Unescape(s)
    {
      UnescapeStep(s, i);
      if a[i] == ESCAPE_CHAR {
        i := i + 1;
        a[j] := a[i];
        escaped := true;
      } else if escaped {
        a[j] := a[i];
      }
      out := Outward(out, s[i], Unescape(s[i + 1..]));
      i, j := i + 1, j + 1;
    }
    assert s[n..] == [];
    EmptyUnescape();
  }

  /** One more byte is out. */
  lemma Outward(out: seq<byte>, b: byte, rest: seq<byte>) returns (more: seq<byte>)
    ensures more == out + [b] && more + rest == out + ([b] + rest)
  {
    more := out + [b];
  }

  lemma EmptyUnescape()
    ensures Clean([]) && Unescape([]) == []
  {
  }

  // ---------------------------------------------------------------- the edge of the cache

  /** Inside the file every turn of the readBytes loop makes progress; at its end no turn does. */
  lemma ReadingAdvances(f: seq<byte>, m: nat, at: nat, remain: nat)
    requires m >= 1 && at <= |f| && remain > 0
    ensures var base := BasePos(at, m);
            Min(remain, |Window(f, base, m)| - (at - base)) > 0 <==> at < |f|
  {
  }

  /** What one turn of the loop reads. */
  function TurnReads(f: seq<byte>, m: nat, at: nat, remain: nat): (r: nat)
    requires m >= 1 && at <= |f|
    ensures r <= remain && at + r <= |f| && (remain > 0 ==> (r > 0 <==> at < |f|))
  {
    if remain > 0 then
      ReadingAdvances(f, m, at, remain);
      Min(remain, |Window(f, BasePos(at, m), m)| - (at - BasePos(at, m)))
    else 0
  }

  /** What a cached read of `remain` bytes still has to read after n turns of its loop. */
  function Left(f: seq<byte>, m: nat, at: nat, remain: nat, n: nat): nat
    requires m >= 1 && at <= |f|
    decreases n
  {
    if n == 0 then remain
    else
      var r := TurnReads(f, m, at, remain);
      Left(f, m, at + r, remain - r, n - 1)
  }

  lemma {:induction false} RunsOver(f: seq<byte>, m: nat, at: nat, remain: nat, n: nat)
    requires m >= 1 && at <= |f| < at + remain
    ensures Left(f, m, at, remain, n) > 0
    decreases n
  {
    hide TurnReads;
    if n > 0 {
      var r := TurnReads(f, m, at, remain);
      RunsOver(f, m, at + r, remain - r, n - 1);
    }
  }

  lemma {:induction false} Finishes(f: seq<byte>, m: nat, at: nat, remain: nat) returns (n: nat)
    requires m >= 1 && at + remain <= |f|
    ensures Left(f, m, at, remain, n) == 0
    decreases remain
  {
    hide TurnReads;
    n := 0;
    if remain > 0 {
      var r := TurnReads(f, m, at, remain);
      n := Finishes(f, m, at + r, remain - r);
      n := n + 1;
    }
  }

  /** The loop of a cached read ends if and only if the range lies inside the file. */
  lemma ReadingEnds(f: seq<byte>, m: nat, at: nat, size: nat)
    requires m >= 1 && at <= |f|
    ensures (exists n: nat :: Left(f, m, at, size, n) == 0) <==> at + size <= |f|
  {
    hide Left;
    if at + size <= |f| {
      var n := Finishes(f, m, at, size);
    } else {
      forall n: nat ensures Left(f, m, at, size, n) > 0 {
        RunsOver(f, m, at, size, n);
      }
    }
  }
}
