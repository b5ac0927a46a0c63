/** FileLoader: the three-block read cache under the reading primitives, the parser that links
    NodeStruct objects, the in-place unescape of getProps, and the writer. */
module FileLoaders {
  import opened NodeFormat
  import opened BlockCache

  const EOF := -1
  const CACHE_BLOCKS := 3
  const NO_VALID_CACHE := 0xFFFF_FFFF

  /** At most `n` bytes of `s` from position `p` on: what fread delivers there. */
  function Window(s: seq<byte>, p: nat, n: nat): (w: seq<byte>)
    ensures |w| == (if p >= |s| then 0 else if p + n <= |s| then n else |s| - p)
    ensures forall i :: 0 <= i < |w| ==> p + i < |s| && w[i] == s[p + i]
  {
    if p >= |s| then [] else if p + n <= |s| then s[p..p + n] else s[p..]
  }

  /** A buffer that starts with a window onto a file agrees with the file inside the window. */
  lemma WindowPart(s: seq<byte>, base: nat, n: nat, data: seq<byte>, size: nat, from: nat, k: nat)
    requires size <= |data| && data[..size] == Window(s, base, n) && from + k <= size && base + from <= |s|
    ensures base + from + k <= |s| && data[from..from + k] == s[base + from..base + from + k]
    ensures k > 0 ==> data[from] == s[base + from]
  {
    hide Window;
    var w := Window(s, base, n);
    assert |w| == size && base + from + k <= |s|;
    var x, y := data[from..from + k], s[base + from..base + from + k];
    forall i | 0 <= i < k
      ensures x[i] == y[i]
    {
      assert x[i] == data[from + i] == data[..size][from + i] == w[from + i];
    }
    assert x == y;
    if k > 0 { assert x[0] == data[from] && y[0] == s[base + from]; }
  }

  lemma WindowInside(s: seq<byte>, p: nat, n: nat)
    ensures Window(s, p, 0) == []
    ensures p + n <= |s| ==> Window(s, p, n) == s[p..p + n]
  {
  }

  /** Two windows side by side. */
  lemma WindowsAbut(s: seq<byte>, p: nat, a: nat, b: nat)
    requires |Window(s, p, a)| == a && |Window(s, p + a, b)| == b
    ensures Window(s, p, a) + Window(s, p + a, b) == Window(s, p, a + b)
  {
  }

  /** A stdio stream whose operations do not fail. */
  class File {
    var bytes: seq<byte>
    var pos: nat

    constructor (contents: seq<byte>)
      ensures bytes == contents && pos == 0
    {
      bytes, pos := contents, 0;
    }

    method Seek(p: nat)
      modifies this`pos
      ensures pos == p
    {
      pos := p;
    }

    method Getc() returns (c: int)
      modifies this`pos
      ensures old(pos) < |bytes| ==> c == bytes[old(pos)] as int && pos == old(pos) + 1
      ensures old(pos) >= |bytes| ==> c == EOF && pos == old(pos)
    {
      if pos < |bytes| {
        c := bytes[pos] as int;
        pos := pos + 1;
      } else {
        c := EOF;
      }
    }

    method Read(dst: array<byte>, n: nat) returns (got: nat)
      requires n <= dst.Length
      modifies this`pos, dst
      ensures got == |Window(bytes, old(pos), n)| && pos == old(pos) + got
      ensures dst[..got] == Window(bytes, old(pos), n)
    {
      ghost var w := Window(bytes, pos, n);
      got := 0;
      while got < n && pos < |bytes|
        invariant got <= |w| && pos == old(pos) + got
        invariant forall i :: 0 <= i < got ==> dst[i] == w[i]
      {
        dst[got] := bytes[pos];
        got, pos := got + 1, pos + 1;
      }
    }

    method Write(c: byte)
      modifies this
      ensures bytes == old(bytes) + [c] && pos == old(pos)
    {
      bytes := bytes + [c];
    }
  }

  method MemCopy(dst: array<byte>, at: nat, src: array<byte>, from: nat, n: nat)
    requires dst != src && at + n <= dst.Length && from + n <= src.Length
    modifies dst
    ensures dst[at..at + n] == src[from..from + n]
    ensures dst[..at] == old(dst[..at])
  {
    for i := 0 to n
      invariant dst[at..at + i] == src[from..from + i]
      invariant dst[..at] == old(dst[..at])
    {
      dst[at + i] := src[from + i];
      assert dst[at..at + i + 1] == dst[at..at + i] + [src[from + i]];
    }
  }

  /** One slot of the cache; `data` is null until the slot is first used. */
  datatype CacheBlock = CacheBlock(loaded: bool, base: nat, data: array?<byte>, size: nat)

  class NodeStruct {
    var start: nat
    var propsSize: nat
    var ty: byte
    var next: NodeStruct?
    var child: NodeStruct?

    constructor ()
      ensures start == propsSize == 0 && ty == 0 && next == null && child == null
    {
      start, propsSize, ty, next, child := 0, 0, 0, null, null;
    }
  }

  // ---------------------------------------------------------------- linked nodes as values

  /** The linked structure at `n`, all of it within `fp`, is the parse tree `t`. */
  ghost predicate Represents(n: NodeStruct?, t: Parsed, fp: set<NodeStruct>)
    reads fp
    decreases t
  {
    match t
    case NoParsed => n == null
    case ParsedNode(start, size, ty, child, next) =>
      && n != null && n in fp
      && n.start == start && n.propsSize == size && n.ty == ty
      && Represents(n.child, child, fp) && Represents(n.next, next, fp)
  }

  /** The object holds the node `x`, its children being linked within `kids`. */
  ghost predicate IsNode(n: NodeStruct, x: Parsed, kids: set<NodeStruct>)
    reads n, kids
  {
    && x.ParsedNode? && x.next == NoParsed
    && n.start == x.start && n.propsSize == x.propsSize && n.ty == x.ty
    && Represents(n.child, x.child, kids)
  }

  /** `a` leads over complete nodes, the siblings `items`, to the node `b`. */
  ghost predicate Leads(a: NodeStruct?, items: seq<Parsed>, b: NodeStruct, fp: set<NodeStruct>)
    reads fp
    decreases |items|
  {
    if items == [] then a == b
    else
      && a != null && a in fp && items[0].ParsedNode?
      && a.start == items[0].start && a.propsSize == items[0].propsSize && a.ty == items[0].ty
      && Represents(a.child, items[0].child, fp) && Leads(a.next, items[1..], b, fp)
  }

  function Join(items: seq<Parsed>, last: Parsed): Parsed
    requires forall x :: x in items ==> x.ParsedNode?
  {
    if items == [] then last else items[0].(next := Join(items[1..], last))
  }

  /** A result for the remaining siblings, seen from the first one. */
  function Wrap(items: seq<Parsed>, r: ParseResult): ParseResult
    requires forall x :: x in items ==> x.ParsedNode?
  {
    match r
    case Failed => Failed
    case Done(t, pos) => Done(Join(items, t), pos)
  }

  /** A result for the siblings behind the node `x`, seen from `x`. */
  function Behind(x: Parsed, r: ParseResult): ParseResult
    requires x.ParsedNode?
  {
    match r
    case Failed => Failed
    case Done(t, pos) => Done(x.(next := t), pos)
  }

  lemma {:induction false} JoinSnoc(items: seq<Parsed>, x: Parsed, last: Parsed)
    requires forall y :: y in items + [x] ==> y.ParsedNode?
    ensures Join(items + [x], last) == Join(items, x.(next := last))
  {
    if items != [] {
      assert (items + [x])[1..] == items[1..] + [x];
      assert forall y :: y in items[1..] + [x] ==> y in items + [x];
      JoinSnoc(items[1..], x, last);
    } else {
      assert (items + [x])[1..] == [];
    }
  }

  lemma WrapSnoc(items: seq<Parsed>, x: Parsed, r: ParseResult)
    requires forall y :: y in items + [x] ==> y.ParsedNode?
    ensures forall y :: y in items ==> y.ParsedNode?
    ensures Wrap(items, Behind(x, r)) == Wrap(items + [x], r)
  {
    assert forall y :: y in items ==> y in items + [x];
    assert x in items + [x];
    if r.Done? {
      JoinSnoc(items, x, r.node);
    }
  }

  lemma StartOf(a: NodeStruct, fp: set<NodeStruct>, r: ParseResult)
    ensures Leads(a, [], a, fp) && Wrap([], r) == r
  {
  }

  lemma {:induction false} RepresentsMore(n: NodeStruct?, t: Parsed, fp: set<NodeStruct>, more: set<NodeStruct>)
    requires Represents(n, t, fp) && fp <= more
    ensures Represents(n, t, more)
  {
    if t.ParsedNode? {
      RepresentsMore(n.child, t.child, fp, more);
      RepresentsMore(n.next, t.next, fp, more);
    }
  }

  lemma {:induction false} LeadsSnoc(a: NodeStruct?, items: seq<Parsed>, b: NodeStruct, x: Parsed, c: NodeStruct,
                                     fp: set<NodeStruct>, kids: set<NodeStruct>, more: set<NodeStruct>)
    requires Leads(a, items, b, fp) && b.next == c && IsNode(b, x, kids)
    requires fp <= more && kids <= more && b in more
    ensures Leads(a, items + [x], c, more)
    decreases |items|
  {
    if items == [] {
      RepresentsMore(b.child, x.child, kids, more);
      assert (items + [x])[1..] == [];
    } else {
      assert (items + [x])[1..] == items[1..] + [x];
      RepresentsMore(a.child, items[0].child, fp, more);
      LeadsSnoc(a.next, items[1..], b, x, c, fp, kids, more);
    }
  }

  lemma {:induction false} LeadsTo(a: NodeStruct?, items: seq<Parsed>, b: NodeStruct, x: Parsed,
                                   fp: set<NodeStruct>, kids: set<NodeStruct>, more: set<NodeStruct>)
    requires Leads(a, items, b, fp) && IsNode(b, x, kids) && b.next == null
    requires fp <= more && kids <= more && b in more
    requires forall y :: y in items ==> y.ParsedNode?
    ensures Represents(a, Join(items, x), more)
    ensures forall pos: nat :: Wrap(items, Done(x, pos)) == Done(Join(items, x), pos)
    decreases |items|
  {
    if items == [] {
      RepresentsMore(b.child, x.child, kids, more);
    } else {
      RepresentsMore(a.child, items[0].child, fp, more);
      LeadsTo(a.next, items[1..], b, x, fp, kids, more);
    }
  }

  lemma WrapFailed(items: seq<Parsed>)
    requires forall y :: y in items ==> y.ParsedNode?
    ensures Wrap(items, Failed) == Failed
  {
  }

  /** How the inner loop of ParseNode ends: malformed bytes, no further sibling, or a sibling. */
  datatype NodeEnding = Broken | LastSibling | SiblingFollows(start: nat)

  // ---------------------------------------------------------------- the loader

  class FileLoader {
    const file: File
    var root: NodeStruct?
    var buffer: array<byte>
    var useCache: bool
    var cacheSize: nat
    const cached: array<CacheBlock>
    var cacheIndex: nat
    var cacheOffset: nat
    ghost var Repr: set<object>

    /** A loaded slot holds exactly what the file holds from its base on. */
    ghost predicate BlockValid(b: CacheBlock)
      reads this, file, Repr
    {
      && (b.data != null ==>
            b.data in Repr && b.data.Length == cacheSize && b.data != buffer && b.data as object? != cached as object)
      && (b.loaded ==> b.data != null && b.size <= b.data.Length && b.data[..b.size] == Window(file.bytes, b.base, cacheSize))
    }

    ghost predicate Valid()
      reads this, Repr
      ensures Valid() ==> this in Repr && file in Repr && forall o: object | o in Repr :: !(o is NodeStruct)
    {
      && this in Repr && file in Repr && buffer in Repr && cached in Repr
      && (forall o: object | o in Repr :: !(o is NodeStruct))
      && cached.Length == CACHE_BLOCKS && buffer.Length > 0 && buffer as object != cached as object
      && (useCache ==>
            && cacheSize > 0
            && (cacheIndex == NO_VALID_CACHE || (cacheIndex < CACHE_BLOCKS && cached[cacheIndex].loaded))
            && (forall i :: 0 <= i < CACHE_BLOCKS ==> BlockValid(cached[i]))
            && (forall i, j :: 0 <= i < j < CACHE_BLOCKS && cached[i].data != null ==> cached[i].data != cached[j].data))
    }

    /** The loader has a read position: with the cache on, only after the first seek. */
    ghost predicate HasPos()
      reads this
    {
      useCache ==> cacheIndex != NO_VALID_CACHE
    }

    /** The read position lies in the file or right behind its last byte. */
    ghost predicate Placed()
      requires Valid()
      reads this, Repr
    {
      HasPos() && LogicalPos() <= |file.bytes|
    }

    /** The read position: in the cached mode it is kept as block base plus offset. */
    ghost function LogicalPos(): nat
      requires Valid()
      reads this, Repr
    {
      if !useCache then file.pos
      else if cacheIndex < CACHE_BLOCKS then cached[cacheIndex].base + cacheOffset
      else 0
    }

    /** Some loaded slot has this base. */
    ghost predicate Holds(base: nat)
      requires cached.Length == CACHE_BLOCKS
      reads cached
    {
      exists i :: 0 <= i < CACHE_BLOCKS && cached[i].loaded && cached[i].base == base
    }

    /** All slots are in use. */
    ghost predicate Full()
      requires cached.Length == CACHE_BLOCKS
      reads cached
    {
      forall i :: 0 <= i < CACHE_BLOCKS ==> cached[i].loaded
    }

    /** The position lies behind the end of the file, inside the block it belongs to. */
    ghost predicate Beyond(pos: nat)
      requires useCache && cacheSize > 0
      reads this, file
    {
      pos > |file.bytes| && BasePos(pos, cacheSize) != pos
    }

    /** No block can be had for the position. */
    ghost predicate Refused(pos: nat)
      requires Valid() && useCache
      reads this, Repr
    {
      Beyond(pos) && !Holds(BasePos(pos, cacheSize))
    }

    /** The position lies behind the bytes of a block that is loaded already. */
    ghost predicate Stale(pos: nat)
      requires Valid() && useCache
      reads this, Repr
    {
      Beyond(pos) && Holds(BasePos(pos, cacheSize))
    }

    ghost predicate CacheEmpty()
      requires Valid()
      reads this, Repr
    {
      forall i :: 0 <= i < CACHE_BLOCKS ==> cached[i] == CacheBlock(false, 0, null, 0)
    }

    /** What the reading primitives leave alone. */
    twostate predicate SameFile()
      reads this, file
    {
      && file.bytes == old(file.bytes) && root == old(root) && buffer == old(buffer)
      && useCache == old(useCache) && cacheSize == old(cacheSize)
      && fresh(Repr - old(Repr))
    }

    constructor (f: File)
      ensures Valid() && fresh(Repr - {f}) && file == f && !useCache && root == null
      ensures file.pos == old(f.pos) && file.bytes == old(f.bytes) && CacheEmpty()
    {
      file := f;
      root := null;
      buffer := new byte[1024];
      useCache, cacheSize := false, 0;
      cached := new CacheBlock[CACHE_BLOCKS](_ => CacheBlock(false, 0, null, 0));
      cacheIndex, cacheOffset := NO_VALID_CACHE, NO_VALID_CACHE;
      new;
      Repr := {this, f, buffer, cached};
    }

    // -------------------------------------------------------------- cache blocks

    /** A free slot if there is one, else one whose base is more than two block sizes away, else
        the first. */
    method ChooseSlot(basePos: nat) returns (slot: nat)
      requires Valid() && useCache
      ensures slot < CACHE_BLOCKS && (cached[slot].loaded <==> Full())
    {
      for i := 0 to CACHE_BLOCKS
        invariant forall j :: 0 <= j < i ==> cached[j].loaded
      {
        if !cached[i].loaded {
          return i;
        }
      }
      for i := 0 to CACHE_BLOCKS {
        var distance := cached[i].base - basePos;
        if (if distance < 0 then -distance else distance) > 2 * cacheSize {
          return i;
        }
      }
      return 0;
    }

    /** Reads the file from `basePos` on into the slot, allocating its bytes on first use. */
    method FillSlot(slot: nat, basePos: nat)
      requires Valid() && useCache && slot < CACHE_BLOCKS
      modifies Repr
      ensures Valid() && SameFile() && buffer[..] == old(buffer[..])
      ensures cacheIndex == old(cacheIndex) && cacheOffset == old(cacheOffset)
      ensures cached[slot].loaded == old(cached[slot].loaded) && cached[slot].base == basePos
      ensures cached[slot].size == |Window(file.bytes, basePos, cacheSize)|
      ensures cached[slot].data != null && cached[slot].size <= cached[slot].data.Length
      ensures cached[slot].data[..cached[slot].size] == Window(file.bytes, basePos, cacheSize)
      ensures forall i :: 0 <= i < CACHE_BLOCKS && i != slot ==> cached[i] == old(cached[i])
    {
      hide Window;
      var data := cached[slot].data;
      if data == null {
        data := new byte[cacheSize];
        Repr := Repr + {data};
      }
      file.Seek(basePos);
      var size := file.Read(data, cacheSize);
      cached[slot] := CacheBlock(cached[slot].loaded, basePos, data, size);
    }

    method LoadCacheBlock(pos: nat) returns (r: int)
      requires Valid() && useCache
      modifies Repr
      ensures Valid() && SameFile() && buffer[..] == old(buffer[..])
      ensures cacheIndex == old(cacheIndex) && cacheOffset == old(cacheOffset)
      ensures r == -1 || (0 <= r < CACHE_BLOCKS && cached[r].loaded && cached[r].base == BasePos(pos, cacheSize))
      ensures r == -1 <==> Beyond(pos)
      ensures r == -1 && !old(Holds(BasePos(pos, cacheSize))) ==> (Holds(BasePos(pos, cacheSize)) <==> old(Full()))
    {
      var basePos := BasePos(pos, cacheSize);
      var slot := ChooseSlot(basePos);
      FillSlot(slot, basePos);
      if cached[slot].size < pos - basePos {
        return -1;
      }
      cached[slot] := cached[slot].(loaded := true);
      return slot;
    }

    method GetCacheBlock(pos: nat) returns (i: nat)
      requires Valid() && useCache
      modifies Repr
      ensures Valid() && SameFile() && buffer[..] == old(buffer[..])
      ensures cacheIndex == old(cacheIndex) && cacheOffset == old(cacheOffset)
      ensures i == NO_VALID_CACHE || (i < CACHE_BLOCKS && cached[i].loaded && cached[i].base == BasePos(pos, cacheSize))
      ensures i == NO_VALID_CACHE <==> old(Refused(pos))
      ensures i == NO_VALID_CACHE ==> (Refused(pos) <==> !old(Full()))
    {
      var basePos := BasePos(pos, cacheSize);
      for k := 0 to CACHE_BLOCKS
        invariant forall j :: 0 <= j < k ==> !(cached[j].loaded && cached[j].base == basePos)
      {
        if cached[k].loaded && cached[k].base == basePos {
          return k;
        }
      }
      var r := LoadCacheBlock(pos);
      i := if r < 0 then NO_VALID_CACHE else r;
    }

    // -------------------------------------------------------------- reading primitives

    /** Moves on to the block that holds position `pos`. */
    method EnterBlock(pos: nat) returns (ok: bool)
      requires Valid() && useCache
      modifies Repr
      ensures Valid() && SameFile() && buffer[..] == old(buffer[..])
      ensures ok ==> HasPos() && cacheIndex < CACHE_BLOCKS && cached[cacheIndex].loaded && LogicalPos() == pos
      ensures ok ==> cached[cacheIndex].base == BasePos(pos, cacheSize)
      ensures ok <==> !old(Refused(pos))
      ensures !ok ==> (Refused(pos) <==> !old(Full()))
    {
      var i := GetCacheBlock(pos);
      if i == NO_VALID_CACHE {
        return false;
      }
      cacheIndex := i;
      cacheOffset := pos - cached[i].base;
      return true;
    }

    /** Inside the current block the offset points at the file's byte, and outside it the file has ended
        if the block is the one that belongs to the position. */
    lemma BlockHolds()
      requires Valid() && useCache && cacheIndex < CACHE_BLOCKS
      ensures var b := cached[cacheIndex];
              && b.data != null && b.size <= b.data.Length
              && (cacheOffset < b.size ==> LogicalPos() < |file.bytes| && b.data[cacheOffset] == file.bytes[LogicalPos()])
              && (b.base == BasePos(LogicalPos(), cacheSize) && cacheOffset >= b.size ==> LogicalPos() >= |file.bytes|)
    {
      hide Window;
      var b := cached[cacheIndex];
      assert BlockValid(b);
      if cacheOffset < b.size { assert b.data[cacheOffset] == b.data[..b.size][cacheOffset]; }
    }

    /** A block entered for a position reaches up to it, unless the position lies behind the end of the
        file and inside the block: there the source's `size - offset` wraps around. */
    lemma OffsetInside()
      requires Valid() && useCache && cacheIndex < CACHE_BLOCKS
      requires cached[cacheIndex].base == BasePos(LogicalPos(), cacheSize)
      ensures cacheOffset > cached[cacheIndex].size <==> Beyond(LogicalPos())
    {
      hide Window;
      assert BlockValid(cached[cacheIndex]);
    }

    /** The branch of ReadByte for the cached mode. */
    method ReadCachedByte() returns (ok: bool, value: byte)
      requires Valid() && useCache
      modifies Repr
      ensures Valid() && SameFile() && buffer[..] == old(buffer[..])
      ensures ok <==> old(HasPos() && LogicalPos() < |file.bytes|)
      ensures ok ==> value == file.bytes[old(LogicalPos())]
      ensures old(Placed()) ==> HasPos() && LogicalPos() == old(LogicalPos()) + (if ok then 1 else 0)
    {
      if cacheIndex == NO_VALID_CACHE {
        return false, 0;
      }
      BlockHolds();
      if cacheOffset >= cached[cacheIndex].size {
        var entered := EnterBlock(cacheOffset + cached[cacheIndex].base);
        if !entered {
          return false, 0;
        }
        BlockHolds();
        if cacheOffset >= cached[cacheIndex].size {
          return false, 0;
        }
      }
      value := cached[cacheIndex].data[cacheOffset];
      cacheOffset := cacheOffset + 1;
      return true, value;
    }

    method ReadByte() returns (ok: bool, value: byte)
      requires Valid()
      modifies Repr
      ensures Valid() && SameFile() && buffer[..] == old(buffer[..])
      ensures ok <==> old(HasPos() && LogicalPos() < |file.bytes|)
      ensures ok ==> value == file.bytes[old(LogicalPos())]
      ensures old(Placed()) ==> Placed() && LogicalPos() == old(LogicalPos()) + (if ok then 1 else 0)
    {
      if useCache {
        ok, value := ReadCachedByte();
        return;
      }
      var c := file.Getc();
      if c != EOF {
        return true, c as byte;
      }
      return false, 0;
    }

    /** Seeks behind the end of the file can be refused by the cache.  A refused seek has filled a slot
        all the same, and if that slot was in use before, the same seek succeeds when it is repeated. */
    method SafeSeek(pos: nat) returns (ok: bool)
      requires Valid()
      modifies Repr
      ensures Valid() && SameFile() && buffer[..] == old(buffer[..])
      ensures ok ==> HasPos() && LogicalPos() == pos
      ensures ok <==> !(useCache && old(Refused(pos)))
      ensures !ok ==> (Refused(pos) <==> !old(Full()))
    {
      if useCache {
        ok := EnterBlock(pos);
      } else {
        file.Seek(pos);
        ok := true;
      }
    }

    /** The position of the byte read last. */
    method SafeTell() returns (ok: bool, pos: int)
      requires Valid()
      ensures ok <==> HasPos()
      ensures ok ==> pos == LogicalPos() - 1
    {
      if useCache {
        if cacheIndex == NO_VALID_CACHE {
          return false, 0;
        }
        return true, cached[cacheIndex].base + cacheOffset - 1;
      }
      return true, file.pos - 1;
    }

    /** Requests for which the loop over blocks ends with the bytes of the file or with a refusal: they
        stay in the file, or start where no block can be had.  Of the others, those that start in
        Stale read what is not in the file, and the loop of the rest is ReadForEver. */
    ghost predicate Settles(size: nat, pos: nat)
      requires Valid()
      reads this, Repr
    {
      useCache ==> pos + size <= |file.bytes| || Refused(pos) || (size == 0 && !Beyond(pos))
    }

    /** The branch of ReadBytes for the cached mode: block by block. */
    method ReadCachedBytes(size: nat, pos: nat) returns (ok: bool)
      requires Valid() && useCache && size <= buffer.Length && Settles(size, pos)
      modifies Repr
      ensures Valid() && SameFile() && (ok <==> !old(Refused(pos)))
      ensures ok ==> HasPos() && LogicalPos() == pos + size && (size == 0 || pos + size <= |file.bytes|)
      ensures pos + size <= |file.bytes| ==> ok && buffer[..size] == file.bytes[pos..pos + size]
    {
      hide Window;
      var remain: nat, bufferPos: nat := size, 0;
      var first := true;
      WindowInside(file.bytes, pos, size);
      while first || remain > 0
        invariant Valid() && SameFile()
        invariant bufferPos + remain == size && Delivered(pos, bufferPos)
        invariant first ==> bufferPos == 0 && (Refused(pos) <==> old(Refused(pos)))
        invariant !first ==> HasPos() && LogicalPos() == pos + bufferPos && !old(Refused(pos))
        decreases remain, first
      {
        first := false;
        var entered, reading := ReadFromBlock(remain, bufferPos, pos);
        if !entered {
          return false;
        }
        remain := remain - reading;
        bufferPos := bufferPos + reading;
      }
      return true;
    }

    /** The first `n` bytes of the buffer are what the file holds from `pos` on. */
    ghost predicate Delivered(pos: nat, n: nat)
      reads this, buffer, file
    {
      n <= buffer.Length && buffer[..n] == Window(file.bytes, pos, n)
    }

    /** One round of that loop.  It makes progress unless nothing remains or the file has ended. */
    method ReadFromBlock(remain: nat, bufferPos: nat, pos: nat) returns (ok: bool, reading: nat)
      requires Valid() && useCache && bufferPos + remain <= buffer.Length
      requires Delivered(pos, bufferPos) && !Stale(pos + bufferPos)
      modifies Repr
      ensures Valid() && SameFile() && (ok <==> !old(Refused(pos + bufferPos)))
      ensures ok ==> HasPos() && LogicalPos() == pos + bufferPos + reading && reading <= remain
      ensures ok ==> (reading == 0 <==> remain == 0 || pos + bufferPos >= |file.bytes|)
      ensures ok ==> Delivered(pos, bufferPos + reading)
    {
      hide Window;
      ok := EnterBlock(pos + bufferPos);
      reading := 0;
      if ok {
        OffsetInside();
        assert Delivered(pos, bufferPos);
        reading := CopyFromBlock(remain, bufferPos, pos + bufferPos);
        DeliveredMore(pos, bufferPos, reading);
        cacheOffset := cacheOffset + reading;
      }
    }

    lemma DeliveredMore(pos: nat, n: nat, k: nat)
      requires Delivered(pos, n) && n + k <= buffer.Length && buffer[n..n + k] == Window(file.bytes, pos + n, k)
      ensures Delivered(pos, n + k)
    {
      hide Window;
      WindowsAbut(file.bytes, pos, n, k);
      assert buffer[..n + k] == buffer[..n] + buffer[n..n + k];
    }

    /** The loop for a request that reaches beyond the file without being refused: however many rounds
        it makes, something remains and it is not left. */
    method ReadForEver(size: nat, pos: nat, rounds: nat) returns (remain: nat)
      requires Valid() && useCache && size <= buffer.Length
      requires !Beyond(pos) && size > 0 && pos + size > |file.bytes|
      modifies Repr
      ensures Valid() && SameFile() && 0 < remain <= size && Delivered(pos, size - remain)
    {
      hide Window;
      remain := size;
      for i := 0 to rounds
        invariant Valid() && SameFile() && 0 < remain <= size && Delivered(pos, size - remain)
      {
        var ok, reading := ReadFromBlock(remain, size - remain, pos);
        remain := remain - reading;
      }
    }

    /** Fills the loader's buffer from position `pos`.  Without the cache any request ends. */
    method ReadBytes(size: nat, pos: nat) returns (ok: bool)
      requires Valid() && size <= buffer.Length && Settles(size, pos)
      modifies Repr
      ensures Valid() && SameFile()
      ensures ok <==> if useCache then !old(Refused(pos)) else size == 0 || pos + size <= |file.bytes|
      ensures pos + size <= |file.bytes| ==>
                ok && Placed() && LogicalPos() == pos + size && buffer[..size] == file.bytes[pos..pos + size]
    {
      if useCache {
        ok := ReadCachedBytes(size, pos);
        return;
      }
      file.Seek(pos);
      var got := file.Read(buffer, size);
      WindowInside(file.bytes, pos, size);
      ok := got == size;
    }

    /** Copies what the current block has of the next `remain` bytes. */
    method CopyFromBlock(remain: nat, bufferPos: nat, p: nat) returns (reading: nat)
      requires Valid() && useCache && HasPos() && LogicalPos() == p
      requires cached[cacheIndex].base == BasePos(p, cacheSize) && cacheOffset <= cached[cacheIndex].size
      requires bufferPos + remain <= buffer.Length
      modifies buffer
      ensures Valid()
      ensures reading <= remain && (reading == 0 <==> remain == 0 || p >= |file.bytes|)
      ensures buffer[..bufferPos] == old(buffer[..bufferPos])
      ensures buffer[bufferPos..bufferPos + reading] == Window(file.bytes, p, reading)
    {
      var block := cached[cacheIndex];
      assert BlockValid(block);
      var room := block.size - cacheOffset;
      reading := if remain < room then remain else room;
      MemCopy(buffer, bufferPos, block.data, cacheOffset, reading);
      if reading > 0 {
        WindowPart(file.bytes, block.base, cacheSize, block.data[..], block.size, cacheOffset, reading);
      }
    }

    // -------------------------------------------------------------- the parser

    static lemma NoChild()
      ensures Represents(null, NoParsed, {})
    {
    }

    /** The inner loop of ParseNode: reads on to the end of `node`, whose type byte has been read,
        linking its children.  `x` is the finished node as a value. */
    method ScanNode(node: NodeStruct) returns (end: NodeEnding, ghost x: Parsed, ghost kids: set<NodeStruct>)
      requires Valid() && Placed() && node.start + 2 == LogicalPos()
      requires node.child == null && node.next == null
      modifies Repr, node
      ensures Valid() && SameFile() && Placed()
      ensures node.start == old(node.start) && node.ty == old(node.ty) && node.next == null
      ensures fresh(kids) && node !in kids
      ensures var r := NodeFormat.ScanNode(file.bytes, old(LogicalPos()), node.start, node.ty, -1, NoParsed);
              && (end.Broken? ==> r.Failed?)
              && (!end.Broken? ==> IsNode(node, x, kids))
              && (end.LastSibling? ==> r == Done(x, LogicalPos()))
              && (end.SiblingFollows? ==>
                    && LogicalPos() == end.start + 1 > old(LogicalPos())
                    && r == Behind(x, NodeFormat.ParseNode(file.bytes, end.start, end.start + 1)))
      decreases |file.bytes| - LogicalPos(), 0
    {
      hide NodeFormat.ScanNode, NodeFormat.ParseNode, Valid, LogicalPos, Represents;
      ghost var bytes, p0 := file.bytes, LogicalPos();
      ghost var target := NodeFormat.ScanNode(bytes, p0, node.start, node.ty, -1, NoParsed);
      var setPropsSize := false;
      ghost var child := NoParsed;
      kids, x := {}, NoParsed;
      NoChild();
      while true
        invariant Valid() && SameFile() && Placed() && LogicalPos() >= p0
        invariant node.start == old(node.start) && node.ty == old(node.ty) && node.next == null
        invariant fresh(kids) && node !in kids && Represents(node.child, child, kids)
        invariant target == NodeFormat.ScanNode(bytes, LogicalPos(), node.start, node.ty, if setPropsSize then node.propsSize else -1, child)
        decreases |file.bytes| - LogicalPos()
      {
        ghost var q, size := LogicalPos(), if setPropsSize then node.propsSize else -1;
        var read, byte := ReadByte();
        if !read {
          ScanSkip(bytes, q, node.start, node.ty, size, child);
          return Broken, x, kids;
        }
        if byte == NODE_START {
          ScanChild(bytes, q, node.start, node.ty, size, child);
          var ok;
          ok, child, kids := ReadChild(node);
          if !ok {
            return Broken, x, kids;
          }
          setPropsSize := true;
        } else if byte == NODE_END {
          ScanEnd(bytes, q, node.start, node.ty, size, child);
          end := FinishNode(node, setPropsSize);
          x := ParsedNode(node.start, node.propsSize, node.ty, child, NoParsed);
          return end, x, kids;
        } else {
          ScanSkip(bytes, q, node.start, node.ty, size, child);
          var skipped := SkipByte(byte);
          if !skipped {
            return Broken, x, kids;
          }
        }
      }
    }

    /** Behind an escape byte, whatever follows belongs to the properties. */
    method SkipByte(byte: byte) returns (ok: bool)
      requires Valid() && Placed()
      modifies Repr
      ensures Valid() && SameFile() && Placed()
      ensures ok <==> byte != ESCAPE_CHAR || old(LogicalPos()) < |file.bytes|
      ensures ok ==> LogicalPos() == old(LogicalPos()) + (if byte == ESCAPE_CHAR then 1 else 0)
    {
      ok := true;
      if byte == ESCAPE_CHAR {
        var escaped;
        ok, escaped := ReadByte();
      }
    }

    /** A child starts: its first node is linked and parsed, and the parent's size is fixed. */
    method ReadChild(node: NodeStruct) returns (ok: bool, ghost child: Parsed, ghost kids: set<NodeStruct>)
      requires Valid() && Placed() && node.start + 3 <= LogicalPos()
      modifies Repr, node
      ensures Valid() && SameFile() && Placed()
      ensures node.start == old(node.start) && node.ty == old(node.ty) && node.next == old(node.next)
      ensures fresh(kids) && node !in kids
      ensures var p := old(LogicalPos());
              var r := NodeFormat.ParseNode(file.bytes, p - 1, p);
              && ok == r.Done?
              && (ok ==> r == Done(child, LogicalPos()) && Represents(node.child, child, kids)
                         && node.propsSize == p - 1 - node.start - 2)
      decreases |file.bytes| - LogicalPos(), 3
    {
      kids, child := {}, NoParsed;
      var told, pos := SafeTell();
      var childNode := new NodeStruct();
      childNode.start := pos;
      node.propsSize := pos - node.start - 2;
      node.child := childNode;
      ok, kids := ParseNode(childNode);
      if ok {
        child := NodeFormat.ParseNode(file.bytes, pos, pos + 1).node;
      }
    }

    /** An end byte: the node is complete, and the byte behind it tells what comes next. */
    method FinishNode(node: NodeStruct, setPropsSize: bool) returns (end: NodeEnding)
      requires Valid() && Placed() && node.start + 3 <= LogicalPos()
      requires file.bytes[LogicalPos() - 1] == NODE_END
      modifies Repr, node`propsSize
      ensures Valid() && SameFile() && Placed()
      ensures var q := old(LogicalPos()) - 1;
              && node.propsSize == (if setPropsSize then old(node.propsSize) else q - node.start - 2)
              && (end.Broken? ==> q + 1 < |file.bytes| && file.bytes[q + 1] != NODE_START && file.bytes[q + 1] != NODE_END)
              && (end.LastSibling? ==> LogicalPos() == q + 1 && (q + 1 == |file.bytes| || file.bytes[q + 1] == NODE_END))
              && (end.SiblingFollows? ==> end.start == q + 1 && LogicalPos() == q + 2 <= |file.bytes| && file.bytes[q + 1] == NODE_START)
    {
      if !setPropsSize {
        var told, pos := SafeTell();
        node.propsSize := pos - node.start - 2;
      }
      var read, byte := ReadByte();
      if !read {
        return LastSibling;
      }
      if byte == NODE_START {
        var told, pos := SafeTell();
        return SiblingFollows(pos);
      }
      if byte == NODE_END {
        var told, pos := SafeTell();
        var sought := SafeSeek(pos);
        return LastSibling;
      }
      return Broken;
    }

    /** One round of the outer loop: reads the node that starts at `node.start`, its children
        included, and links a new node behind it when a sibling follows. */
    method ReadNode(node: NodeStruct) returns (end: NodeEnding, nextNode: NodeStruct, ghost x: Parsed, ghost kids: set<NodeStruct>)
      requires Valid() && Placed() && node.start + 1 == LogicalPos()
      requires node.child == null && node.next == null
      modifies Repr, node
      ensures Valid() && SameFile() && Placed()
      ensures node.start == old(node.start) && fresh(kids) && node !in kids
      ensures var r := NodeFormat.ParseNode(file.bytes, node.start, node.start + 1);
              && (end.Broken? ==> r.Failed?)
              && (!end.Broken? ==> IsNode(node, x, kids))
              && (end.LastSibling? ==> r == Done(x, LogicalPos()) && node.next == null)
              && (end.SiblingFollows? ==>
                    && node.next == nextNode && fresh(nextNode) && nextNode !in kids
                    && nextNode.start + 1 == LogicalPos() > old(LogicalPos())
                    && nextNode.child == null && nextNode.next == null
                    && r == Behind(x, NodeFormat.ParseNode(file.bytes, nextNode.start, nextNode.start + 1)))
      decreases |file.bytes| - LogicalPos(), 1
    {
      hide Valid, LogicalPos, NodeFormat.ScanNode, Behind, Represents;
      nextNode := node;
      var read, byte := ReadByte();
      if !read {
        return Broken, nextNode, NoParsed, {};
      }
      node.ty := byte;
      end, x, kids := ScanNode(node);
      if end.SiblingFollows? {
        nextNode := new NodeStruct();
        nextNode.start := end.start;
        node.next := nextNode;
      }
    }

    /** Links the nodes from `node` on, whose type byte is next to be read. */
    method ParseNode(node: NodeStruct) returns (ok: bool, ghost fp: set<NodeStruct>)
      requires Valid() && Placed() && node.start + 1 == LogicalPos()
      requires node.child == null && node.next == null
      modifies Repr, node
      ensures Valid() && SameFile() && Placed() && fresh(fp - {node})
      ensures node.start == old(node.start)
      ensures var r := NodeFormat.ParseNode(file.bytes, node.start, node.start + 1);
              ok == r.Done? && (ok ==> LogicalPos() == r.pos && Represents(node, r.node, fp))
      decreases |file.bytes| - LogicalPos(), 2
    {
      hide NodeFormat.ParseNode, Valid, LogicalPos, Leads, Wrap, Behind, Represents;
      ghost var bytes := file.bytes;
      ghost var target := NodeFormat.ParseNode(bytes, node.start, node.start + 1);
      var currentNode := node;
      ghost var items: seq<Parsed>, behind: set<NodeStruct> := [], {};
      StartOf(node, behind, target);
      while true
        invariant Valid() && SameFile() && Placed() && LogicalPos() == currentNode.start + 1 >= old(LogicalPos())
        invariant node.start == old(node.start) && currentNode.child == null && currentNode.next == null
        invariant currentNode != node ==> fresh(currentNode)
        invariant fresh(behind - {node}) && currentNode !in behind
        invariant forall x :: x in items ==> x.ParsedNode?
        invariant Leads(node, items, currentNode, behind)
        invariant target == Wrap(items, NodeFormat.ParseNode(bytes, currentNode.start, currentNode.start + 1))
        decreases |file.bytes| - LogicalPos()
      {
        var end, nextNode, x, kids := ReadNode(currentNode);
        if end.Broken? {
          WrapFailed(items);
          return false, {};
        }
        fp := behind + kids + {currentNode};
        if end.LastSibling? {
          LeadsTo(node, items, currentNode, x, behind, kids, fp);
          return true, fp;
        }
        LeadsSnoc(node, items, currentNode, x, nextNode, behind, kids, fp);
        WrapSnoc(items, x, NodeFormat.ParseNode(bytes, nextNode.start, nextNode.start + 1));
        items, behind := items + [x], fp;
        currentNode := nextNode;
      }
    }

    // -------------------------------------------------------------- properties

    /** Makes room for more than `size` bytes, doubling the buffer as often as needed. */
    method ReserveBuffer(size: nat)
      requires Valid()
      modifies this
      ensures Valid() && size < buffer.Length && SameStream()
    {
      if size >= buffer.Length {
        var bufferSize := buffer.Length;
        while size >= bufferSize
          invariant bufferSize > 0
          decreases size - bufferSize
        {
          bufferSize := bufferSize * 2;
        }
        buffer := new byte[bufferSize];
        Repr := Repr + {buffer};
      }
    }

    /** As SameFile, but the buffer may have been replaced. */
    twostate predicate SameStream()
      reads this, file
    {
      && file.bytes == old(file.bytes) && root == old(root)
      && useCache == old(useCache) && cacheSize == old(cacheSize)
      && fresh(Repr - old(Repr))
    }

    /** Reads a node's property bytes and removes the escape bytes in place. */
    method GetProps(node: NodeStruct) returns (size: nat)
      requires Valid() && node.start + 2 + node.propsSize <= |file.bytes|
      requires WellEscaped(RawProps(file.bytes, node.start, node.propsSize))
      modifies Repr
      ensures Valid() && SameStream() && Placed()
      ensures size <= buffer.Length && buffer[..size] == Unescape(RawProps(file.bytes, node.start, node.propsSize))
    {
      var propsSize := node.propsSize;
      ReserveBuffer(propsSize);
      var ok := ReadBytes(propsSize, node.start + 2);
      size := UnescapeBuffer(propsSize);
    }

    method UnescapeBuffer(propsSize: nat) returns (j: nat)
      requires Valid() && propsSize < buffer.Length && WellEscaped(buffer[..propsSize])
      modifies buffer
      ensures j <= propsSize && buffer[..j] == Unescape(old(buffer[..propsSize]))
    {
      hide Unescape, WellEscaped;
      ghost var raw := buffer[..propsSize];
      UnescapeStep([]);
      var i := 0;
      j := 0;
      var escaped := false;
      assert raw[..0] == [] && raw[0..] == raw;
      while i < propsSize
        invariant j <= i <= propsSize && (!escaped ==> i == j)
        invariant buffer[..j] == Unescape(raw[..i]) && WellEscaped(raw[..i]) && WellEscaped(raw[i..])
        invariant forall k :: i <= k < propsSize ==> buffer[k] == raw[k]
      {
        UnescapeNext(raw, i);
        if buffer[i] == ESCAPE_CHAR {
          i := i + 1;
          buffer[j] := buffer[i];
          escaped := true;
        } else if escaped {
          buffer[j] := buffer[i];
        }
        i, j := i + 1, j + 1;
      }
      assert raw[..i] == raw;
    }

    // -------------------------------------------------------------- the writer

    method WriteData(data: seq<byte>, unescape: bool)
      modifies file
      ensures file.bytes == old(file.bytes) + (if unescape then Escape(data) else data)
    {
      hide Escape;
      EscapeShort(0);
      for i := 0 to |data|
        invariant file.bytes == old(file.bytes) + (if unescape then Escape(data[..i]) else data[..i])
      {
        var c := data[i];
        assert data[..i + 1] == data[..i] + [c];
        EscapeConcat(data[..i], [c]);
        EscapeShort(c);
        if unescape && Special(c) {
          file.Write(ESCAPE_CHAR);
        }
        file.Write(c);
      }
      assert data[..|data|] == data;
    }

    static lemma EscapeShort(c: byte)
      ensures Escape([]) == [] && Escape([c]) == EscapeByte(c)
    {
      assert [c][1..] == [];
    }

    method StartNode(ty: byte)
      modifies file
      ensures file.bytes == old(file.bytes) + ([NODE_START] + EscapeByte(ty))
    {
      WriteData([NODE_START], false);
      WriteData([ty], true);
    }

    method SetProps(data: seq<byte>)
      modifies file
      ensures file.bytes == old(file.bytes) + Escape(data)
    {
      WriteData(data, true);
    }

    method EndNode()
      modifies file
      ensures file.bytes == old(file.bytes) + [NODE_END]
    {
      WriteData([NODE_END], false);
    }

    /** How a saver uses the writer: every node as start, properties, children, end. */
    method WriteForest(w: Forest)
      modifies file
      ensures file.bytes == old(file.bytes) + Encode(w)
      decreases w
    {
      if w.Node? {
        StartNode(w.ty);
        SetProps(w.props);
        WriteForest(w.child);
        EndNode();
        WriteForest(w.next);
        EncodeOrder(old(file.bytes), w);
      }
    }

    // -------------------------------------------------------------- opening and reading back

    method OpenForWriting()
      requires Valid() && file.bytes == []
      modifies file
      ensures file.bytes == [0, 0, 0, 0]
    {
      WriteData([0, 0, 0, 0], false);
    }

    method OpenForReading(identifier: seq<byte>, caching: bool) returns (ok: bool, ghost fp: set<NodeStruct>)
      requires Valid() && !useCache && CacheEmpty() && |identifier| == 4
      modifies Repr
      ensures Valid() && file.bytes == old(file.bytes) && fresh(Repr - old(Repr)) && fresh(fp)
      ensures var f := file.bytes;
              var accepted := |f| >= 4 && (f[..4] == identifier || f[..4] == [0, 0, 0, 0]);
              && (ok <==> accepted && ParseFile(f).Done?)
              && (ok ==> Represents(root, ParseFile(f).node, fp) && InFile(f, ParseFile(f).node))
    {
      fp := {};
      if |file.bytes| < 4 {
        return false, fp;
      }
      var got := file.bytes[..4];
      if got != identifier && got != [0, 0, 0, 0] {
        return false, fp;
      }
      if caching {
        EnableCache();
      }
      ok, fp := OpenRoot();
    }

    method EnableCache()
      requires Valid() && !useCache && CacheEmpty()
      modifies this
      ensures Valid() && useCache && cacheSize == CacheSizeFor(|file.bytes|) && Repr == old(Repr)
    {
      useCache := true;
      cacheSize := CacheSizeFor(|file.bytes|);
      cacheIndex := NO_VALID_CACHE;
      CacheSizes(|file.bytes|);
    }

    /** Creates the root node and parses it if a start byte follows the version. */
    method NewRoot()
      requires Valid()
      modifies this`root
      ensures Valid() && root != null && fresh(root) && root.start == 4 && root.child == null && root.next == null
    {
      root := new NodeStruct();
      root.start := 4;
    }

    method OpenRoot() returns (ok: bool, ghost fp: set<NodeStruct>)
      requires Valid() && |file.bytes| >= 4
      modifies Repr
      ensures Valid() && file.bytes == old(file.bytes) && fresh(Repr - old(Repr)) && fresh(fp)
      ensures var r := ParseFile(file.bytes);
              (ok <==> r.Done?) && (ok ==> Represents(root, r.node, fp) && InFile(file.bytes, r.node))
    {
      hide NodeFormat.ParseNode, LogicalPos, Represents, InFile, Valid;
      fp := {};
      var sought := SafeSeek(4);
      NewRoot();
      sought := SafeSeek(4);
      var read, byte := ReadByte();
      if !read || byte != NODE_START {
        return false, fp;
      }
      ok, fp := ParseNode(root);
      if ok {
        DoneMeansBytes(file.bytes, 4);
        ParseNodeSound(file.bytes, 4, 5);
      }
    }

    /** How a loader uses the parsed nodes: types, properties, children and siblings. */
    method ReadForest(node: NodeStruct?, ghost t: Parsed, ghost fp: set<NodeStruct>) returns (w: Forest)
      requires Valid() && InFile(file.bytes, t) && Represents(node, t, fp)
      modifies Repr
      ensures Valid() && SameStream() && w == Decode(file.bytes, t)
      decreases t
    {
      if node == null {
        return NoNode;
      }
      var size := GetProps(node);
      var props := buffer[..size];
      var child := ReadForest(node.child, t.child, fp);
      var next := ReadForest(node.next, t.next, fp);
      w := Node(node.ty, props, child, next);
    }
  }

  lemma DoneMeansBytes(f: seq<byte>, start: nat)
    requires ParseNode(f, start, start + 1).Done?
    ensures start + 1 < |f|
  {
  }

  lemma UnescapeNext(raw: seq<byte>, i: nat)
    requires i < |raw| && WellEscaped(raw[..i]) && WellEscaped(raw[i..])
    ensures var k := if raw[i] == ESCAPE_CHAR then 2 else 1;
            && i + k <= |raw| && WellEscaped(raw[..i + k]) && WellEscaped(raw[i + k..])
            && Unescape(raw[..i + k]) == Unescape(raw[..i]) + [raw[i + k - 1]]
  {
    var k := if raw[i] == ESCAPE_CHAR then 2 else 1;
    var piece := raw[i..i + k];
    assert raw[i..][k..] == raw[i + k..];
    assert raw[..i + k] == raw[..i] + piece;
    assert piece[k..] == [];
    UnescapeConcat(raw[..i], piece);
  }

  lemma EncodeOrder(before: seq<byte>, w: Forest)
    requires w.Node?
    ensures ((((before + ([NODE_START] + EscapeByte(w.ty))) + Escape(w.props)) + Encode(w.child)) + [NODE_END]) + Encode(w.next)
            == before + Encode(w)
  {
    hide Escape, EscapeByte;
    Regroup(before, [NODE_START], EscapeByte(w.ty), Escape(w.props), Encode(w.child), [NODE_END], Encode(w.next));
  }

  lemma Regroup(before: seq<byte>, a: seq<byte>, b: seq<byte>, c: seq<byte>, d: seq<byte>, e: seq<byte>, f: seq<byte>)
    ensures ((((before + (a + b)) + c) + d) + e) + f == before + (a + (b + (c + (d + (e + f)))))
  {
    calc {
      ((((before + (a + b)) + c) + d) + e) + f;
      (((before + (a + b)) + c) + d) + (e + f);
      ((before + (a + b)) + c) + (d + (e + f));
      (before + (a + b)) + (c + (d + (e + f)));
      before + ((a + b) + (c + (d + (e + f))));
      { assert (a + b) + (c + (d + (e + f))) == a + (b + (c + (d + (e + f)))); }
      before + (a + (b + (c + (d + (e + f)))));
    }
  }

  // ---------------------------------------------------------------- access sequences

  datatype Access = GetByte | GetBytes(size: nat, pos: nat) | SeekTo(pos: nat) | Tell

  datatype Answer = NoByte | Byte(b: byte) | Bytes(s: seq<byte>) | Moved | Position(p: int)

  /** Seeks and block reads stay within the file. */
  predicate Within(f: seq<byte>, a: Access) {
    match a
    case GetBytes(size, pos) => pos + size <= |f|
    case SeekTo(pos) => pos <= |f|
    case _ => true
  }

  /** One access on the plain file with the read position `p`: the answer and the new position. */
  function PlainAccess(f: seq<byte>, p: nat, a: Access): (Answer, nat)
    requires Within(f, a)
  {
    match a
    case GetByte => if p < |f| then (Byte(f[p]), p + 1) else (NoByte, p)
    case GetBytes(size, pos) => (Bytes(f[pos..pos + size]), pos + size)
    case SeekTo(pos) => (Moved, pos)
    case Tell => (Position(p - 1), p)
  }

  function PlainRun(f: seq<byte>, p: nat, accesses: seq<Access>): seq<Answer>
    requires forall a :: a in accesses ==> Within(f, a)
    decreases |accesses|
  {
    if accesses == [] then []
    else
      var step := PlainAccess(f, p, accesses[0]);
      [step.0] + PlainRun(f, step.1, accesses[1..])
  }

  method Perform(loader: FileLoader, a: Access) returns (answer: Answer)
    requires loader.Valid() && loader.Placed() && Within(loader.file.bytes, a)
    requires a.GetBytes? ==> a.size <= loader.buffer.Length
    modifies loader.Repr
    ensures loader.Valid() && loader.Placed() && loader.file.bytes == old(loader.file.bytes)
    ensures loader.buffer == old(loader.buffer) && fresh(loader.Repr - old(loader.Repr))
    ensures (answer, loader.LogicalPos()) == PlainAccess(loader.file.bytes, old(loader.LogicalPos()), a)
  {
    match a
    case GetByte =>
      var ok, b := loader.ReadByte();
      answer := if ok then Byte(b) else NoByte;
    case GetBytes(size, pos) =>
      var ok := loader.ReadBytes(size, pos);
      answer := Bytes(loader.buffer[..size]);
    case SeekTo(pos) =>
      var ok := loader.SafeSeek(pos);
      answer := Moved;
    case Tell =>
      var ok, p := loader.SafeTell();
      answer := Position(p);
  }

  /** Over every sequence of accesses within the file, a loader answers what the plain file
      answers, whether its cache is on or off and whatever blocks it holds. */
  method Replay(loader: FileLoader, accesses: seq<Access>) returns (answers: seq<Answer>)
    requires loader.Valid() && loader.Placed()
    requires forall a :: a in accesses ==> Within(loader.file.bytes, a) && (a.GetBytes? ==> a.size <= loader.buffer.Length)
    modifies loader.Repr
    ensures loader.Valid() && loader.file.bytes == old(loader.file.bytes) && fresh(loader.Repr - old(loader.Repr))
    ensures answers == PlainRun(loader.file.bytes, old(loader.LogicalPos()), accesses)
    decreases |accesses|
  {
    if accesses == [] {
      return [];
    }
    var first := Perform(loader, accesses[0]);
    var rest := Replay(loader, accesses[1..]);
    answers := [first] + rest;
  }

  /** Reading a node file that a forest was written to. */
  method Load(file: File, ghost w: Forest, identifier: seq<byte>, caching: bool) returns (ok: bool, r: Forest)
    requires file.bytes == FileOf(w) && w.Node? && |identifier| == 4
    modifies file
    ensures file.bytes == old(file.bytes) && ((ok && r == w) <==> Survives(w))
  {
    var reader := new FileLoader(file);
    ghost var fp;
    ok, fp := reader.OpenForReading(identifier, caching);
    r := NoNode;
    if ok {
      r := reader.ReadForest(reader.root, ParseFile(file.bytes).node, fp);
    }
    RoundTripIff(w);
  }

  /** Writing a forest to a new file and reading the file back, with the cache on or off. */
  method StoreAndLoad(w: Forest, identifier: seq<byte>, caching: bool) returns (bytes: seq<byte>, ok: bool, r: Forest)
    requires w.Node? && |identifier| == 4
    ensures (ok && r == w) <==> Survives(w)
    ensures OrdinaryTypes(w) ==> ok && r == w
    ensures |bytes| >= 7 && bytes[..5] == [0, 0, 0, 0, 0xFE] && bytes[|bytes| - 1] == 0xFF
    ensures w == SAMPLE ==> bytes == [0, 0, 0, 0, 0xFE, 1, 0xFD, 0xFD, 7, 0xFD, 0xFE, 0xFE, 2, 0xFF, 0xFF]
  {
    var file := new File([]);
    var writer := new FileLoader(file);
    writer.OpenForWriting();
    writer.WriteForest(w);
    assert file.bytes == FileOf(w);
    bytes := file.bytes;
    EncodeEnds(w);
    FileEnds(w);
    if w == SAMPLE { SampleBytes(); }
    ok, r := Load(file, w, identifier, caching);
    if OrdinaryTypes(w) { OrdinarySurvives(w); }
  }

  /** Fifteen bytes, read into the node and its child that they stand for. */
  method LoadSample(identifier: seq<byte>, caching: bool) returns (ok: bool, r: Forest)
    requires |identifier| == 4
    ensures ok && r == Node(1, [0xFD, 7, 0xFE], Node(2, [], NoNode, NoNode), NoNode)
  {
    SampleBytes();
    RoundTripIff(SAMPLE);
    var file := new File([0, 0, 0, 0, 0xFE, 1, 0xFD, 0xFD, 7, 0xFD, 0xFE, 0xFE, 2, 0xFF, 0xFF]);
    ok, r := Load(file, SAMPLE, identifier, caching);
  }
}
