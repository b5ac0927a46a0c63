/** The OTBM node-file format as pure functions over byte sequences.

    `Forest` is what a writer hands to startNode/setProps/endNode, `Parsed` is the linked
    NodeStruct structure the parser builds, in the same first-child/next-sibling shape.  The
    parser is written out branch by branch, so a round trip here is a statement about the loop
    in FileLoader::parseNode (the module FileLoaders proves that the loop computes it). */
module NodeFormat {

  type byte = bv8

  const NODE_START: byte := 0xFE
  const NODE_END: byte := 0xFF
  const ESCAPE_CHAR: byte := 0xFD

  predicate Special(b: byte) {
    b == NODE_START || b == NODE_END || b == ESCAPE_CHAR
  }

  // ---------------------------------------------------------------- escaping

  function EscapeByte(b: byte): seq<byte> {
    if Special(b) then [ESCAPE_CHAR, b] else [b]
  }

  /** What writeData puts into the file for `data` when its last argument is true. */
  function Escape(data: seq<byte>): seq<byte> {
    if data == [] then [] else EscapeByte(data[0]) + Escape(data[1..])
  }

  /** No escape byte of `raw` is left without the byte it escapes. */
  predicate WellEscaped(raw: seq<byte>) {
    if raw == [] then true
    else if raw[0] == ESCAPE_CHAR then |raw| >= 2 && WellEscaped(raw[2..])
    else WellEscaped(raw[1..])
  }

  function Unescape(raw: seq<byte>): seq<byte> {
    if raw == [] then []
    else if raw[0] == ESCAPE_CHAR then
      if |raw| >= 2 then [raw[1]] + Unescape(raw[2..]) else []
    else [raw[0]] + Unescape(raw[1..])
  }

  lemma {:induction false} EscapeConcat(a: seq<byte>, b: seq<byte>)
    ensures Escape(a + b) == Escape(a) + Escape(b)
  {
    if a == [] {
      assert a + b == b;
    } else {
      assert (a + b)[0] == a[0] && (a + b)[1..] == a[1..] + b;
      EscapeConcat(a[1..], b);
    }
  }

  /** Unescaping inverts escaping, and escaped data never ends in the middle of an escape. */
  lemma {:induction false} UnescapeEscape(data: seq<byte>)
    ensures Unescape(Escape(data)) == data
    ensures WellEscaped(Escape(data))
  {
    if data != [] {
      UnescapeEscape(data[1..]);
      var e := Escape(data);
      if Special(data[0]) {
        assert e[2..] == Escape(data[1..]);
      } else {
        assert e[1..] == Escape(data[1..]);
      }
    }
  }

  /** A well-escaped prefix can be unescaped on its own. */
  lemma {:induction false} UnescapeConcat(a: seq<byte>, b: seq<byte>)
    requires WellEscaped(a)
    ensures Unescape(a + b) == Unescape(a) + Unescape(b)
    ensures WellEscaped(a + b) <==> WellEscaped(b)
    decreases |a|
  {
    hide Unescape, WellEscaped;
    UnescapeStep(a);
    if a == [] {
      assert a + b == b;
    } else {
      var k := if a[0] == ESCAPE_CHAR then 2 else 1;
      UnescapeStep(a + b);
      assert (a + b)[k..] == a[k..] + b && (a + b)[0] == a[0];
      UnescapeConcat(a[k..], b);
      assert [a[k - 1]] + Unescape(a[k..]) + Unescape(b) == [a[k - 1]] + (Unescape(a[k..]) + Unescape(b));
    }
  }

  /** The first byte, or the first escaped pair. */
  lemma UnescapeStep(raw: seq<byte>)
    ensures raw == [] ==> Unescape(raw) == [] && WellEscaped(raw)
    ensures raw != [] && raw[0] == ESCAPE_CHAR ==>
              && (WellEscaped(raw) <==> |raw| >= 2 && WellEscaped(raw[2..]))
              && (|raw| >= 2 ==> Unescape(raw) == [raw[1]] + Unescape(raw[2..]))
    ensures raw != [] && raw[0] != ESCAPE_CHAR ==>
              (WellEscaped(raw) <==> WellEscaped(raw[1..])) && Unescape(raw) == [raw[0]] + Unescape(raw[1..])
  {
  }

  // ---------------------------------------------------------------- trees and their bytes

  /** Sibling list of nodes to be written: a node, its first child, its next sibling. */
  datatype Forest = NoNode | Node(ty: byte, props: seq<byte>, child: Forest, next: Forest)

  /** startNode(ty); setProps(props); the children; endNode(); then the siblings. */
  function Encode(w: Forest): seq<byte> {
    match w
    case NoNode => []
    case Node(ty, props, child, next) =>
      [NODE_START] + (EscapeByte(ty) + (Escape(props) + (Encode(child) + ([NODE_END] + Encode(next)))))
  }

  /** A node file: openFile writes a version of four zero bytes first. */
  function FileOf(w: Forest): seq<byte> {
    [0, 0, 0, 0] + Encode(w)
  }

  /** The fields parseNode stores into the NodeStruct objects it links together. */
  datatype Parsed = NoParsed | ParsedNode(start: nat, propsSize: nat, ty: byte, child: Parsed, next: Parsed)

  datatype ParseResult = Failed | Done(node: Parsed, pos: nat)

  // ---------------------------------------------------------------- the parser

  /** parseNode entered with the read position at the type byte, `start` being the position of
      the node's start byte.  A successful result carries the read position afterwards. */
  function ParseNode(f: seq<byte>, start: nat, p: nat): (r: ParseResult)
    requires start + 1 == p
    ensures r.Done? ==> p < r.pos <= |f|
    decreases |f| - p, 0
  {
    if p >= |f| then Failed else ScanNode(f, p + 1, start, f[p], -1, NoParsed)
  }

  /** The inner loop of parseNode at position `q`, for the node that started at `start`.
      `propsSize` is negative until a child has fixed it. */
  function ScanNode(f: seq<byte>, q: nat, start: nat, ty: byte, propsSize: int, child: Parsed): (r: ParseResult)
    requires start + 2 <= q <= |f|
    ensures r.Done? ==> q < r.pos <= |f|
    decreases |f| - q, 1
  {
    if q >= |f| then Failed
    else if f[q] == NODE_START then
      match ParseNode(f, q, q + 1)
      case Failed => Failed
      case Done(c, q') => ScanNode(f, q', start, ty, q - start - 2, c)
    else if f[q] == NODE_END then
      var size := if propsSize < 0 then q - start - 2 else propsSize;
      if q + 1 >= |f| then Done(ParsedNode(start, size, ty, child, NoParsed), q + 1)
      else if f[q + 1] == NODE_START then
        match ParseNode(f, q + 1, q + 2)
        case Failed => Failed
        case Done(n, q') => Done(ParsedNode(start, size, ty, child, n), q')
      else if f[q + 1] == NODE_END then
        // the second end byte belongs to the parent: the loader seeks back to it
        Done(ParsedNode(start, size, ty, child, NoParsed), q + 1)
      else Failed
    else if f[q] == ESCAPE_CHAR then
      if q + 1 >= |f| then Failed else ScanNode(f, q + 2, start, ty, propsSize, child)
    else ScanNode(f, q + 1, start, ty, propsSize, child)
  }

  /** The node parse that openFile starts after checking the first five bytes. */
  function ParseFile(f: seq<byte>): ParseResult {
    if |f| > 4 && f[4] == NODE_START then ParseNode(f, 4, 5) else Failed
  }

  /** Every node's property bytes lie inside the file and end on an escape boundary. */
  predicate InFile(f: seq<byte>, t: Parsed) {
    match t
    case NoParsed => true
    case ParsedNode(start, size, _, child, next) =>
      start + 2 + size <= |f| && WellEscaped(RawProps(f, start, size)) && InFile(f, child) && InFile(f, next)
  }

  function RawProps(f: seq<byte>, start: nat, size: nat): seq<byte>
    requires start + 2 + size <= |f|
  {
    f[start + 2..start + 2 + size]
  }

  /** What a reader of the parsed nodes sees: types, shape, and what getProps returns. */
  function Decode(f: seq<byte>, t: Parsed): Forest
    requires InFile(f, t)
  {
    match t
    case NoParsed => NoNode
    case ParsedNode(start, size, ty, child, next) =>
      Node(ty, Unescape(RawProps(f, start, size)), Decode(f, child), Decode(f, next))
  }

  // ---------------------------------------------------------------- facts about every parse

  /** The state of the scan between two iterations: the bytes read so far as properties are
      well escaped, and a child already parsed is a proper one. */
  ghost predicate ScanOk(f: seq<byte>, q: nat, start: nat, propsSize: int, child: Parsed)
    requires start + 2 <= q <= |f|
  {
    && InFile(f, child)
    && (propsSize < 0 ==> WellEscaped(f[start + 2..q]))
    && (propsSize >= 0 ==>
          start + 2 + propsSize <= |f| && WellEscaped(RawProps(f, start, propsSize))
          && (q == |f| || f[q] == NODE_END))
  }

  lemma WellEscapedSnoc(f: seq<byte>, a: nat, q: nat, k: nat)
    requires a <= q && q + k <= |f| && WellEscaped(f[a..q])
    requires if k == 2 then f[q] == ESCAPE_CHAR else k == 1 && f[q] != ESCAPE_CHAR
    ensures WellEscaped(f[a..q + k])
  {
    hide WellEscaped, Unescape;
    assert f[a..q + k] == f[a..q] + f[q..q + k];
    UnescapeConcat(f[a..q], f[q..q + k]);
    UnescapeStep(f[q..q + k]);
    assert f[q..q + k][k..] == [];
    UnescapeStep([]);
  }

  /** What is true of every successful result of a scan, whatever the bytes are. */
  ghost predicate Sound(f: seq<byte>, start: nat, ty: byte, r: ParseResult) {
    r.Done? ==>
      && r.pos <= |f| && (r.pos == |f| || f[r.pos] == NODE_END)
      && InFile(f, r.node) && r.node.ParsedNode? && r.node.start == start && r.node.ty == ty
  }

  /** A child already parsed, and the property size it fixed, stay what they are; otherwise the
      properties reach at least up to the scan position. */
  ghost predicate Keeps(q: nat, start: nat, propsSize: int, child: Parsed, r: ParseResult) {
    r.Done? && r.node.ParsedNode? ==>
      if propsSize >= 0 then r.node.propsSize == propsSize && r.node.child == child
      else q <= start + 2 + r.node.propsSize
  }

  /** Whatever the bytes are, a successful parse leaves the read position at the end of the file
      or on an end byte, and describes properties getProps can read. */
  lemma {:induction false} ParseNodeSound(f: seq<byte>, start: nat, p: nat)
    requires start + 1 == p < |f|
    ensures Sound(f, start, f[p], ParseNode(f, start, p))
    decreases |f| - p, 0
  {
    assert f[start + 2..p + 1] == [];
    ScanNodeSound(f, p + 1, start, f[p], -1, NoParsed);
  }

  lemma {:induction false} ScanNodeSound(f: seq<byte>, q: nat, start: nat, ty: byte, propsSize: int, child: Parsed)
    requires start + 2 <= q <= |f| && ScanOk(f, q, start, propsSize, child)
    ensures var r := ScanNode(f, q, start, ty, propsSize, child);
            Sound(f, start, ty, r) && Keeps(q, start, propsSize, child, r)
    decreases |f| - q, 1
  {
    hide WellEscaped, Unescape;
    if q >= |f| {
    } else if f[q] == NODE_START {
      if q + 1 < |f| {
        ParseNodeSound(f, q, q + 1);
        var c := ParseNode(f, q, q + 1);
        if c.Done? { ScanNodeSound(f, c.pos, start, ty, q - start - 2, c.node); }
      }
    } else if f[q] == NODE_END {
      ScanEndSound(f, q, start, ty, propsSize, child);
    } else {
      var k := if f[q] == ESCAPE_CHAR then 2 else 1;
      if q + k <= |f| {
        if propsSize < 0 { WellEscapedSnoc(f, start + 2, q, k); }
        ScanNodeSound(f, q + k, start, ty, propsSize, child);
      }
    }
  }

  lemma {:induction false} ScanEndSound(f: seq<byte>, q: nat, start: nat, ty: byte, propsSize: int, child: Parsed)
    requires start + 2 <= q < |f| && ScanOk(f, q, start, propsSize, child) && f[q] == NODE_END
    ensures var r := ScanNode(f, q, start, ty, propsSize, child);
            Sound(f, start, ty, r) && Keeps(q, start, propsSize, child, r)
    decreases |f| - q, 0
  {
    if q + 2 < |f| && f[q + 1] == NODE_START {
      ParseNodeSound(f, q + 1, q + 2);
    }
  }

  // ---------------------------------------------------------------- which forests survive

  /** `props` starts with some escape bytes (possibly none) followed by an ordinary byte. */
  predicate CleanStart(props: seq<byte>) {
    props != [] && (!Special(props[0]) || (props[0] == ESCAPE_CHAR && CleanStart(props[1..])))
  }

  /** startNode escapes the type byte but parseNode reads it unescaped, so a special type byte
      leaves a stray byte in front of the properties.  An escape byte as the type is harmless
      exactly when the properties absorb that stray byte. */
  predicate NodeSurvives(ty: byte, props: seq<byte>) {
    !Special(ty) || (ty == ESCAPE_CHAR && CleanStart(props))
  }

  predicate Survives(w: Forest) {
    match w
    case NoNode => true
    case Node(ty, props, child, next) => NodeSurvives(ty, props) && Survives(child) && Survives(next)
  }

  /** All node types are ordinary bytes: the case the format is meant for. */
  predicate OrdinaryTypes(w: Forest) {
    match w
    case NoNode => true
    case Node(ty, _, child, next) => ty < ESCAPE_CHAR && OrdinaryTypes(child) && OrdinaryTypes(next)
  }

  lemma {:induction w} OrdinarySurvives(w: Forest)
    requires OrdinaryTypes(w)
    ensures Survives(w)
  {
  }

  /** The bytes between a node's type byte and its first unescaped start or end byte. */
  function PropBytes(ty: byte, props: seq<byte>): seq<byte> {
    (if Special(ty) then [ty] else []) + Escape(props)
  }

  ghost predicate At(f: seq<byte>, p: nat, s: seq<byte>) {
    p + |s| <= |f| && f[p..p + |s|] == s
  }

  lemma AtSplit(f: seq<byte>, p: nat, a: seq<byte>, b: seq<byte>)
    ensures At(f, p, a + b) <==> At(f, p, a) && At(f, p + |a|, b)
  {
    if p + |a + b| <= |f| {
      assert f[p..p + |a + b|] == f[p..p + |a|] + f[p + |a|..p + |a| + |b|];
      assert (a + b)[..|a|] == a && (a + b)[|a|..] == b;
    }
  }

  lemma AtByte(f: seq<byte>, p: nat, s: seq<byte>, i: nat)
    requires At(f, p, s) && i < |s|
    ensures p + i < |f| && f[p + i] == s[i]
  {
    assert f[p..p + |s|][i] == s[i];
  }

  function FirstTypeByte(ty: byte): byte {
    if Special(ty) then ESCAPE_CHAR else ty
  }

  /** The number of bytes a forest takes. */
  function Size(w: Forest): nat {
    match w
    case NoNode => 0
    case Node(ty, props, child, next) => 3 + |PropBytes(ty, props)| + Size(child) + Size(next)
  }

  /** Where the first byte behind the properties, and the end byte, of a node written at `p` lie. */
  function PropsEnd(p: nat, w: Forest): nat
    requires w.Node?
  {
    p + 2 + |PropBytes(w.ty, w.props)|
  }

  function NodeEnd(p: nat, w: Forest): nat
    requires w.Node?
  {
    PropsEnd(p, w) + Size(w.child)
  }

  /** The parts of the forest written at `p`, each at its place. */
  ghost predicate Laid(f: seq<byte>, p: nat, w: Forest)
    decreases w
  {
    match w
    case NoNode => p <= |f|
    case Node(ty, props, child, next) =>
      var q := PropsEnd(p, w);
      var e := NodeEnd(p, w);
      && e < |f| && f[p] == NODE_START && f[p + 1] == FirstTypeByte(ty)
      && At(f, p + 2, PropBytes(ty, props))
      && Laid(f, q, child) && f[e] == NODE_END && Laid(f, e + 1, next)
  }

  lemma EncodeParts(w: Forest)
    requires w.Node?
    ensures Encode(w) == [NODE_START, FirstTypeByte(w.ty)] + (PropBytes(w.ty, w.props) + (Encode(w.child) + ([NODE_END] + Encode(w.next))))
  {
    var tail := Encode(w.child) + ([NODE_END] + Encode(w.next));
    HeadParts(w.ty, Escape(w.props), tail);
  }

  lemma HeadParts(ty: byte, e: seq<byte>, tail: seq<byte>)
    ensures [NODE_START] + (EscapeByte(ty) + (e + tail))
            == [NODE_START, FirstTypeByte(ty)] + (((if Special(ty) then [ty] else []) + e) + tail)
  {
  }

  lemma SplitFive(f: seq<byte>, p: nat, a: seq<byte>, b: seq<byte>, c: seq<byte>, d: seq<byte>, e: seq<byte>)
    requires At(f, p, a + (b + (c + (d + e))))
    ensures At(f, p, a) && At(f, p + |a|, b) && At(f, p + |a| + |b|, c)
    ensures At(f, p + |a| + |b| + |c|, d) && At(f, p + |a| + |b| + |c| + |d|, e)
  {
    AtSplit(f, p, a, b + (c + (d + e)));
    AtSplit(f, p + |a|, b, c + (d + e));
    AtSplit(f, p + |a| + |b|, c, d + e);
    AtSplit(f, p + |a| + |b| + |c|, d, e);
  }

  /** The split of five parts, for parts that are not unfolded. */
  lemma LayParts(f: seq<byte>, p: nat, first: byte, raw: seq<byte>, kids: seq<byte>, sibs: seq<byte>)
    requires At(f, p, [NODE_START, first] + (raw + (kids + ([NODE_END] + sibs))))
    ensures var q := p + 2 + |raw|; var e := q + |kids|;
            && e + 1 + |sibs| <= |f| && f[p] == NODE_START && f[p + 1] == first
            && At(f, p + 2, raw) && At(f, q, kids) && f[e] == NODE_END && At(f, e + 1, sibs)
  {
    SplitFive(f, p, [NODE_START, first], raw, kids, [NODE_END], sibs);
    AtByte(f, p, [NODE_START, first], 0);
    AtByte(f, p, [NODE_START, first], 1);
    AtByte(f, p + 2 + |raw| + |kids|, [NODE_END], 0);
  }

  lemma {:induction false} EncodeLayout(f: seq<byte>, p: nat, w: Forest)
    requires At(f, p, Encode(w))
    ensures Laid(f, p, w) && Size(w) == |Encode(w)|
    decreases w
  {
    hide Escape, PropBytes, EscapeByte, FirstTypeByte, Encode, At;
    if w.Node? {
      EncodeParts(w);
      var raw := PropBytes(w.ty, w.props);
      EncodeSize(FirstTypeByte(w.ty), raw, Encode(w.child), Encode(w.next));
      LayParts(f, p, FirstTypeByte(w.ty), raw, Encode(w.child), Encode(w.next));
      EncodeLayout(f, PropsEnd(p, w), w.child);
      EncodeLayout(f, p + 3 + |raw| + |Encode(w.child)|, w.next);
    } else {
      NothingEncoded(f, p);
    }
  }

  lemma NothingEncoded(f: seq<byte>, p: nat)
    ensures Encode(NoNode) == [] && (At(f, p, []) ==> p <= |f|)
  {
  }

  lemma EncodeSize(first: byte, raw: seq<byte>, kids: seq<byte>, sibs: seq<byte>)
    ensures |[NODE_START, first] + (raw + (kids + ([NODE_END] + sibs)))| == 3 + |raw| + |kids| + |sibs|
  {
  }

  // ---------------------------------------------------------------- scanning properties

  /** The scan walks over well-escaped bytes that hold no bare start or end byte. */
  predicate Scannable(raw: seq<byte>) {
    if raw == [] then true
    else if raw[0] == ESCAPE_CHAR then |raw| >= 2 && Scannable(raw[2..])
    else !Special(raw[0]) && Scannable(raw[1..])
  }

  lemma {:induction false} ScanOver(f: seq<byte>, q: nat, start: nat, ty: byte, raw: seq<byte>)
    requires start + 2 <= q && At(f, q, raw) && Scannable(raw)
    ensures ScanNode(f, q, start, ty, -1, NoParsed) == ScanNode(f, q + |raw|, start, ty, -1, NoParsed)
    decreases |raw|
  {
    if raw != [] {
      assert f[q] == raw[0];
      var k := if raw[0] == ESCAPE_CHAR then 2 else 1;
      assert raw == raw[..k] + raw[k..];
      AtSplit(f, q, raw[..k], raw[k..]);
      ScanOver(f, q + k, start, ty, raw[k..]);
    }
  }

  lemma {:induction false} EscapeScannable(props: seq<byte>)
    ensures Scannable(Escape(props))
  {
    if props != [] {
      EscapeScannable(props[1..]);
      var e := Escape(props);
      assert e[|EscapeByte(props[0])|..] == Escape(props[1..]);
    }
  }

  /** With an escape byte as the type, a clean start makes the pairing come out right. */
  lemma {:induction false} ShiftedScannable(props: seq<byte>)
    requires CleanStart(props)
    ensures Scannable([ESCAPE_CHAR] + Escape(props))
    ensures Unescape([ESCAPE_CHAR] + Escape(props)) == props
  {
    hide Unescape, WellEscaped, Scannable;
    var raw := [ESCAPE_CHAR] + Escape(props);
    UnescapeStep(raw);
    ScannableStep(raw);
    assert raw[1] == if Special(props[0]) then ESCAPE_CHAR else props[0];
    assert props == [props[0]] + props[1..];
    if !Special(props[0]) {
      assert raw[2..] == Escape(props[1..]);
      EscapeScannable(props[1..]);
      UnescapeEscape(props[1..]);
    } else {
      assert raw[2..] == [ESCAPE_CHAR] + Escape(props[1..]);
      ShiftedScannable(props[1..]);
    }
  }

  lemma ScannableStep(raw: seq<byte>)
    ensures |raw| >= 2 && raw[0] == ESCAPE_CHAR ==> (Scannable(raw) <==> Scannable(raw[2..]))
  {
  }

  lemma PropBytesSurvive(ty: byte, props: seq<byte>)
    requires NodeSurvives(ty, props)
    ensures Scannable(PropBytes(ty, props)) && Unescape(PropBytes(ty, props)) == props
  {
    if Special(ty) {
      ShiftedScannable(props);
    } else {
      assert PropBytes(ty, props) == Escape(props);
      EscapeScannable(props);
      UnescapeEscape(props);
    }
  }

  /** Any other special type byte: what comes back as properties differs from what was written.
      `q` is where the stray byte lies, in front of the escaped properties and of the start or
      end byte that follows them. */
  ghost predicate Lost(f: seq<byte>, q: nat, props: seq<byte>, r: ParseResult) {
    r.Done? && r.node.ParsedNode? ==>
      var e := r.node.start + 2 + r.node.propsSize;
      q <= e <= |f| && Unescape(f[q..e]) != props
  }

  lemma UnescapePair(f: seq<byte>, q: nat, e: nat)
    requires q + 2 <= e <= |f| && f[q] == ESCAPE_CHAR
    ensures Unescape(f[q..e]) == [f[q + 1]] + Unescape(f[q + 2..e])
  {
    var s := f[q..e];
    assert s[0] == f[q] && s[1] == f[q + 1] && s[2..] == f[q + 2..e];
  }

  /** One escaped pair of the scan. */
  lemma ScanPair(f: seq<byte>, q: nat, start: nat, ty: byte)
    requires start + 2 <= q && q + 2 <= |f| && f[q] == ESCAPE_CHAR && WellEscaped(f[start + 2..q])
    ensures ScanNode(f, q, start, ty, -1, NoParsed) == ScanNode(f, q + 2, start, ty, -1, NoParsed)
    ensures var r := ScanNode(f, q, start, ty, -1, NoParsed);
            Sound(f, start, ty, r) && Keeps(q + 2, start, -1, NoParsed, r)
    ensures WellEscaped(f[start + 2..q + 2])
  {
    WellEscapedSnoc(f, start + 2, q, 2);
    ScanNodeSound(f, q + 2, start, ty, -1, NoParsed);
  }

  /** At a start or end byte the property size is fixed. */
  lemma ScanStops(f: seq<byte>, q: nat, start: nat, ty: byte)
    requires start + 2 <= q < |f| && (f[q] == NODE_START || f[q] == NODE_END) && WellEscaped(f[start + 2..q])
    ensures var r := ScanNode(f, q, start, ty, -1, NoParsed);
            r.Done? ==> r.node.ParsedNode? && r.node.propsSize == q - start - 2
  {
    if f[q] == NODE_START && q + 1 < |f| {
      ParseNodeSound(f, q, q + 1);
      var c := ParseNode(f, q, q + 1);
      if c.Done? { ScanNodeSound(f, c.pos, start, ty, q - start - 2, c.node); }
    }
  }

  lemma {:induction false} BadScan(f: seq<byte>, q: nat, start: nat, ty: byte, props: seq<byte>, stop: byte)
    requires start + 2 <= q && At(f, q, [ESCAPE_CHAR] + Escape(props) + [stop])
    requires stop == NODE_START || stop == NODE_END
    requires !CleanStart(props)
    requires WellEscaped(f[start + 2..q])
    ensures Lost(f, q, props, ScanNode(f, q, start, ty, -1, NoParsed))
    decreases |props|
  {
    hide ScanNode, ParseNode, WellEscaped, Unescape, InFile, At, Escape;
    RawStart(f, q, props, stop);
    ScanPair(f, q, start, ty);
    var r := ScanNode(f, q, start, ty, -1, NoParsed);
    if props != [] {
      if props[0] == ESCAPE_CHAR {
        BadScan(f, q + 2, start, ty, props[1..], stop);
      } else {
        ScanStops(f, q + 2, start, ty);
      }
    }
    if r.Done? {
      var e := start + 2 + r.node.propsSize;
      NodeFits(f, start, ty, r);
      UnescapePair(f, q, e);
      if props != [] && props[0] == ESCAPE_CHAR {
        assert [ESCAPE_CHAR] + props[1..] == props;
      } else {
        assert f[q + 2..q + 2] == [];
        NothingUnescaped();
      }
    }
  }

  /** How the property bytes begin when the type byte is an escape byte and no clean start follows. */
  lemma RawStart(f: seq<byte>, q: nat, props: seq<byte>, stop: byte)
    requires At(f, q, [ESCAPE_CHAR] + Escape(props) + [stop]) && !CleanStart(props)
    ensures q + 2 <= |f| && f[q] == ESCAPE_CHAR && f[q + 1] == (if props == [] then stop else ESCAPE_CHAR)
    ensures props != [] && props[0] == ESCAPE_CHAR ==> At(f, q + 2, [ESCAPE_CHAR] + Escape(props[1..]) + [stop])
    ensures props != [] && props[0] != ESCAPE_CHAR ==> q + 2 < |f| && f[q + 2] == props[0] && Special(props[0])
  {
    hide CleanStart, Escape, At;
    var raw := [ESCAPE_CHAR] + Escape(props) + [stop];
    AtByte(f, q, raw, 0);
    EscapeStarts(props);
    AtByte(f, q, raw, 1);
    if props != [] {
      StartsSpecial(props);
      AtByte(f, q, raw, 2);
      if props[0] == ESCAPE_CHAR {
        assert raw == [ESCAPE_CHAR, ESCAPE_CHAR] + ([ESCAPE_CHAR] + Escape(props[1..]) + [stop]);
        AtSplit(f, q, [ESCAPE_CHAR, ESCAPE_CHAR], [ESCAPE_CHAR] + Escape(props[1..]) + [stop]);
      }
    }
  }

  lemma EscapeStarts(props: seq<byte>)
    ensures props == [] ==> Escape(props) == []
    ensures props != [] && Special(props[0]) ==> Escape(props) == [ESCAPE_CHAR, props[0]] + Escape(props[1..])
  {
  }

  lemma StartsSpecial(props: seq<byte>)
    requires props != [] && !CleanStart(props)
    ensures Special(props[0])
  {
  }

  lemma NodeFits(f: seq<byte>, start: nat, ty: byte, r: ParseResult)
    requires Sound(f, start, ty, r) && r.Done?
    ensures r.node.ParsedNode? && r.node.start == start && start + 2 + r.node.propsSize <= |f|
  {
    hide WellEscaped;
  }

  lemma NothingUnescaped()
    ensures Unescape([]) == []
  {
  }

  // ---------------------------------------------------------------- the round trip

  /** The result describes `w` exactly. */
  ghost predicate Yields(f: seq<byte>, r: ParseResult, w: Forest) {
    r.Done? && InFile(f, r.node) && Decode(f, r.node) == w
  }

  ghost predicate YieldsTo(f: seq<byte>, r: ParseResult, w: Forest, pos: nat) {
    Yields(f, r, w) && r.pos == pos
  }

  /** An encoded node stands in front of the end of the file or of its parent's end byte. */
  ghost predicate Closed(f: seq<byte>, q: nat) {
    q == |f| || (q < |f| && f[q] == NODE_END)
  }

  lemma {:induction raw} ScannableWellEscaped(raw: seq<byte>)
    requires Scannable(raw)
    ensures WellEscaped(raw)
    decreases |raw|
  {
  }

  /** The scan of a surviving node's properties reaches the byte behind them. */
  lemma ScanProps(f: seq<byte>, p: nat, w: Forest)
    requires w.Node? && Laid(f, p, w) && NodeSurvives(w.ty, w.props)
    ensures var q := PropsEnd(p, w);
            && q < |f|
            && ParseNode(f, p, p + 1) == ScanNode(f, q, p, w.ty, -1, NoParsed)
            && WellEscaped(RawProps(f, p, q - p - 2)) && Unescape(RawProps(f, p, q - p - 2)) == w.props
  {
    hide Escape, PropBytes, Unescape, Scannable, WellEscaped, ScanNode;
    PropBytesSurvive(w.ty, w.props);
    ScanOver(f, p + 2, p, w.ty, PropBytes(w.ty, w.props));
    ScannableWellEscaped(PropBytes(w.ty, w.props));
  }

  /** With the child's result known, the scan goes on where the child's parse stopped. */
  lemma ScanChild(f: seq<byte>, q: nat, p: nat, ty: byte, propsSize: int, child: Parsed)
    requires p + 2 <= q < |f| && f[q] == NODE_START
    ensures var c := ParseNode(f, q, q + 1);
            ScanNode(f, q, p, ty, propsSize, child) ==
              if c.Failed? then Failed else ScanNode(f, c.pos, p, ty, q - p - 2, c.node)
  {
  }

  /** Other bytes are skipped, an escape byte together with the one it escapes. */
  lemma ScanSkip(f: seq<byte>, q: nat, p: nat, ty: byte, propsSize: int, child: Parsed)
    requires p + 2 <= q <= |f| && (q < |f| ==> f[q] != NODE_START && f[q] != NODE_END)
    ensures ScanNode(f, q, p, ty, propsSize, child) ==
              if q == |f| || (f[q] == ESCAPE_CHAR && q + 1 == |f|) then Failed
              else ScanNode(f, if f[q] == ESCAPE_CHAR then q + 2 else q + 1, p, ty, propsSize, child)
  {
  }

  /** At its end byte the node is complete but for its siblings. */
  lemma ScanEnd(f: seq<byte>, e: nat, p: nat, ty: byte, propsSize: int, child: Parsed)
    requires p + 2 <= e < |f| && f[e] == NODE_END
    ensures var size := if propsSize < 0 then e - p - 2 else propsSize;
            ScanNode(f, e, p, ty, propsSize, child) ==
              if Closed(f, e + 1) then Done(ParsedNode(p, size, ty, child, NoParsed), e + 1)
              else if f[e + 1] != NODE_START then Failed
              else var n := ParseNode(f, e + 1, e + 2);
                   if n.Failed? then Failed else Done(ParsedNode(p, size, ty, child, n.node), n.pos)
  {
  }

  /** The parse of a surviving node up to its end byte, given that its children come back. */
  lemma ScanKids(f: seq<byte>, p: nat, w: Forest) returns (child: Parsed)
    requires w.Node? && Laid(f, p, w) && NodeSurvives(w.ty, w.props)
    requires w.child.Node? ==> var c := ParseNode(f, PropsEnd(p, w), PropsEnd(p, w) + 1);
                               Yields(f, c, w.child) && c.pos == NodeEnd(p, w)
    ensures InFile(f, child) && Decode(f, child) == w.child
    ensures var q, e := PropsEnd(p, w), NodeEnd(p, w);
            && q <= e < |f| && (w.child.NoNode? ==> q == e)
            && ParseNode(f, p, p + 1) == ScanNode(f, e, p, w.ty, if w.child.Node? then q - p - 2 else -1, child)
  {
    hide PropBytes, Unescape, At, WellEscaped;
    ScanProps(f, p, w);
    child := NoParsed;
    if w.child.Node? {
      var q := PropsEnd(p, w);
      ScanChild(f, q, p, w.ty, -1, NoParsed);
      child := ParseNode(f, q, q + 1).node;
    }
  }

  /** A node comes back if its properties, its children and its siblings do. */
  lemma NodeYields(f: seq<byte>, p: nat, size: nat, w: Forest, child: Parsed, next: Parsed)
    requires w.Node? && p + 2 + size <= |f|
    requires WellEscaped(RawProps(f, p, size)) && Unescape(RawProps(f, p, size)) == w.props
    requires InFile(f, child) && Decode(f, child) == w.child
    ensures var t := ParsedNode(p, size, w.ty, child, next);
            InFile(f, t) && Decode(f, t) == w <==> InFile(f, next) && Decode(f, next) == w.next
  {
  }

  /** From the end byte on: the node comes back exactly when its siblings do. */
  lemma ScanSiblings(f: seq<byte>, p: nat, w: Forest)
    requires w.Node? && Laid(f, p, w) && Closed(f, p + Size(w)) && NodeSurvives(w.ty, w.props)
    requires w.child.Node? ==> var c := ParseNode(f, PropsEnd(p, w), PropsEnd(p, w) + 1);
                               Yields(f, c, w.child) && c.pos == NodeEnd(p, w)
    ensures NodeEnd(p, w) < |f|
    ensures w.next.NoNode? ==> YieldsTo(f, ParseNode(f, p, p + 1), w, p + Size(w))
    ensures w.next.Node? ==>
              var e := NodeEnd(p, w);
              && e + 1 < |f|
              && (YieldsTo(f, ParseNode(f, p, p + 1), w, p + Size(w))
                  <==> YieldsTo(f, ParseNode(f, e + 1, e + 2), w.next, e + 1 + Size(w.next)))
              && (Yields(f, ParseNode(f, p, p + 1), w) <==> Yields(f, ParseNode(f, e + 1, e + 2), w.next))
  {
    hide PropBytes, At, WellEscaped, Unescape, ParseNode, ScanNode, Decode, InFile, Laid, Size, PropsEnd, NodeEnd;
    var q, e := PropsEnd(p, w), NodeEnd(p, w);
    EndOf(f, p, w);
    var child := ScanKids(f, p, w);
    ScanProps(f, p, w);
    ScanEnd(f, e, p, w.ty, if w.child.Node? then q - p - 2 else -1, child);
    if w.next.Node? {
      var n := ParseNode(f, e + 1, e + 2);
      if n.Done? { NodeYields(f, p, q - p - 2, w, child, n.node); }
    } else {
      NodeYields(f, p, q - p - 2, w, child, NoParsed);
      NothingYields(f);
    }
  }

  /** What lies at a node's end byte, and behind it. */
  lemma EndOf(f: seq<byte>, p: nat, w: Forest)
    requires w.Node? && Laid(f, p, w) && Closed(f, p + Size(w))
    ensures var e := NodeEnd(p, w);
            && p + 2 <= PropsEnd(p, w) <= e < |f| && f[e] == NODE_END && p + Size(w) == e + 1 + Size(w.next)
            && (if w.next.NoNode? then Size(w.next) == 0 && Closed(f, e + 1)
                else e + 1 < |f| && f[e + 1] == NODE_START && Laid(f, e + 1, w.next))
  {
    hide PropBytes, At;
  }

  lemma NothingYields(f: seq<byte>)
    ensures InFile(f, NoParsed) && Decode(f, NoParsed) == NoNode
  {
  }

  /** Parsing the bytes of a surviving forest, in front of the end of the file or of the parent's
      end byte, gives back that forest and stops right behind it. */
  lemma {:induction false} ParseEncode(f: seq<byte>, p: nat, w: Forest)
    requires w.Node? && Survives(w) && Laid(f, p, w) && Closed(f, p + Size(w))
    ensures YieldsTo(f, ParseNode(f, p, p + 1), w, p + Size(w))
    decreases w
  {
    hide ParseNode, PropBytes, At, Decode, InFile;
    if w.child.Node? { ParseEncode(f, PropsEnd(p, w), w.child); }
    ScanSiblings(f, p, w);
    if w.next.Node? { ParseEncode(f, NodeEnd(p, w) + 1, w.next); }
  }

  /** ... and a forest that does not survive never comes back, wherever it stands. */
  lemma {:induction false} ParseEncodeFails(f: seq<byte>, p: nat, w: Forest)
    requires w.Node? && !Survives(w) && Laid(f, p, w) && Closed(f, p + Size(w))
    ensures !Yields(f, ParseNode(f, p, p + 1), w)
    decreases w
  {
    hide ParseNode, PropBytes, At, Decode, InFile;
    var q := PropsEnd(p, w);
    if !NodeSurvives(w.ty, w.props) {
      BadNode(f, p, w);
    } else if !Survives(w.child) {
      ParseEncodeFails(f, q, w.child);
      BadChild(f, p, w);
    } else {
      if w.child.Node? { ParseEncode(f, q, w.child); }
      ScanSiblings(f, p, w);
      ParseEncodeFails(f, NodeEnd(p, w) + 1, w.next);
    }
  }

  lemma BadChild(f: seq<byte>, p: nat, w: Forest)
    requires w.Node? && Laid(f, p, w) && NodeSurvives(w.ty, w.props) && w.child.Node?
    requires !Yields(f, ParseNode(f, PropsEnd(p, w), PropsEnd(p, w) + 1), w.child)
    ensures !Yields(f, ParseNode(f, p, p + 1), w)
  {
    hide PropBytes, At, WellEscaped, Unescape, ParseNode, ScanNode;
    var q := PropsEnd(p, w);
    ScanProps(f, p, w);
    ScanChild(f, q, p, w.ty, -1, NoParsed);
    var c := ParseNode(f, q, q + 1);
    if c.Done? {
      ParseNodeSound(f, q, q + 1);
      ScanNodeSound(f, c.pos, p, w.ty, q - p - 2, c.node);
    }
  }

  /** The first bytes of a node, and the byte behind its properties. */
  lemma LaidHead(f: seq<byte>, p: nat, w: Forest)
    requires w.Node? && Laid(f, p, w)
    ensures var q := PropsEnd(p, w);
            && p + 2 <= q < |f| && f[p + 1] == FirstTypeByte(w.ty) && (f[q] == NODE_START || f[q] == NODE_END)
            && At(f, p + 2, PropBytes(w.ty, w.props))
    ensures ParseNode(f, p, p + 1) == ScanNode(f, p + 2, p, f[p + 1], -1, NoParsed)
  {
    hide ScanNode, PropBytes, At;
  }

  /** What yields a node has its type and its properties. */
  lemma YieldsHead(f: seq<byte>, r: ParseResult, w: Forest)
    requires w.Node? && Yields(f, r, w)
    ensures r.Done? && r.node.ParsedNode? && r.node.ty == w.ty && r.node.start + 2 + r.node.propsSize <= |f|
    ensures Unescape(f[r.node.start + 2..r.node.start + 2 + r.node.propsSize]) == w.props
  {
  }

  lemma BadNode(f: seq<byte>, p: nat, w: Forest)
    requires w.Node? && Laid(f, p, w) && !NodeSurvives(w.ty, w.props)
    ensures !Yields(f, ParseNode(f, p, p + 1), w)
  {
    hide ParseNode, ScanNode, Escape, Encode, Laid, Yields, Unescape, WellEscaped, At, CleanStart;
    LaidHead(f, p, w);
    ParseNodeSound(f, p, p + 1);
    var r := ParseNode(f, p, p + 1);
    if w.ty == ESCAPE_CHAR {
      LostNode(f, p, w);
    }
    if Yields(f, r, w) {
      YieldsHead(f, r, w);
    }
  }

  lemma LostNode(f: seq<byte>, p: nat, w: Forest)
    requires w.Node? && Laid(f, p, w) && w.ty == ESCAPE_CHAR && !CleanStart(w.props)
    ensures p + 1 < |f| && Lost(f, p + 2, w.props, ParseNode(f, p, p + 1))
  {
    hide ParseNode, ScanNode, Escape, Encode, Laid, CleanStart;
    LaidHead(f, p, w);
    var q := PropsEnd(p, w);
    assert f[p + 2..p + 2] == [];
    AtSnoc(f, p + 2, PropBytes(w.ty, w.props), f[q]);
    BadScan(f, p + 2, p, ESCAPE_CHAR, w.props, f[q]);
  }

  lemma AtSnoc(f: seq<byte>, p: nat, s: seq<byte>, b: byte)
    requires At(f, p, s) && p + |s| < |f| && f[p + |s|] == b
    ensures At(f, p, s + [b])
  {
  }

  /** Reading a written node file back yields the written types, shape and property bytes. */
  ghost predicate RoundTrips(w: Forest) {
    var r := ParseFile(FileOf(w));
    r.Done? && InFile(FileOf(w), r.node) && Decode(FileOf(w), r.node) == w
  }

  /** The forest lies in its file behind the version bytes, up to the end. */
  lemma FileLaid(w: Forest)
    ensures Laid(FileOf(w), 4, w) && 4 + Size(w) == |FileOf(w)| && |FileOf(w)| >= 4
  {
    hide Laid, Encode;
    var f := FileOf(w);
    assert f[4..4 + |Encode(w)|] == Encode(w);
    EncodeLayout(f, 4, w);
  }

  /** Parsing the file is parsing the node behind the version bytes. */
  lemma FileParse(w: Forest)
    requires w.Node?
    ensures ParseFile(FileOf(w)) == ParseNode(FileOf(w), 4, 5)
    ensures RoundTrips(w) <==> Yields(FileOf(w), ParseNode(FileOf(w), 4, 5), w)
  {
    hide ParseNode, Decode, InFile;
    assert |Encode(w)| > 0 && FileOf(w)[4] == Encode(w)[0] == NODE_START;
  }

  /** The round trip holds for exactly the surviving forests. */
  lemma RoundTripIff(w: Forest)
    requires w.Node?
    ensures RoundTrips(w) <==> Survives(w)
  {
    hide RoundTrips, Yields, Laid, Encode, FileOf, ParseNode, Survives, Size;
    var f := FileOf(w);
    FileLaid(w);
    FileParse(w);
    if Survives(w) { ParseEncode(f, 4, w); } else { ParseEncodeFails(f, 4, w); }
  }

  /** For example a single node whose type is the start byte does not come back. */
  lemma SpecialTypeIsLost()
    ensures !RoundTrips(Node(NODE_START, [], NoNode, NoNode))
  {
    RoundTripIff(Node(NODE_START, [], NoNode, NoNode));
  }

  /** In particular for every tree whose node types are below the special bytes. */
  lemma RoundTrip(w: Forest)
    requires w.Node? && OrdinaryTypes(w)
    ensures RoundTrips(w) && ParseFile(FileOf(w)).pos == |FileOf(w)|
  {
    hide RoundTrips, Yields, Laid, Encode, FileOf, ParseNode, ParseFile, Survives, OrdinaryTypes, Size;
    OrdinarySurvives(w);
    FileLaid(w);
    FileParse(w);
    ParseEncode(FileOf(w), 4, w);
  }

  // ---------------------------------------------------------------- the bytes themselves

  lemma {:induction false} EncodeEnds(w: Forest)
    requires w.Node?
    ensures |Encode(w)| >= 3 && Encode(w)[0] == 0xFE && Encode(w)[|Encode(w)| - 1] == 0xFF
  {
    if w.next.Node? { EncodeEnds(w.next); }
  }

  /** A file with nodes in it begins with the version and 0xFE and ends with 0xFF. */
  lemma FileEnds(w: Forest)
    requires w.Node?
    ensures FileOf(w)[..5] == [0, 0, 0, 0, 0xFE] && FileOf(w)[|FileOf(w)| - 1] == 0xFF
  {
    EncodeEnds(w);
  }

  /** A node of type 1 with the properties FD 07 FE, and in it one of type 2 without any. */
  const SAMPLE := Node(1, [0xFD, 7, 0xFE], Node(2, [], NoNode, NoNode), NoNode)

  const SAMPLE_FILE: seq<byte> := [0, 0, 0, 0, 0xFE, 1, 0xFD, 0xFD, 7, 0xFD, 0xFE, 0xFE, 2, 0xFF, 0xFF]

  /** Its bytes, and what parsing them yields: the child starts at position 11. */
  lemma SampleBytes()
    ensures FileOf(SAMPLE) == SAMPLE_FILE && RoundTrips(SAMPLE)
    ensures ParseFile(SAMPLE_FILE) == Done(ParsedNode(4, 5, 1, ParsedNode(11, 0, 2, NoParsed, NoParsed), NoParsed), 15)
  {
    SampleEncodes();
    RoundTrip(SAMPLE);
    SampleParses();
  }

  lemma SampleEncodes()
    ensures FileOf(SAMPLE) == SAMPLE_FILE
  {
    assert Escape([0xFE]) == [0xFD, 0xFE];
    assert Escape([7, 0xFE]) == [7, 0xFD, 0xFE] by { assert [7, 0xFE][1..] == [0xFE as byte]; }
    assert Escape([0xFD, 7, 0xFE]) == [0xFD, 0xFD, 7, 0xFD, 0xFE] by { assert [0xFD, 7, 0xFE][1..] == [7 as byte, 0xFE]; }
    assert Encode(Node(2, [], NoNode, NoNode)) == [0xFE, 2, 0xFF];
  }

  /** The scan of these bytes, backwards from its end. */
  lemma SampleParses()
    ensures ParseFile(SAMPLE_FILE) == Done(ParsedNode(4, 5, 1, ParsedNode(11, 0, 2, NoParsed, NoParsed), NoParsed), 15)
  {
    var f := SAMPLE_FILE;
    var child := ParsedNode(11, 0, 2, NoParsed, NoParsed);
    assert ScanNode(f, 13, 11, 2, -1, NoParsed) == Done(child, 14);
    assert ParseNode(f, 11, 12) == Done(child, 14);
    assert ScanNode(f, 14, 4, 1, 5, child) == Done(ParsedNode(4, 5, 1, child, NoParsed), 15);
    assert ScanNode(f, 11, 4, 1, -1, NoParsed) == ScanNode(f, 14, 4, 1, 5, child);
    assert ScanNode(f, 9, 4, 1, -1, NoParsed) == ScanNode(f, 11, 4, 1, -1, NoParsed);
    assert ScanNode(f, 8, 4, 1, -1, NoParsed) == ScanNode(f, 9, 4, 1, -1, NoParsed);
    assert ScanNode(f, 6, 4, 1, -1, NoParsed) == ScanNode(f, 8, 4, 1, -1, NoParsed);
  }

  /** Files that end inside a node, behind an escape byte or with a byte that is no node between two are
      refused, and so is a file that does not begin with a node. */
  lemma BrokenFiles()
    ensures ParseFile([0, 0, 0, 0]).Failed? && ParseFile([0, 0, 0, 0, 1]).Failed? && ParseFile([0, 0, 0, 0, 0xFE]).Failed?
    ensures ParseFile([0, 0, 0, 0, 0xFE, 1, 2]).Failed? && ParseFile([0, 0, 0, 0, 0xFE, 1, 0xFD]).Failed?
    ensures ParseFile([0, 0, 0, 0, 0xFE, 1, 0xFF, 7]).Failed?
  {
    assert ScanNode([0, 0, 0, 0, 0xFE, 1, 2], 7, 4, 1, -1, NoParsed).Failed?;
    assert ScanNode([0, 0, 0, 0, 0xFE, 1, 2], 6, 4, 1, -1, NoParsed).Failed?;
    assert ScanNode([0, 0, 0, 0, 0xFE, 1, 0xFD], 6, 4, 1, -1, NoParsed).Failed?;
    assert ScanNode([0, 0, 0, 0, 0xFE, 1, 0xFF, 7], 6, 4, 1, -1, NoParsed).Failed?;
  }
}
