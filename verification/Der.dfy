/** The DER codec: length octets, TLV encoding and the recursive TLV parser,
    with round trip, tiling and the exact condition for re-encoding. */
module Der {
  import opened Basics

  datatype DerError =
    | TruncatedHeader
    | MultiByteTag
    | BadLength
    | TruncatedContent
    | TrailingBytes
    | UnexpectedTag
    | BadInteger
    | BadOid
    | BadOctetString
    | BadTime
    | BadStructure

  // ---- Big-endian numbers -----------------------------------------------------

  function Pow256(k: nat): (p: nat)
    ensures p >= 1
  {
    if k == 0 then 1 else 256 * Pow256(k - 1)
  }

  /** The least-length big-endian form; zero is empty. */
  function BigEndian(n: nat): Bytes {
    if n == 0 then [] else BigEndian(n / 256) + [n % 256]
  }

  function FromBigEndian(b: Bytes): nat {
    if b == [] then 0 else FromBigEndian(b[..|b| - 1]) * 256 + b[|b| - 1]
  }

  lemma {:induction false} BigEndianRoundTrip(n: nat)
    ensures FromBigEndian(BigEndian(n)) == n
    ensures n > 0 ==> |BigEndian(n)| > 0 && BigEndian(n)[0] != 0
    decreases n
  {
    if n > 0 {
      BigEndianRoundTrip(n / 256);
      var b := BigEndian(n);
      assert b[..|b| - 1] == BigEndian(n / 256);
    }
  }

  lemma {:induction false} BigEndianCanonical(b: Bytes)
    requires b == [] || b[0] != 0
    ensures BigEndian(FromBigEndian(b)) == b
    ensures b != [] ==> FromBigEndian(b) > 0
    decreases |b|
  {
    if b != [] {
      var init := b[..|b| - 1];
      BigEndianCanonical(init);
      assert FromBigEndian(b) / 256 == FromBigEndian(init);
      assert FromBigEndian(b) % 256 == b[|b| - 1];
      assert b == init + [b[|b| - 1]];
    }
  }

  lemma {:induction false} FromBigEndianBound(b: Bytes)
    ensures FromBigEndian(b) < Pow256(|b|)
    decreases |b|
  {
    if b != [] {
      FromBigEndianBound(b[..|b| - 1]);
    }
  }

  lemma {:induction false} BigEndianLength(n: nat, k: nat)
    ensures |BigEndian(n)| <= k <==> n < Pow256(k)
    decreases k
  {
    if n > 0 && k > 0 {
      BigEndianLength(n / 256, k - 1);
    }
  }

  lemma {:induction false} BigEndianMonotone(m: nat, n: nat)
    requires m <= n
    ensures |BigEndian(m)| <= |BigEndian(n)|
  {
    BigEndianLength(n, |BigEndian(n)|);
    BigEndianLength(m, |BigEndian(n)|);
  }

  /** A length that at most 127 octets can count, that is a length below 256^127. */
  ghost predicate Countable(n: nat) {
    |BigEndian(n)| <= 127
  }

  lemma {:induction false} CountableBelow(n: nat, octets: nat)
    requires octets == 127
    ensures Countable(n) <==> n < Pow256(octets)
  {
    BigEndianLength(n, octets);
  }

  // ---- Encoding ------------------------------------------------------------------

  /** `0x80 | k`. From k = 128 on, that is for contents of 256^127 bytes and more, it no longer
      counts the length octets; all results below stay under that size. */
  function LengthOctet(k: nat): byte {
    if k < 128 then 128 + k else k % 256
  }

  function DerLength(n: nat): (b: Bytes)
    ensures b != []
  {
    if n < 0x80 then [n] else [LengthOctet(|BigEndian(n)|)] + BigEndian(n)
  }

  function Tlv(tag: byte, content: Bytes): Bytes {
    [tag] + DerLength(|content|) + content
  }

  /** Short form below 128; one and two length octets above. */
  lemma {:induction false} DerLengthBytes(n: nat)
    ensures n < 128 ==> DerLength(n) == [n]
    ensures 128 <= n < 256 ==> DerLength(n) == [0x81, n]
    ensures 256 <= n < 65536 ==> DerLength(n) == [0x82, n / 256, n % 256]
  {
    if 128 <= n < 65536 {
      BigEndianBytes(n);
    }
  }

  lemma {:induction false} BigEndianBytes(n: nat)
    requires 0 < n < 65536
    ensures BigEndian(n) == if n < 256 then [n] else [n / 256, n % 256]
  {
    assert BigEndian(n) == BigEndian(n / 256) + [n % 256];
    assert n / 256 > 0 ==> BigEndian(n / 256) == BigEndian(n / 256 / 256) + [n / 256 % 256];
  }

  type TagClass = c: nat | c < 4
  type TagNumber = n: nat | n < 31

  const UNIVERSAL: TagClass := 0
  const CONTEXT: TagClass := 2

  /** A value to encode: SEQUENCE, SET and context wrappers are Constructed. */
  datatype Tree =
    | Primitive(tagClass: TagClass, number: TagNumber, content: Bytes)
    | Constructed(tagClass: TagClass, number: TagNumber, children: seq<Tree>)

  function TagByte(tagClass: TagClass, constructed: bool, number: TagNumber): byte {
    64 * tagClass + (if constructed then 32 else 0) + number
  }

  /** The class, constructed bit and number of an identifier octet. */
  function ClassOf(tag: byte): TagClass {
    if tag < 64 then 0 else if tag < 128 then 1 else if tag < 192 then 2 else 3
  }

  predicate ConstructedBit(tag: byte) {
    tag - 64 * ClassOf(tag) >= 32
  }

  function NumberOf(tag: byte): (n: nat)
    ensures n < 32
  {
    tag - 64 * ClassOf(tag) - if ConstructedBit(tag) then 32 else 0
  }

  function Encode(t: Tree): Bytes
    decreases t, 1
  {
    Tlv(TagByte(t.tagClass, t.Constructed?, t.number), Content(t))
  }

  function Content(t: Tree): Bytes
    decreases t, 0
  {
    match t
    case Primitive(_, _, content) => content
    case Constructed(_, _, children) => EncodeAll(children)
  }

  function EncodeAll(ts: seq<Tree>): Bytes
    decreases ts
  {
    if ts == [] then [] else Encode(ts[0]) + EncodeAll(ts[1..])
  }

  // ---- Decoding ------------------------------------------------------------------

  datatype DerNode = DerNode(tagClass: TagClass, number: TagNumber, constructed: bool, content: Bytes, children: seq<DerNode>)

  datatype Header = Header(tagClass: TagClass, number: TagNumber, constructed: bool, start: nat, end: nat)

  /** The length octets at `off`: the length and the offset after them. */
  function ReadLength(data: Bytes, off: nat): (r: Result<(nat, nat), DerError>)
    requires off < |data|
    ensures r.Success? ==> off + 1 <= r.value.1 <= |data|
  {
    if data[off] >= 0x80 then
      var count := data[off] - 0x80;
      if count == 0 || off + 1 + count > |data| then Failure(BadLength)
      else Success((FromBigEndian(data[off + 1..off + 1 + count]), off + 1 + count))
    else
      Success((data[off], off + 1))
  }

  function ReadHeader(data: Bytes, off: nat): (r: Result<Header, DerError>)
    ensures r.Success? ==> off + 2 <= r.value.start <= r.value.end <= |data|
  {
    if off + 2 > |data| then Failure(TruncatedHeader)
    else
      var tag := data[off];
      if NumberOf(tag) == 31 then Failure(MultiByteTag)
      else
        var length :- ReadLength(data, off + 1);
        if length.1 + length.0 > |data| then Failure(TruncatedContent)
        else Success(Header(ClassOf(tag), NumberOf(tag), ConstructedBit(tag), length.1, length.1 + length.0))
  }

  /** One TLV at `off`: the node and the offset after it. */
  function ParseTlv(data: Bytes, off: nat): (r: Result<(DerNode, nat), DerError>)
    ensures r.Success? ==> off + 2 <= r.value.1 <= |data|
    decreases |data|, |data| - off, 0
  {
    var hd :- ReadHeader(data, off);
    var content := data[hd.start..hd.end];
    var children :- if hd.constructed then ParseAll(content, 0) else Success([]);
    Success((DerNode(hd.tagClass, hd.number, hd.constructed, content, children), hd.end))
  }

  /** The TLVs that fill `content` from `pos` to its end. */
  function ParseAll(content: Bytes, pos: nat): Result<seq<DerNode>, DerError>
    requires pos <= |content|
    decreases |content|, |content| - pos, 1
  {
    if pos == |content| then Success([])
    else
      var first :- ParseTlv(content, pos);
      var rest :- ParseAll(content, first.1);
      Success([first.0] + rest)
  }

  function DerDecode(data: Bytes): Result<DerNode, DerError> {
    var parsed :- ParseTlv(data, 0);
    if parsed.1 != |data| then Failure(TrailingBytes) else Success(parsed.0)
  }

  /** The parser in the source's own form: a loop over the content, calling itself. */
  method ReadTlv(data: Bytes, start: nat) returns (r: Result<(DerNode, nat), DerError>)
    ensures r == ParseTlv(data, start)
    decreases |data|, 0
  {
    var off := start;
    if off + 2 > |data| {
      return Failure(TruncatedHeader);
    }
    var tag := data[off];
    off := off + 1;
    if NumberOf(tag) == 31 {
      return Failure(MultiByteTag);
    }
    var first := data[off];
    off := off + 1;
    var length: nat := first;
    if first >= 0x80 {
      var count := first - 0x80;
      if count == 0 || off + count > |data| {
        return Failure(BadLength);
      }
      length := FromBigEndian(data[off..off + count]);
      off := off + count;
    }
    if off + length > |data| {
      return Failure(TruncatedContent);
    }
    var content := data[off..off + length];
    off := off + length;
    assert ReadHeader(data, start) == Success(Header(ClassOf(tag), NumberOf(tag), ConstructedBit(tag), off - length, off));
    var children: seq<DerNode> := [];
    if ConstructedBit(tag) {
      children :- ReadAll(content);
    }
    return Success((DerNode(ClassOf(tag), NumberOf(tag), ConstructedBit(tag), content, children), off));
  }

  method ReadAll(content: Bytes) returns (r: Result<seq<DerNode>, DerError>)
    ensures r == ParseAll(content, 0)
    decreases |content|, 1
  {
    var children: seq<DerNode>, pos := [], 0;
    ghost var all := ParseAll(content, 0);
    assert all.Success? ==> children + all.value == all.value;
    while pos < |content|
      invariant 0 <= pos <= |content|
      invariant all == Prepend(children, ParseAll(content, pos))
    {
      var child :- ReadTlv(content, pos);
      ghost var rest := ParseAll(content, child.1);
      assert rest.Success? ==> children + ([child.0] + rest.value) == (children + [child.0]) + rest.value;
      children, pos := children + [child.0], child.1;
    }
    assert pos == |content| && ParseAll(content, pos) == Success([]);
    assert children + [] == children;
    return Success(children);
  }

  ghost function Prepend(done: seq<DerNode>, rest: Result<seq<DerNode>, DerError>): Result<seq<DerNode>, DerError> {
    if rest.Success? then Success(done + rest.value) else rest
  }

  /** Exactly the headers the parser accepts: two bytes at least, a low tag number, a definite length,
      and as many bytes as the length says; and what it reads off the identifier octet. */
  lemma {:induction false} HeaderIsAcceptedIff(data: Bytes, off: nat)
    ensures ReadHeader(data, off).Success? <==>
              && off + 2 <= |data| && data[off] % 32 != 31
              && var first := data[off + 1];
              if first < 128 then off + 2 + first <= |data|
              else first != 128 && off + 2 + (first - 128) <= |data|
                   && off + 2 + (first - 128) + FromBigEndian(data[off + 2..off + 2 + (first - 128)]) <= |data|
    ensures ReadHeader(data, off).Success? ==>
              var hd := ReadHeader(data, off).value;
              && hd.tagClass == data[off] / 64 && hd.constructed == (data[off] / 32 % 2 == 1) && hd.number == data[off] % 32
              && if data[off + 1] < 128 then hd.start == off + 2 && hd.end == off + 2 + data[off + 1]
                 else hd.start == off + 2 + (data[off + 1] - 128)
                      && hd.end == hd.start + FromBigEndian(data[off + 2..hd.start])
  {
    if off < |data| {
      TagFields(data[off]);
    }
  }

  lemma {:induction false} TagFields(tag: byte)
    ensures ClassOf(tag) == tag / 64 && ConstructedBit(tag) == (tag / 32 % 2 == 1) && NumberOf(tag) == tag % 32
  {
  }

  // ---- Round trip -------------------------------------------------------------------

  /** What decoding is expected to return for a tree. */
  function ToNode(t: Tree): DerNode
    decreases t
  {
    match t
    case Primitive(c, n, content) => DerNode(c, n, false, content, [])
    case Constructed(c, n, children) => DerNode(c, n, true, Content(t), ToNodes(children))
  }

  function ToNodes(ts: seq<Tree>): (nodes: seq<DerNode>)
    ensures |nodes| == |ts|
    ensures forall i :: 0 <= i < |ts| ==> nodes[i] == ToNode(ts[i])
    decreases ts
  {
    if ts == [] then [] else [ToNode(ts[0])] + ToNodes(ts[1..])
  }

  /** The lengths inside are no greater, so this bounds the content of every node. */
  ghost predicate Encodable(t: Tree) {
    Countable(|Content(t)|)
  }

  /** `part` lies in `data` at `off`. */
  ghost predicate At(data: Bytes, off: nat, part: Bytes) {
    off + |part| <= |data| && data[off..off + |part|] == part
  }

  lemma {:induction false} AtSplit(data: Bytes, off: nat, a: Bytes, b: Bytes)
    requires At(data, off, a + b)
    ensures At(data, off, a) && At(data, off + |a|, b)
  {
    var s := data[off..off + |a + b|];
    assert a == s[..|a|] == data[off..off + |a|];
    assert b == s[|a|..] == data[off + |a|..off + |a| + |b|];
  }

  lemma {:induction false} DropMore(s: Bytes, pos: nat, a: Bytes, b: Bytes)
    requires pos <= |s| && s[pos..] == a + b
    ensures pos + |a| <= |s| && s[pos + |a|..] == b && At(s, pos, a)
  {
    assert s[pos + |a|..] == s[pos..][|a|..];
    assert s[pos..pos + |a|] == s[pos..][..|a|];
  }

  lemma {:induction false} ReadsLength(data: Bytes, off: nat, n: nat)
    requires Countable(n) && At(data, off, DerLength(n))
    ensures ReadLength(data, off) == Success((n, off + |DerLength(n)|))
  {
    var raw := BigEndian(n);
    assert data[off] == data[off..off + |DerLength(n)|][0];
    if n >= 0x80 {
      BigEndianRoundTrip(n);
      AtSplit(data, off, [LengthOctet(|raw|)], raw);
    }
  }

  lemma {:induction false} AtThree(data: Bytes, off: nat, a: Bytes, b: Bytes, c: Bytes)
    requires At(data, off, a + b + c)
    ensures At(data, off, a) && At(data, off + |a|, b) && At(data, off + |a| + |b|, c)
  {
    hide At;
    AtSplit(data, off, a + b, c);
    AtSplit(data, off, a, b);
  }

  lemma {:induction false} AtOne(data: Bytes, off: nat, b: byte)
    requires At(data, off, [b])
    ensures off < |data| && data[off] == b
  {
    assert data[off] == data[off..off + 1][0];
  }

  lemma {:induction false} TlvAt(data: Bytes, off: nat, tag: byte, content: Bytes)
    requires At(data, off, Tlv(tag, content))
    ensures At(data, off, [tag]) && At(data, off + 1, DerLength(|content|))
    ensures At(data, off + 1 + |DerLength(|content|)|, content)
  {
    hide At, DerLength;
    AtThree(data, off, [tag], DerLength(|content|), content);
  }

  lemma {:induction false} ReadsHeader(data: Bytes, off: nat, c: TagClass, constructed: bool, number: TagNumber, length: nat, start: nat)
    requires off + 1 < |data| && data[off] == TagByte(c, constructed, number)
    requires ReadLength(data, off + 1) == Success((length, start)) && start + length <= |data|
    ensures ReadHeader(data, off) == Success(Header(c, number, constructed, start, start + length))
  {
  }

  lemma {:induction false} ParseTlvFromHeader(data: Bytes, off: nat, hd: Header, content: Bytes, children: seq<DerNode>)
    requires ReadHeader(data, off) == Success(hd) && data[hd.start..hd.end] == content
    requires if hd.constructed then ParseAll(content, 0) == Success(children) else children == []
    ensures ParseTlv(data, off)
            == Success((DerNode(hd.tagClass, hd.number, hd.constructed, content, children), hd.end))
  {
  }

  lemma {:induction false} ParseAllFromFirst(content: Bytes, pos: nat, first: DerNode, next: nat, rest: seq<DerNode>)
    requires pos < |content| && ParseTlv(content, pos) == Success((first, next))
    requires ParseAll(content, next) == Success(rest)
    ensures ParseAll(content, pos) == Success([first] + rest)
  {
  }

  /** Wherever an encoded tree lies, the parser returns that tree and stops right after it. */
  lemma {:induction false} ParsesTree(t: Tree, data: Bytes, off: nat)
    requires Encodable(t) && At(data, off, Encode(t))
    ensures ParseTlv(data, off) == Success((ToNode(t), off + |Encode(t)|))
    decreases t, 1
  {
    hide DerLength, ReadHeader, ReadLength;
    var content := Content(t);
    var start := off + 1 + |DerLength(|content|)|;
    TlvAt(data, off, TagByte(t.tagClass, t.Constructed?, t.number), content);
    AtOne(data, off, TagByte(t.tagClass, t.Constructed?, t.number));
    ReadsLength(data, off + 1, |content|);
    ReadsHeader(data, off, t.tagClass, t.Constructed?, t.number, |content|, start);
    var hd := Header(t.tagClass, t.number, t.Constructed?, start, start + |content|);
    assert |Encode(t)| == 1 + |DerLength(|content|)| + |content|;
    match t
    case Primitive(_, _, _) =>
      ParseTlvFromHeader(data, off, hd, content, []);
    case Constructed(_, _, children) =>
      ParsesTrees(children, content, 0);
      ParseTlvFromHeader(data, off, hd, content, ToNodes(children));
  }

  lemma {:induction false} ParsesTrees(ts: seq<Tree>, content: Bytes, pos: nat)
    requires Countable(|content|) && pos <= |content| && content[pos..] == EncodeAll(ts)
    ensures ParseAll(content, pos) == Success(ToNodes(ts))
    decreases ts, 0
  {
    hide ParseTlv, Encode, Content, BigEndian, At;
    if ts != [] {
      var first, rest := Encode(ts[0]), EncodeAll(ts[1..]);
      EncodingLonger(ts[0]);
      DropMore(content, pos, first, rest);
      BigEndianMonotone(|Content(ts[0])|, |content|);
      ParsesTree(ts[0], content, pos);
      ParsesTrees(ts[1..], content, pos + |first|);
      ParseAllFromFirst(content, pos, ToNode(ts[0]), pos + |first|, ToNodes(ts[1..]));
    }
  }

  lemma {:induction false} EncodingLonger(t: Tree)
    ensures |Encode(t)| > |Content(t)|
  {
    hide DerLength, Content;
  }

  /** Round trip: decoding an encoding returns exactly that tree, nothing left over. */
  lemma {:induction false} DecodesEncoding(t: Tree)
    requires Encodable(t)
    ensures DerDecode(Encode(t)) == Success(ToNode(t))
  {
    assert At(Encode(t), 0, Encode(t));
    ParsesTree(t, Encode(t), 0);
  }

  /** And anything left over after an encoding is refused. */
  lemma {:induction false} TrailingBytesAreRefused(t: Tree, extra: Bytes)
    requires Encodable(t) && extra != []
    ensures DerDecode(Encode(t) + extra) == Failure(TrailingBytes)
  {
    hide Encode, ParseTlv;
    var data := Encode(t) + extra;
    assert At(data, 0, Encode(t));
    ParsesTree(t, data, 0);
  }

  /** So every tree round-trips whose content takes fewer than 256^127 bytes. */
  lemma {:induction false} DecodesTreesBelow(t: Tree, octets: nat)
    requires octets == 127 && |Content(t)| < Pow256(octets)
    ensures DerDecode(Encode(t)) == Success(ToNode(t)) && FromNode(ToNode(t)) == t
  {
    CountableBelow(|Content(t)|, octets);
    DecodesEncoding(t);
    FromToNode(t);
  }

  /** The tree a node stands for. */
  function FromNode(node: DerNode): Tree
    decreases node
  {
    if node.constructed then Constructed(node.tagClass, node.number, FromNodes(node.children))
    else Primitive(node.tagClass, node.number, node.content)
  }

  function FromNodes(nodes: seq<DerNode>): seq<Tree>
    decreases nodes
  {
    if nodes == [] then [] else [FromNode(nodes[0])] + FromNodes(nodes[1..])
  }

  lemma {:induction false} FromToNode(t: Tree)
    ensures FromNode(ToNode(t)) == t
    decreases t, 1
  {
    if t.Constructed? {
      FromToNodes(t.children);
    }
  }

  lemma {:induction false} FromToNodes(ts: seq<Tree>)
    ensures FromNodes(ToNodes(ts)) == ts
    decreases ts, 0
  {
    if ts != [] {
      FromToNode(ts[0]);
      FromToNodes(ts[1..]);
      assert ToNodes(ts)[1..] == ToNodes(ts[1..]);
    }
  }

  /** Encodings are injective and prefix-free, whatever follows them. */
  lemma {:induction false} EncodingIsPrefixFree(t: Tree, u: Tree, p: Bytes, q: Bytes)
    requires Encodable(t) && Encodable(u)
    requires Encode(t) + p == Encode(u) + q
    ensures t == u && p == q
  {
    var data := Encode(t) + p;
    assert At(data, 0, Encode(t));
    assert At(data, 0, Encode(u)) by {
      assert (Encode(u) + q)[..|Encode(u)|] == Encode(u);
    }
    ParsesTree(t, data, 0);
    ParsesTree(u, data, 0);
    FromToNode(t);
    FromToNode(u);
    assert p == data[|Encode(t)|..] == q;
  }

  // ---- Well-behaved parsing ------------------------------------------------------------

  /** The bounds cut the content into the children's byte ranges, end to end. */
  ghost predicate Tiles(content: Bytes, children: seq<DerNode>, pos: nat, bounds: seq<nat>) {
    && |bounds| == |children| + 1
    && bounds[0] == pos && bounds[|children|] == |content|
    && forall i :: 0 <= i < |children| ==> IsTile(content, children[i], bounds[i], bounds[i + 1])
  }

  ghost predicate IsTile(content: Bytes, child: DerNode, from: nat, to: nat) {
    from + 2 <= to <= |content| && ParseTlv(content, from) == Success((child, to))
  }

  /** The children of every constructed node, at every depth, tile its content. */
  ghost predicate TiledThroughout(node: DerNode) {
    if node.constructed then
      && (exists bounds: seq<nat> :: Tiles(node.content, node.children, 0, bounds))
      && (forall i :: 0 <= i < |node.children| ==> TiledThroughout(node.children[i]))
    else
      node.children == []
  }

  /** What a successful parse says about the bytes: a header of at least two bytes, then the
      content, ending at the returned offset; the tree below tiles that content. */
  lemma {:induction false} ParseIsTiled(data: Bytes, off: nat)
    requires ParseTlv(data, off).Success?
    ensures var (node, end) := ParseTlv(data, off).value;
            && off + 2 + |node.content| <= end <= |data|
            && data[end - |node.content|..end] == node.content
            && data[off] == TagByte(node.tagClass, node.constructed, node.number)
            && TiledThroughout(node)
    decreases |data|, |data| - off, 0
  {
    var hd := ReadHeader(data, off).value;
    if hd.constructed {
      var bounds := ParseAllTiles(data[hd.start..hd.end], 0);
    }
  }

  lemma {:induction false} ParseAllTiles(content: Bytes, pos: nat) returns (bounds: seq<nat>)
    requires pos <= |content| && ParseAll(content, pos).Success?
    ensures Tiles(content, ParseAll(content, pos).value, pos, bounds)
    ensures forall i :: 0 <= i < |ParseAll(content, pos).value| ==> TiledThroughout(ParseAll(content, pos).value[i])
    decreases |content|, |content| - pos, 1
  {
    if pos == |content| {
      bounds := [pos];
    } else {
      var (first, next) := ParseTlv(content, pos).value;
      ParseIsTiled(content, pos);
      var rest := ParseAllTiles(content, next);
      bounds := [pos] + rest;
    }
  }

  // ---- Re-encoding -----------------------------------------------------------------------

  /** The length octets of the TLV at `off`, and of every TLV below it, are the shortest. */
  ghost predicate MinimalLengths(data: Bytes, off: nat)
    requires ParseTlv(data, off).Success?
    decreases |data|, |data| - off, 0
  {
    var hd := ReadHeader(data, off).value;
    && data[off + 1..hd.start] == DerLength(hd.end - hd.start)
    && (hd.constructed ==> AllMinimalLengths(data[hd.start..hd.end], 0))
  }

  ghost predicate AllMinimalLengths(content: Bytes, pos: nat)
    requires pos <= |content| && ParseAll(content, pos).Success?
    decreases |content|, |content| - pos, 1
  {
    pos < |content| ==>
      && MinimalLengths(content, pos)
      && AllMinimalLengths(content, ParseTlv(content, pos).value.1)
  }

  lemma {:induction false} ShortestLength(data: Bytes, off: nat, n: nat)
    requires off < |data| && ReadLength(data, off).Success?
    requires n <= ReadLength(data, off).value.0
    ensures |DerLength(n)| <= ReadLength(data, off).value.1 - off
  {
    if data[off] >= 0x80 && n >= 0x80 {
      var count := data[off] - 0x80;
      var raw := data[off + 1..off + 1 + count];
      FromBigEndianBound(raw);
      BigEndianLength(n, count);
    }
  }

  /** Re-encoding what was parsed never takes more bytes ... */
  lemma {:induction false} ReencodingIsNoLonger(data: Bytes, off: nat)
    requires ParseTlv(data, off).Success?
    ensures var (node, end) := ParseTlv(data, off).value;
            && |Content(FromNode(node))| <= |node.content|
            && |Encode(FromNode(node))| <= end - off
            && |DerLength(|Content(FromNode(node))|)| <= ReadHeader(data, off).value.start - (off + 1)
    decreases |data|, |data| - off, 0
  {
    var hd := ReadHeader(data, off).value;
    var node := ParseTlv(data, off).value.0;
    if hd.constructed {
      ReencodingAllIsNoLonger(data[hd.start..hd.end], 0);
    }
    ShortestLength(data, off + 1, |Content(FromNode(node))|);
  }

  lemma {:induction false} ReencodingAllIsNoLonger(content: Bytes, pos: nat)
    requires pos <= |content| && ParseAll(content, pos).Success?
    ensures |EncodeAll(FromNodes(ParseAll(content, pos).value))| <= |content| - pos
    decreases |content|, |content| - pos, 1
  {
    if pos < |content| {
      ReencodingIsNoLonger(content, pos);
      ReencodingAllIsNoLonger(content, ParseTlv(content, pos).value.1);
      FromNodesOfAll(content, pos);
    }
  }

  lemma {:induction false} FromNodesOfAll(content: Bytes, pos: nat)
    requires pos < |content| && ParseAll(content, pos).Success?
    ensures var (first, next) := ParseTlv(content, pos).value;
            && EncodeAll(FromNodes(ParseAll(content, pos).value))
               == Encode(FromNode(first)) + EncodeAll(FromNodes(ParseAll(content, next).value))
  {
    var (first, next) := ParseTlv(content, pos).value;
    var rest := ParseAll(content, next).value;
    assert ([first] + rest)[1..] == rest;
    var trees := FromNodes([first] + rest);
    assert trees[0] == FromNode(first) && trees[1..] == FromNodes(rest);
  }

  /** ... and gives back the same bytes if and only if every length was minimal. */
  lemma {:induction false} ReencodesIffMinimal(data: Bytes, off: nat)
    requires ParseTlv(data, off).Success?
    ensures var (node, end) := ParseTlv(data, off).value;
            Encode(FromNode(node)) == data[off..end] <==> MinimalLengths(data, off)
    decreases |data|, |data| - off, 0
  {
    hide DerLength, Tlv, TagByte, ReadHeader, TiledThroughout;
    var hd := ReadHeader(data, off).value;
    var (node, end) := ParseTlv(data, off).value;
    var content := Content(FromNode(node));
    ParseIsTiled(data, off);
    ReencodingIsNoLonger(data, off);
    SplitTlv(data, off, hd.start, end, data[off], content);
    assert Encode(FromNode(node)) == Tlv(data[off], content);
    if hd.constructed {
      ReencodesAllIffMinimal(node.content, 0);
      assert node.content[0..] == node.content;
    } else {
      assert content == node.content;
    }
  }

  lemma {:induction false} SplitTlv(data: Bytes, off: nat, start: nat, end: nat, tag: byte, content: Bytes)
    requires off < off + 1 <= start <= end <= |data| && data[off] == tag
    requires |content| <= end - start && |DerLength(|content|)| <= start - (off + 1)
    ensures Tlv(tag, content) == data[off..end] <==>
              data[off + 1..start] == DerLength(end - start) && data[start..end] == content
  {
    hide DerLength, BigEndian;
    var length := DerLength(|content|);
    assert data[off..end] == [tag] + (data[off + 1..start] + data[start..end]);
    if Tlv(tag, content) == data[off..end] {
      assert |length| + |content| == (start - (off + 1)) + (end - start);
      assert [tag] + (length + content) == Tlv(tag, content);
      assert length + content == data[off..end][1..] == data[off + 1..start] + data[start..end];
      assert length == (length + content)[..|length|] && content == (length + content)[|length|..];
    }
    if data[off + 1..start] == DerLength(end - start) && data[start..end] == content {
      assert Tlv(tag, content) == [tag] + (length + content);
    }
  }

  lemma {:induction false} ReencodesAllIffMinimal(content: Bytes, pos: nat)
    requires pos <= |content| && ParseAll(content, pos).Success?
    ensures EncodeAll(FromNodes(ParseAll(content, pos).value)) == content[pos..] <==> AllMinimalLengths(content, pos)
    decreases |content|, |content| - pos, 1
  {
    if pos < |content| {
      var (first, next) := ParseTlv(content, pos).value;
      var one, others := Encode(FromNode(first)), EncodeAll(FromNodes(ParseAll(content, next).value));
      FromNodesOfAll(content, pos);
      ReencodesIffMinimal(content, pos);
      ReencodesAllIffMinimal(content, next);
      ReencodingIsNoLonger(content, pos);
      ReencodingAllIsNoLonger(content, next);
      SplitEqual(content, pos, next, one, others);
    }
  }

  lemma {:induction false} SplitEqual(s: Bytes, from: nat, middle: nat, a: Bytes, b: Bytes)
    requires from <= middle <= |s| && |a| <= middle - from && |b| <= |s| - middle
    ensures a + b == s[from..] <==> a == s[from..middle] && b == s[middle..]
  {
    assert s[from..] == s[from..middle] + s[middle..];
    if a + b == s[from..] {
      assert |a| == middle - from;
      assert a == (a + b)[..|a|] && b == (a + b)[|a|..];
    }
  }

  /** The decoder is looser than DER: this INTEGER 5 has a needlessly long length. */
  lemma {:induction false} NonMinimalLengthIsAccepted()
    ensures DerDecode([0x02, 0x81, 0x01, 0x05]) == DerDecode([0x02, 0x01, 0x05])
    ensures DerDecode([0x02, 0x01, 0x05]).Success?
  {
    var long, short: Bytes := [0x02, 0x81, 0x01, 0x05], [0x02, 0x01, 0x05];
    assert long[2..3] == [0x01];
    assert FromBigEndian([0x01]) == 1;
    assert long[3..4] == [0x05] == short[2..3];
  }
}
