/** The INTEGER and OBJECT IDENTIFIER codecs and the other typed readers of DER nodes. */
module DerValues {
  import opened Basics
  import opened Der

  const BOOLEAN: TagNumber := 1
  const INTEGER: TagNumber := 2
  const OCTET_STRING: TagNumber := 4
  const NULL: TagNumber := 5
  const OID: TagNumber := 6
  const SEQUENCE: TagNumber := 16
  const SET: TagNumber := 17
  const GENERALIZED_TIME: TagNumber := 24

  predicate IsUniversal(node: DerNode, number: TagNumber) {
    node.tagClass == UNIVERSAL && node.number == number
  }

  predicate IsContext(node: DerNode, number: TagNumber) {
    node.tagClass == CONTEXT && node.number == number && node.constructed
  }

  // ---- Encoders, as trees; Encode turns each into the source's bytes ------------------

  function DerBoolean(value: bool): Tree {
    Primitive(UNIVERSAL, BOOLEAN, if value then [0xff] else [0x00])
  }

  function DerInteger(value: int): Result<Tree, DerError> {
    if value < 0 then Failure(BadInteger) else Success(Primitive(UNIVERSAL, INTEGER, IntegerContent(value)))
  }

  function DerOctetString(data: Bytes): Tree {
    Primitive(UNIVERSAL, OCTET_STRING, data)
  }

  function DerNull(): Tree {
    Primitive(UNIVERSAL, NULL, [])
  }

  function DerTime(text: Bytes): Tree {
    Primitive(UNIVERSAL, GENERALIZED_TIME, text)
  }

  function DerSequence(children: seq<Tree>): Tree {
    Constructed(UNIVERSAL, SEQUENCE, children)
  }

  function DerSet(children: seq<Tree>): Tree {
    Constructed(UNIVERSAL, SET, children)
  }

  function DerExplicit(number: TagNumber, inner: Tree): Tree {
    Constructed(CONTEXT, number, [inner])
  }

  function DerOid(arcs: seq<int>): Result<Tree, DerError> {
    var content :- OidContent(arcs);
    Success(Primitive(UNIVERSAL, OID, content))
  }

  /** The identifier octets of the encoders of plain values, and the contents that are fixed ... */
  lemma {:induction false} PrimitiveEncoderBytes(value: bool, content: Bytes)
    ensures Encode(DerBoolean(value)) == [0x01] + DerLength(1) + [if value then 0xff else 0x00]
    ensures Encode(Primitive(UNIVERSAL, INTEGER, content)) == [0x02] + DerLength(|content|) + content
    ensures Encode(DerOctetString(content)) == [0x04] + DerLength(|content|) + content
    ensures Encode(DerNull()) == [0x05] + DerLength(0)
    ensures Encode(Primitive(UNIVERSAL, OID, content)) == [0x06] + DerLength(|content|) + content
    ensures Encode(DerTime(content)) == [0x18] + DerLength(|content|) + content
  {
    hide DerLength;
    assert [0x05] + DerLength(0) + [] == [0x05] + DerLength(0);
  }

  /** ... and of those that wrap other encodings. */
  lemma {:induction false} ConstructedEncoderBytes(trees: seq<Tree>, tree: Tree, number: TagNumber)
    ensures Encode(DerSequence(trees)) == [0x30] + DerLength(|EncodeAll(trees)|) + EncodeAll(trees)
    ensures Encode(DerSet(trees)) == [0x31] + DerLength(|EncodeAll(trees)|) + EncodeAll(trees)
    ensures Encode(DerExplicit(number, tree)) == [0xa0 + number] + DerLength(|Encode(tree)|) + Encode(tree)
  {
    hide DerLength, EncodeAll;
    EncodeOne(tree);
  }

  lemma {:induction false} EncodeOne(tree: Tree)
    ensures EncodeAll([tree]) == Encode(tree)
  {
    hide Tlv, TagByte, Content;
    assert [tree][1..] == [];
    assert EncodeAll([]) == [];
    assert Encode(tree) + [] == Encode(tree);
  }

  // ---- INTEGER ---------------------------------------------------------------------------

  function IntegerContent(value: nat): (content: Bytes)
    ensures content != []
  {
    if value == 0 then [0]
    else
      var raw := BigEndian(value);
      if raw[0] >= 0x80 then [0] + raw else raw
  }

  /** Two's complement, most significant byte first. */
  function SignedValue(raw: Bytes): int
    requires raw != []
  {
    FromBigEndian(raw) - if raw[0] >= 0x80 then Pow256(|raw|) else 0
  }

  function DecodeInteger(node: DerNode): Result<int, DerError> {
    if !IsUniversal(node, INTEGER) then Failure(UnexpectedTag)
    else if node.constructed || node.content == [] then Failure(BadInteger)
    else Success(SignedValue(node.content))
  }

  /** Section 8.3.2 of X.690 for non-negative values: no superfluous leading zero byte. */
  predicate MinimalInteger(raw: Bytes)
    requires raw != []
  {
    |raw| == 1 || raw[0] != 0 || raw[1] >= 0x80
  }

  lemma {:induction false} LeadingZero(raw: Bytes)
    ensures FromBigEndian([0] + raw) == FromBigEndian(raw)
    decreases |raw|
  {
    var longer := [0] + raw;
    assert longer[..|longer| - 1] == if raw == [] then [] else [0] + raw[..|raw| - 1];
    if raw != [] {
      LeadingZero(raw[..|raw| - 1]);
    }
  }

  /** Every natural number decodes back to itself from a minimal content with a clear sign bit. */
  lemma {:induction false} IntegerRoundTrip(value: nat)
    ensures var content := IntegerContent(value);
            SignedValue(content) == value && content[0] < 0x80 && MinimalInteger(content)
  {
    BigEndianRoundTrip(value);
    LeadingZero(BigEndian(value));
    if value == 0 {
      assert FromBigEndian([0]) == 0 by {
        LeadingZero([]);
        assert [0] + [] == [0 as byte];
      }
    }
  }

  /** A content read as non-negative is what the encoder writes exactly when it is minimal. */
  lemma {:induction false} IntegerReencodesIffMinimal(raw: Bytes)
    requires raw != []
    ensures SignedValue(raw) >= 0 <==> raw[0] < 0x80
    ensures raw[0] < 0x80 ==> (IntegerContent(SignedValue(raw)) == raw <==> MinimalInteger(raw))
  {
    FromBigEndianBound(raw);
    if raw[0] < 0x80 {
      IntegerRoundTrip(SignedValue(raw));
      if MinimalInteger(raw) {
        if raw[0] != 0 {
          BigEndianCanonical(raw);
        } else {
          assert raw == [0] + raw[1..];
          LeadingZero(raw[1..]);
          BigEndianCanonical(raw[1..]);
        }
      }
    }
  }

  /** Two's complement: repeating the sign bit in front changes nothing, and one byte alone reads as
      itself, or as itself less 256. */
  lemma {:induction false} SignExtension(raw: Bytes)
    requires raw != []
    ensures SignedValue([if raw[0] >= 0x80 then 0xff else 0x00] + raw) == SignedValue(raw)
    ensures |raw| == 1 ==> SignedValue(raw) + (if raw[0] >= 0x80 then 256 else 0) == raw[0]
  {
    var sign: byte := if raw[0] >= 0x80 then 0xff else 0x00;
    LeadingByte(sign, raw);
    if |raw| == 1 {
      assert raw[..0] == [];
      assert FromBigEndian(raw) == FromBigEndian([]) * 256 + raw[0];
      assert Pow256(1) == 256 * Pow256(0);
    }
    hide FromBigEndian;
    assert Pow256(|[sign] + raw|) == 256 * Pow256(|raw|);
  }

  lemma {:induction false} LeadingByte(b: byte, raw: Bytes)
    ensures FromBigEndian([b] + raw) == b * Pow256(|raw|) + FromBigEndian(raw)
    decreases |raw|
  {
    var longer := [b] + raw;
    if raw == [] {
      assert longer[..0] == [];
      assert FromBigEndian(longer) == FromBigEndian([]) * 256 + b;
    } else {
      var init := raw[..|raw| - 1];
      assert longer[..|longer| - 1] == [b] + init;
      LeadingByte(b, init);
      assert FromBigEndian(longer) == FromBigEndian([b] + init) * 256 + raw[|raw| - 1];
      assert b * Pow256(|init|) * 256 == b * Pow256(|raw|);
    }
  }

  /** Exactly the nodes the readers accept. */
  lemma {:induction false} ReadersAcceptIff(node: DerNode)
    ensures DecodeInteger(node).Success? <==> node.tagClass == 0 && node.number == 2 && !node.constructed && node.content != []
    ensures DecodeOctetString(node).Success? <==> node.tagClass == 0 && node.number == 4 && !node.constructed
    ensures DecodeTime(node).Success? <==> node.tagClass == 0 && node.number == 24 && forall i :: 0 <= i < |node.content| ==> node.content[i] < 128
    ensures DecodeOctetString(node).Success? ==> DecodeOctetString(node).value == node.content
    ensures DecodeTime(node).Success? ==> DecodeTime(node).value == node.content
  {
  }

  // ---- OBJECT IDENTIFIER ---------------------------------------------------------------------

  /** Base-128 groups, most significant first, all with the continuation bit. */
  function Continued(arc: nat): Bytes {
    if arc == 0 then [] else Continued(arc / 128) + [arc % 128 + 128]
  }

  function Base128(arc: nat): Bytes {
    Continued(arc / 128) + [arc % 128]
  }

  function ArcBytes(arcs: seq<nat>): Bytes {
    if arcs == [] then [] else Base128(arcs[0]) + ArcBytes(arcs[1..])
  }

  predicate AllNatural(arcs: seq<int>) {
    forall i :: 0 <= i < |arcs| ==> arcs[i] >= 0
  }

  /** The first two arcs share a byte; a value that is no byte raises, as does a negative arc. */
  function OidContent(arcs: seq<int>): Result<Bytes, DerError> {
    if |arcs| < 2 || arcs[0] > 2 || arcs[1] > 39 then Failure(BadOid)
    else if 40 * arcs[0] + arcs[1] < 0 then Failure(BadOid)
    else if !AllNatural(arcs[2..]) then Failure(BadOid)
    else Success([40 * arcs[0] + arcs[1]] + ArcBytes(arcs[2..]))
  }

  /** One pass over the bytes: the finished arcs and the value still being read. */
  function ReadArcs(bytes: Bytes, val: nat): (seq<nat>, nat)
    decreases |bytes|
  {
    if bytes == [] then ([], val)
    else if bytes[0] >= 0x80 then ReadArcs(bytes[1..], val * 128 + bytes[0] - 0x80)
    else
      var rest := ReadArcs(bytes[1..], 0);
      ([val * 128 + bytes[0]] + rest.0, rest.1)
  }

  function DecodeOid(node: DerNode): Result<seq<nat>, DerError> {
    if !IsUniversal(node, OID) then Failure(UnexpectedTag)
    else if node.content == [] then Failure(BadOid)
    else
      var content := node.content;
      var (arcs, val) := ReadArcs(content[1..], 0);
      if val != 0 || content[|content| - 1] >= 0x80 then Failure(BadOid)
      else Success([content[0] / 40, content[0] % 40] + arcs)
  }

  function Reversed(s: Bytes): Bytes {
    if s == [] then [] else [s[|s| - 1]] + Reversed(s[..|s| - 1])
  }

  /** The groups of one arc, low end first as the loop pushes them, reversed at the end. */
  method EncodeArc(value: nat) returns (bytes: Bytes)
    ensures bytes == Base128(value)
  {
    var arc := value;
    var stack: Bytes := [arc % 128];
    arc := arc / 128;
    assert Reversed(stack) == [value % 128] + Reversed([]);
    while arc != 0
      invariant Continued(arc) + Reversed(stack) == Base128(value)
    {
      ghost var was, pushed := arc, stack;
      stack := stack + [arc % 128 + 0x80];
      arc := arc / 128;
      assert stack[..|stack| - 1] == pushed;
      assert Reversed(stack) == [was % 128 + 0x80] + Reversed(pushed);
      assert Continued(was) == Continued(arc) + [was % 128 + 0x80];
    }
    bytes := Reversed(stack);
    assert Continued(arc) + bytes == bytes;
  }

  /** The encoder's loops: the shared first byte, then every further arc. */
  method EncodeOid(arcs: seq<int>) returns (r: Result<Bytes, DerError>)
    ensures r == OidContent(arcs)
  {
    if |arcs| < 2 || arcs[0] > 2 || arcs[1] > 39 {
      return Failure(BadOid);
    }
    if 40 * arcs[0] + arcs[1] < 0 {
      return Failure(BadOid);
    }
    var out: Bytes := [40 * arcs[0] + arcs[1]];
    ghost var rest := arcs[2..];
    for k := 2 to |arcs|
      invariant forall i :: 2 <= i < k ==> arcs[i] >= 0
      invariant AllNatural(rest) ==> out + ArcBytes(arcs[k..]) == [40 * arcs[0] + arcs[1]] + ArcBytes(rest)
    {
      if arcs[k] < 0 {
        assert rest[k - 2] < 0;
        return Failure(BadOid);
      }
      var stack := EncodeArc(arcs[k]);
      assert arcs[k..][1..] == arcs[k + 1..];
      out := out + stack;
    }
    assert forall i :: 0 <= i < |rest| ==> rest[i] == arcs[i + 2];
    assert arcs[|arcs|..] == [] && out + [] == out;
    return Success(out);
  }

  /** The decoder's loop. */
  method ReadOid(content: Bytes) returns (r: Result<seq<nat>, DerError>)
    ensures r == DecodeOid(DerNode(UNIVERSAL, OID, false, content, []))
  {
    if content == [] {
      return Failure(BadOid);
    }
    var first: nat := content[0];
    var arcs: seq<nat>, val: nat := [first / 40, first % 40], 0;
    ghost var all := ReadArcs(content[1..], 0);
    for k := 1 to |content|
      invariant arcs + ReadArcs(content[k..], val).0 == [first / 40, first % 40] + all.0
      invariant ReadArcs(content[k..], val).1 == all.1
    {
      assert content[k..][1..] == content[k + 1..];
      if content[k] >= 0x80 {
        val := val * 128 + content[k] - 0x80;
      } else {
        arcs, val := arcs + [val * 128 + content[k]], 0;
      }
    }
    assert content[|content|..] == [] && arcs + [] == arcs;
    if val != 0 || content[|content| - 1] >= 0x80 {
      return Failure(BadOid);
    }
    return Success(arcs);
  }

  lemma {:induction false} ReadContinued(arc: nat, tail: Bytes)
    ensures ReadArcs(Continued(arc) + tail, 0) == ReadArcs(tail, arc)
    decreases arc
  {
    if arc == 0 {
      assert Continued(arc) + tail == tail;
    } else {
      var group: Bytes := [arc % 128 + 128];
      assert Continued(arc) + tail == Continued(arc / 128) + (group + tail);
      ReadContinued(arc / 128, group + tail);
      assert (group + tail)[1..] == tail;
    }
  }

  lemma {:induction false} ReadArcBytes(arcs: seq<nat>)
    ensures ReadArcs(ArcBytes(arcs), 0) == (arcs, 0)
    ensures if arcs == [] then ArcBytes(arcs) == []
            else ArcBytes(arcs) != [] && ArcBytes(arcs)[|ArcBytes(arcs)| - 1] < 0x80
    decreases |arcs|
  {
    if arcs != [] {
      var low: Bytes, tail := [arcs[0] % 128], ArcBytes(arcs[1..]);
      assert ArcBytes(arcs) == Continued(arcs[0] / 128) + (low + tail);
      ReadContinued(arcs[0] / 128, low + tail);
      assert (low + tail)[1..] == tail;
      ReadArcBytes(arcs[1..]);
      assert ReadArcs(low + tail, arcs[0] / 128) == ([arcs[0]] + arcs[1..], 0);
      assert arcs == [arcs[0]] + arcs[1..];
    }
  }

  /** Every arc list in the encoder's domain decodes back to itself. */
  lemma {:induction false} OidRoundTrip(arcs: seq<nat>)
    requires |arcs| >= 2 && arcs[0] <= 2 && arcs[1] <= 39
    ensures OidContent(arcs).Success?
    ensures DecodeOid(DerNode(UNIVERSAL, OID, false, OidContent(arcs).value, [])) == Success(arcs)
  {
    hide ReadArcs, ArcBytes;
    var content := OidContent(arcs).value;
    ReadArcBytes(arcs[2..]);
    var rest := ArcBytes(arcs[2..]);
    assert content[1..] == rest;
    assert (40 * arcs[0] + arcs[1]) / 40 == arcs[0] && (40 * arcs[0] + arcs[1]) % 40 == arcs[1];
    assert content[|content| - 1] == if rest == [] then content[0] else rest[|rest| - 1];
    assert arcs == [arcs[0], arcs[1]] + arcs[2..];
  }

  /** No arc begins with a byte 0x80, a needless leading group (section 8.19.2 of X.690). */
  predicate NoPaddedArc(bytes: Bytes, atStart: bool)
    decreases |bytes|
  {
    bytes != [] ==> !(atStart && bytes[0] == 0x80) && NoPaddedArc(bytes[1..], bytes[0] < 0x80)
  }

  lemma {:induction false} GroupStep(val: nat, b: byte)
    ensures b < 0x80 ==> Base128(val * 128 + b) == Continued(val) + [b]
    ensures b >= 0x80 && val * 128 + b > 0x80 ==> Continued(val * 128 + b - 0x80) == Continued(val) + [b]
    ensures Continued(0) == []
  {
    var low := if b < 0x80 then b else b - 0x80;
    assert (val * 128 + low) / 128 == val && (val * 128 + low) % 128 == low;
  }

  /** Re-encoding the arcs gives the same bytes without padding, and fewer with it. */
  lemma {:induction false} ReencodeArcs(bytes: Bytes, val: nat)
    requires bytes == [] ==> val == 0
    requires bytes != [] ==> bytes[|bytes| - 1] < 0x80
    ensures ReadArcs(bytes, val).1 == 0
    ensures NoPaddedArc(bytes, val == 0) ==> ArcBytes(ReadArcs(bytes, val).0) == Continued(val) + bytes
    ensures !NoPaddedArc(bytes, val == 0) ==> |ArcBytes(ReadArcs(bytes, val).0)| < |Continued(val)| + |bytes|
    decreases |bytes|
  {
    hide Continued, Base128;
    if bytes == [] {
      GroupStep(0, 0);
    } else {
      var b, rest := bytes[0], bytes[1..];
      assert bytes == [b] + rest;
      if b >= 0x80 {
        var next := val * 128 + b - 0x80;
        GroupStep(val, b);
        ReencodeArcs(rest, next);
        assert (Continued(val) + [b]) + rest == Continued(val) + bytes;
      } else {
        var arc := val * 128 + b;
        var arcs := ReadArcs(rest, 0).0;
        ReencodeArcs(rest, 0);
        GroupStep(val, b);
        assert ([arc] + arcs)[1..] == arcs;
        assert ArcBytes([arc] + arcs) == Base128(arc) + ArcBytes(arcs);
        assert (Continued(val) + [b]) + rest == Continued(val) + bytes;
      }
    }
  }

  /** OID contents the decoder accepts re-encode to the same bytes exactly when the first byte
      is below 120 and no arc is padded. */
  lemma {:induction false} OidReencodesIffCanonical(content: Bytes)
    requires DecodeOid(DerNode(UNIVERSAL, OID, false, content, [])).Success?
    ensures var arcs := DecodeOid(DerNode(UNIVERSAL, OID, false, content, [])).value;
            OidContent(arcs) == Success(content) <==> content[0] < 120 && NoPaddedArc(content[1..], true)
  {
    hide ReadArcs, ArcBytes, NoPaddedArc;
    var arcs := DecodeOid(DerNode(UNIVERSAL, OID, false, content, [])).value;
    var first, rest := content[0], content[1..];
    ReencodeArcs(rest, 0);
    assert arcs[2..] == ReadArcs(rest, 0).0;
    assert content == [first] + rest;
    if first < 120 {
      assert OidContent(arcs) == Success([first] + ArcBytes(arcs[2..]));
      assert ([first] + ArcBytes(arcs[2..]))[1..] == ArcBytes(arcs[2..]);
      assert Continued(0) + rest == rest;
      assert OidContent(arcs) == Success(content) <==> ArcBytes(arcs[2..]) == rest;
    }
  }

  /** Exactly the OID nodes the decoder accepts: a first byte and then only finished arcs. */
  lemma {:induction false} OidIsAcceptedIff(node: DerNode)
    ensures DecodeOid(node).Success? <==>
              && node.tagClass == 0 && node.number == 6 && node.content != []
              && node.content[|node.content| - 1] < 128
  {
    var content := node.content;
    if content != [] && content[|content| - 1] < 128 {
      assert content[1..] != [] ==> content[1..][|content[1..]| - 1] == content[|content| - 1];
      ReencodeArcs(content[1..], 0);
    }
  }

  /** Exactly the arc lists the encoder accepts: two arcs at least, the first at most 2, the second at
      most 39, their shared byte and all further arcs not negative. */
  lemma {:induction false} OidIsEncodedIff(arcs: seq<int>)
    ensures OidContent(arcs).Success? <==>
              && |arcs| >= 2 && arcs[0] <= 2 && arcs[1] <= 39 && 40 * arcs[0] + arcs[1] >= 0
              && forall i :: 2 <= i < |arcs| ==> arcs[i] >= 0
  {
    if |arcs| >= 2 {
      assert forall i :: 2 <= i < |arcs| ==> arcs[i] == arcs[2..][i - 2];
    }
  }

  // ---- The other readers ------------------------------------------------------------------------

  function DecodeOctetString(node: DerNode): Result<Bytes, DerError> {
    if !IsUniversal(node, OCTET_STRING) then Failure(UnexpectedTag)
    else if node.constructed then Failure(BadOctetString)
    else Success(node.content)
  }

  predicate IsAscii(text: Bytes) {
    forall i :: 0 <= i < |text| ==> text[i] < 0x80
  }

  function DecodeTime(node: DerNode): Result<Bytes, DerError> {
    if !IsUniversal(node, GENERALIZED_TIME) then Failure(UnexpectedTag)
    else if !IsAscii(node.content) then Failure(BadTime)
    else Success(node.content)
  }
}
