/** Time-stamp requests and responses (sections 2.4.1 and 2.4.2 of RFC 3161): what the client
    writes, what it reads back, what it accepts and what verifies later. */
module Rfc3161 {
  import opened Basics
  import opened Der
  import opened DerValues

  const UTF8_STRING: TagNumber := 12
  const BIT_STRING: TagNumber := 3
  const OID_SIGNED_DATA: seq<nat> := [1, 2, 840, 113549, 1, 7, 2]
  const OID_TST_INFO: seq<nat> := [1, 2, 840, 113549, 1, 9, 16, 1, 4]

  // ---- Request ---------------------------------------------------------------------

  function AlgorithmIdentifier(hashOid: seq<int>): Result<Tree, DerError> {
    var oid :- DerOid(hashOid);
    Success(DerSequence([oid, DerNull()]))
  }

  function MessageImprint(hashOid: seq<int>, digest: Bytes): Result<Tree, DerError> {
    var algorithm :- AlgorithmIdentifier(hashOid);
    Success(DerSequence([algorithm, DerOctetString(digest)]))
  }

  function RequestTree(hashOid: seq<int>, digest: Bytes, nonce: int): Result<Tree, DerError> {
    var version :- DerInteger(1);
    var imprint :- MessageImprint(hashOid, digest);
    var nonceTree :- DerInteger(nonce);
    Success(DerSequence([version, imprint, nonceTree, DerBoolean(false)]))
  }

  function BuildTimestampReq(hashOid: seq<int>, digest: Bytes, nonce: int): Result<Bytes, DerError> {
    var tree :- RequestTree(hashOid, digest, nonce);
    Success(Encode(tree))
  }

  /** The request node carries version 1, this hash OID, digest and nonce, and, written out
      although it is the default, certReq FALSE. */
  ghost predicate IsRequest(node: DerNode, hashOid: seq<nat>, digest: Bytes, nonce: nat) {
    && IsUniversal(node, SEQUENCE) && |node.children| == 4
    && DecodeInteger(node.children[0]) == Success(1)
    && IsUniversal(node.children[1], SEQUENCE) && |node.children[1].children| == 2
    && IsAlgorithm(node.children[1].children[0], hashOid)
    && DecodeOctetString(node.children[1].children[1]) == Success(digest)
    && DecodeInteger(node.children[2]) == Success(nonce)
    && node.children[3] == DerNode(UNIVERSAL, BOOLEAN, false, [0x00], [])
  }

  ghost predicate IsAlgorithm(node: DerNode, hashOid: seq<nat>) {
    && IsUniversal(node, SEQUENCE) && |node.children| == 2
    && DecodeOid(node.children[0]) == Success(hashOid)
    && node.children[1] == DerNode(UNIVERSAL, NULL, false, [], [])
  }

  lemma {:induction false} OidTreeDecodes(arcs: seq<nat>)
    requires |arcs| >= 2 && arcs[0] <= 2 && arcs[1] <= 39
    ensures DerOid(arcs).Success? && DerOid(arcs).value.Primitive?
    ensures DecodeOid(ToNode(DerOid(arcs).value)) == Success(arcs)
  {
    OidRoundTrip(arcs);
  }

  lemma {:induction false} IntegerTreeDecodes(value: nat)
    ensures DerInteger(value).Success?
    ensures DecodeInteger(ToNode(DerInteger(value).value)) == Success(value)
  {
    IntegerRoundTrip(value);
  }

  lemma {:induction false} ToNodesOf(ts: seq<Tree>)
    ensures |ToNodes(ts)| == |ts|
    ensures |ts| > 0 ==> ToNodes(ts)[0] == ToNode(ts[0])
    ensures |ts| > 1 ==> ToNodes(ts)[1] == ToNode(ts[1])
    ensures |ts| > 2 ==> ToNodes(ts)[2] == ToNode(ts[2])
    ensures |ts| > 3 ==> ToNodes(ts)[3] == ToNode(ts[3])
    ensures |ts| > 4 ==> ToNodes(ts)[4] == ToNode(ts[4])
  {
  }

  /** Request round trip: a decoded TimeStampReq yields exactly what it was built from. */
  lemma {:induction false} RequestRoundTrip(hashOid: seq<nat>, digest: Bytes, nonce: nat)
    requires |hashOid| >= 2 && hashOid[0] <= 2 && hashOid[1] <= 39
    requires RequestTree(hashOid, digest, nonce).Success? ==> Encodable(RequestTree(hashOid, digest, nonce).value)
    ensures BuildTimestampReq(hashOid, digest, nonce).Success?
    ensures var decoded := DerDecode(BuildTimestampReq(hashOid, digest, nonce).value);
            decoded.Success? && IsRequest(decoded.value, hashOid, digest, nonce)
  {
    OidTreeDecodes(hashOid);
    IntegerTreeDecodes(1);
    IntegerTreeDecodes(nonce);
    hide OidContent, IntegerContent, SignedValue, Content, DecodeOid;
    var oid := DerOid(hashOid).value;
    var algorithm := DerSequence([oid, DerNull()]);
    var imprint := DerSequence([algorithm, DerOctetString(digest)]);
    var tree := RequestTree(hashOid, digest, nonce).value;
    ToNodesOf(tree.children);
    ToNodesOf(imprint.children);
    ToNodesOf(algorithm.children);
    DecodesEncoding(tree);
  }

  lemma {:induction false} SmallArcs(a: nat)
    requires a < 16384
    ensures Base128(a) == if a < 128 then [a] else [a / 128 + 128, a % 128]
  {
    assert Continued(0) == [];
    if a >= 128 {
      assert Continued(a / 128) == Continued(a / 128 / 128) + [a / 128 % 128 + 128];
    }
  }

  /** The bytes of a SHA-256 request with a small nonce, in full. */
  lemma {:induction false} RequestBytes(digest: Bytes, nonce: nat)
    requires |digest| == 32 && 0 < nonce < 128
    ensures BuildTimestampReq([2, 16, 840, 1, 101, 3, 4, 2, 1], digest, nonce)
            == Success([0x30, 0x3c, 0x02, 0x01, 0x01, 0x30, 0x31, 0x30, 0x0d,
                        0x06, 0x09, 0x60, 0x86, 0x48, 0x01, 0x65, 0x03, 0x04, 0x02, 0x01, 0x05, 0x00, 0x04, 0x20]
                       + digest + [0x02, 0x01, nonce, 0x01, 0x01, 0x00])
  {
    hide OidContent, IntegerContent, Tlv, Encode, EncodeAll, Content, DerLength;
    Sha256Oid();
    SmallInteger(1);
    SmallInteger(nonce);
    var oidBytes: Bytes := [0x60, 0x86, 0x48, 0x01, 0x65, 0x03, 0x04, 0x02, 0x01];
    var oid := Primitive(UNIVERSAL, OID, oidBytes);
    var algorithm := DerSequence([oid, DerNull()]);
    var imprint := DerSequence([algorithm, DerOctetString(digest)]);
    assert RequestTree([2, 16, 840, 1, 101, 3, 4, 2, 1], digest, nonce)
           == Success(DerSequence([Primitive(UNIVERSAL, INTEGER, [1]), imprint, Primitive(UNIVERSAL, INTEGER, [nonce]), DerBoolean(false)]));
    ImprintBytes(oid, oidBytes, digest);
    FieldsBytes(imprint, nonce);
    var fields := [Primitive(UNIVERSAL, INTEGER, [1]), imprint, Primitive(UNIVERSAL, INTEGER, [nonce]), DerBoolean(false)];
    ConstructedEncoderBytes(fields, oid, 0);
    ShortLength(60);
    var content := EncodeAll(fields);
    assert |content| == 60;
    var bytes: Bytes :=
      [0x30, 0x3c, 0x02, 0x01, 0x01, 0x30, 0x31, 0x30, 0x0d,
       0x06, 0x09, 0x60, 0x86, 0x48, 0x01, 0x65, 0x03, 0x04, 0x02, 0x01, 0x05, 0x00, 0x04, 0x20]
      + digest + [0x02, 0x01, nonce, 0x01, 0x01, 0x00];
    assert [0x30] + [60] + content == bytes;
  }

  lemma {:induction false} ImprintBytes(oid: Tree, oidBytes: Bytes, digest: Bytes)
    requires |oidBytes| == 9 && |digest| == 32 && oid == Primitive(UNIVERSAL, OID, oidBytes)
    ensures Encode(DerSequence([DerSequence([oid, DerNull()]), DerOctetString(digest)]))
            == [0x30, 0x31, 0x30, 0x0d, 0x06, 0x09] + oidBytes + [0x05, 0x00, 0x04, 0x20] + digest
  {
    hide Tlv, Encode, EncodeAll, Content, DerLength;
    var algorithm := DerSequence([oid, DerNull()]);
    PrimitiveEncoderBytes(false, oidBytes);
    PrimitiveEncoderBytes(false, digest);
    EncodeTwo(oid, DerNull());
    ConstructedEncoderBytes([oid, DerNull()], oid, 0);
    EncodeTwo(algorithm, DerOctetString(digest));
    ConstructedEncoderBytes([algorithm, DerOctetString(digest)], oid, 0);
    ShortLength(0);
    ShortLength(9);
    ShortLength(13);
    ShortLength(32);
    ShortLength(49);
    assert Encode(algorithm) == [0x30, 0x0d, 0x06, 0x09] + oidBytes + [0x05, 0x00];
  }

  lemma {:induction false} FieldsBytes(imprint: Tree, nonce: byte)
    ensures EncodeAll([Primitive(UNIVERSAL, INTEGER, [1]), imprint, Primitive(UNIVERSAL, INTEGER, [nonce]), DerBoolean(false)])
            == [0x02, 0x01, 0x01] + Encode(imprint) + [0x02, 0x01, nonce, 0x01, 0x01, 0x00]
  {
    hide Tlv, Encode, EncodeAll, Content, DerLength;
    var version, nonceTree := Primitive(UNIVERSAL, INTEGER, [1]), Primitive(UNIVERSAL, INTEGER, [nonce]);
    PrimitiveEncoderBytes(false, [1]);
    PrimitiveEncoderBytes(false, [nonce]);
    EncodeFour(version, imprint, nonceTree, DerBoolean(false));
    ShortLength(1);
  }

  lemma {:induction false} ShortLength(n: nat)
    requires n < 128
    ensures DerLength(n) == [n]
  {
  }

  lemma {:induction false} SmallInteger(value: nat)
    requires 0 < value < 128
    ensures IntegerContent(value) == [value]
  {
    BigEndianBytes(value);
  }

  lemma {:induction false} EncodeTwo(a: Tree, b: Tree)
    ensures EncodeAll([a, b]) == Encode(a) + Encode(b)
  {
    hide Encode;
    assert [a, b][1..] == [b];
    EncodeOne(b);
  }

  lemma {:induction false} EncodeFour(a: Tree, b: Tree, c: Tree, d: Tree)
    ensures EncodeAll([a, b, c, d]) == Encode(a) + Encode(b) + Encode(c) + Encode(d)
  {
    hide Encode;
    assert [a, b, c, d][1..] == [b, c, d] && [b, c, d][1..] == [c, d];
    EncodeTwo(c, d);
    assert EncodeAll([b, c, d]) == Encode(b) + (Encode(c) + Encode(d));
  }

  lemma {:induction false} ArcsOf(arcs: seq<nat>)
    requires arcs != []
    ensures ArcBytes(arcs) == Base128(arcs[0]) + ArcBytes(arcs[1..])
  {
  }

  lemma {:induction false} Sha256Oid()
    ensures OidContent([2, 16, 840, 1, 101, 3, 4, 2, 1]) == Success([0x60, 0x86, 0x48, 0x01, 0x65, 0x03, 0x04, 0x02, 0x01])
  {
    hide ArcBytes, Base128;
    var arcs: seq<int>, rest: seq<nat> := [2, 16, 840, 1, 101, 3, 4, 2, 1], [840, 1, 101, 3, 4, 2, 1];
    SevenArcs(840, 1, 101, 3, 4, 2, 1);
    assert arcs[2..] == rest;
    assert OidContent(arcs) == Success([0x60] + ArcBytes(rest));
    var bytes: Bytes := [0x60, 0x86, 0x48, 0x01, 0x65, 0x03, 0x04, 0x02, 0x01];
    assert [0x60] + ArcBytes(rest) == bytes;
  }

  lemma {:induction false} SevenArcs(a: nat, b: nat, c: nat, d: nat, e: nat, f: nat, g: nat)
    requires 128 <= a < 16384 && b < 128 && c < 128 && d < 128 && e < 128 && f < 128 && g < 128
    ensures ArcBytes([a, b, c, d, e, f, g]) == [a / 128 + 128, a % 128, b, c, d, e, f, g]
  {
    hide ArcBytes, Base128;
    SmallArcs(a);
    SmallArcs(b);
    SmallArcs(c);
    SmallArcs(d);
    SmallArcs(e);
    SmallArcs(f);
    SmallArcs(g);
    var s := [a, b, c, d, e, f, g];
    ArcsOf(s);
    assert s[1..] == [b, c, d, e, f, g];
    ArcsOf([b, c, d, e, f, g]);
    assert [b, c, d, e, f, g][1..] == [c, d, e, f, g];
    ArcsOf([c, d, e, f, g]);
    assert [c, d, e, f, g][1..] == [d, e, f, g];
    ArcsOf([d, e, f, g]);
    assert [d, e, f, g][1..] == [e, f, g];
    ArcsOf([e, f, g]);
    assert [e, f, g][1..] == [f, g];
    ArcsOf([f, g]);
    assert [f, g][1..] == [g];
    ArcsOf([g]);
    NoArcs();
    assert [g][1..] == [];
  }

  /** The bytes of the two content types a response must name. */
  lemma {:induction false} ContentTypeBytes()
    ensures OidContent(OID_SIGNED_DATA) == Success([0x2a, 0x86, 0x48, 0x86, 0xf7, 0x0d, 0x01, 0x07, 0x02])
    ensures OidContent(OID_TST_INFO) == Success([0x2a, 0x86, 0x48, 0x86, 0xf7, 0x0d, 0x01, 0x09, 0x10, 0x01, 0x04])
  {
    hide ArcBytes, Base128;
    var signed: seq<nat>, tst: seq<nat> := [840, 113549, 1, 7, 2], [840, 113549, 1, 9, 16, 1, 4];
    RsaArcs([1, 7, 2]);
    RsaArcs([1, 9, 16, 1, 4]);
    SmallArcList([1, 7, 2]);
    SmallArcList([1, 9, 16, 1, 4]);
    assert OID_SIGNED_DATA[2..] == signed == [840, 113549] + [1, 7, 2];
    assert OID_TST_INFO[2..] == tst == [840, 113549] + [1, 9, 16, 1, 4];
    var a: Bytes := [0x2a, 0x86, 0x48, 0x86, 0xf7, 0x0d, 0x01, 0x07, 0x02];
    var b: Bytes := [0x2a, 0x86, 0x48, 0x86, 0xf7, 0x0d, 0x01, 0x09, 0x10, 0x01, 0x04];
    assert [0x2a] + ArcBytes(signed) == a && [0x2a] + ArcBytes(tst) == b;
  }

  /** The arcs 840.113549, of RSA, in front of others. */
  lemma {:induction false} RsaArcs(rest: seq<nat>)
    ensures ArcBytes([840, 113549] + rest) == [0x86, 0x48, 0x86, 0xf7, 0x0d] + ArcBytes(rest)
  {
    hide ArcBytes, Base128;
    var arcs := [840, 113549] + rest;
    SmallArcs(840);
    assert Base128(113549) == [0x86, 0xf7, 0x0d] by {
      LargeArc();
    }
    ArcsOf(arcs);
    assert arcs[1..] == [113549] + rest;
    ArcsOf([113549] + rest);
    assert ([113549] + rest)[1..] == rest;
  }

  lemma {:induction false} LargeArc()
    ensures Base128(113549) == [0x86, 0xf7, 0x0d]
  {
    assert Continued(0) == [];
    assert Continued(6) == Continued(0) + [0x86];
    assert Continued(887) == Continued(6) + [0xf7];
  }

  lemma {:induction false} SmallArcList(arcs: seq<nat>)
    requires forall i :: 0 <= i < |arcs| ==> arcs[i] < 128
    ensures |ArcBytes(arcs)| == |arcs| && forall i :: 0 <= i < |arcs| ==> ArcBytes(arcs)[i] == arcs[i]
    decreases |arcs|
  {
    hide Base128;
    if arcs != [] {
      SmallArcs(arcs[0]);
      SmallArcList(arcs[1..]);
    }
  }

  lemma {:induction false} NoArcs()
    ensures ArcBytes([]) == []
  {
  }

  // ---- Reading a response --------------------------------------------------------------

  datatype ParsedTstInfo = ParsedTstInfo(genTime: Bytes, hashedMessage: Bytes, nonce: Option<int>)

  datatype ParsedResponse = ParsedResponse(status: int, statusStrings: seq<Bytes>, tstInfo: Option<ParsedTstInfo>)

  /** The first universal INTEGER from position k on. */
  function FindNonce(children: seq<DerNode>, k: nat): Result<Option<int>, DerError>
    requires k <= |children|
    decreases |children| - k
  {
    if k == |children| then Success(None)
    else if IsUniversal(children[k], INTEGER) then
      var nonce :- DecodeInteger(children[k]);
      Success(Some(nonce))
    else FindNonce(children, k + 1)
  }

  /** The source's loop with its early break. */
  method SearchNonce(children: seq<DerNode>) returns (r: Result<Option<int>, DerError>)
    requires |children| >= 5
    ensures r == FindNonce(children, 5)
  {
    for k := 5 to |children|
      invariant FindNonce(children, 5) == FindNonce(children, k)
    {
      if IsUniversal(children[k], INTEGER) {
        var nonce :- DecodeInteger(children[k]);
        return Success(Some(nonce));
      }
    }
    return Success(None);
  }

  function ParseImprint(node: DerNode): Result<Bytes, DerError> {
    if !IsUniversal(node, SEQUENCE) then Failure(UnexpectedTag)
    else if |node.children| != 2 then Failure(BadStructure)
    else if !IsUniversal(node.children[0], SEQUENCE) then Failure(UnexpectedTag)
    else DecodeOctetString(node.children[1])
  }

  function ParseTstInfo(node: DerNode): Result<ParsedTstInfo, DerError> {
    if !IsUniversal(node, SEQUENCE) then Failure(UnexpectedTag)
    else if |node.children| < 5 then Failure(BadStructure)
    else if !IsUniversal(node.children[1], OID) then Failure(UnexpectedTag)
    else
      var hashed :- ParseImprint(node.children[2]);
      var genTime :- DecodeTime(node.children[4]);
      var nonce :- FindNonce(node.children, 5);
      Success(ParsedTstInfo(genTime, hashed, nonce))
  }

  function Contents(nodes: seq<DerNode>): (contents: seq<Bytes>)
    ensures |contents| == |nodes|
    ensures forall i :: 0 <= i < |nodes| ==> contents[i] == nodes[i].content
  {
    if nodes == [] then [] else [nodes[0].content] + Contents(nodes[1..])
  }

  /** PKIStatusInfo: the status and the raw status strings. */
  function ParseStatus(node: DerNode): Result<(int, seq<Bytes>), DerError> {
    if !IsUniversal(node, SEQUENCE) then Failure(UnexpectedTag)
    else if node.children == [] then Failure(BadStructure)
    else
      var status :- DecodeInteger(node.children[0]);
      if |node.children| > 1 && IsUniversal(node.children[1], SEQUENCE) then
        Success((status, Contents(node.children[1].children)))
      else
        Success((status, []))
  }

  /** A pair of a content type and [0] EXPLICIT content: the first node inside the wrapper. */
  function Unwrap(node: DerNode, contentType: seq<nat>): Result<DerNode, DerError> {
    if !IsUniversal(node, SEQUENCE) then Failure(UnexpectedTag)
    else if |node.children| != 2 then Failure(BadStructure)
    else
      var actual :- DecodeOid(node.children[0]);
      if actual != contentType then Failure(BadStructure)
      else if !IsContext(node.children[1], 0) then Failure(UnexpectedTag)
      else if node.children[1].children == [] then Failure(BadStructure)
      else Success(node.children[1].children[0])
  }

  /** The TimeStampToken: ContentInfo, SignedData, EncapsulatedContentInfo, then the TSTInfo
      encoded a second time inside an OCTET STRING. */
  function ParseToken(node: DerNode): Result<ParsedTstInfo, DerError> {
    var signedData :- Unwrap(node, OID_SIGNED_DATA);
    if !IsUniversal(signedData, SEQUENCE) then Failure(UnexpectedTag)
    else if |signedData.children| < 3 then Failure(BadStructure)
    else
      var inner :- Unwrap(signedData.children[2], OID_TST_INFO);
      var tstDer :- DecodeOctetString(inner);
      var tst :- DerDecode(tstDer);
      ParseTstInfo(tst)
  }

  function ParseTimestampResp(data: Bytes): Result<ParsedResponse, DerError> {
    var root :- DerDecode(data);
    if !IsUniversal(root, SEQUENCE) then Failure(UnexpectedTag)
    else if root.children == [] then Failure(BadStructure)
    else
      var (status, strings) :- ParseStatus(root.children[0]);
      if |root.children| == 1 then Success(ParsedResponse(status, strings, None))
      else
        var tst :- ParseToken(root.children[1]);
        Success(ParsedResponse(status, strings, Some(tst)))
  }

  // ---- Exactly what is read ---------------------------------------------------------------

  ghost predicate IsSequence(node: DerNode) {
    node.tagClass == 0 && node.number == 16
  }

  ghost predicate IsInteger(node: DerNode) {
    node.tagClass == 0 && node.number == 2
  }

  ghost predicate IsFirstInteger(fields: seq<DerNode>, k: nat, i: nat, value: int) {
    k <= i < |fields| && DecodeInteger(fields[i]) == Success(value) && forall j :: k <= j < i ==> !IsInteger(fields[j])
  }

  /** The nonce is the first INTEGER from position k on, if there is one. */
  ghost predicate HoldsNonce(fields: seq<DerNode>, k: nat, nonce: Option<int>) {
    if nonce.None? then forall j :: k <= j < |fields| ==> !IsInteger(fields[j])
    else exists i: nat :: IsFirstInteger(fields, k, i, nonce.value)
  }

  ghost predicate IsTstInfo(node: DerNode, info: ParsedTstInfo) {
    && IsSequence(node) && |node.children| >= 5
    && node.children[1].tagClass == 0 && node.children[1].number == 6
    && IsSequence(node.children[2]) && |node.children[2].children| == 2 && IsSequence(node.children[2].children[0])
    && DecodeOctetString(node.children[2].children[1]) == Success(info.hashedMessage)
    && DecodeTime(node.children[4]) == Success(info.genTime)
    && HoldsNonce(node.children, 5, info.nonce)
  }

  /** SEQUENCE { this OID, [0] EXPLICIT with something inside }. */
  ghost predicate Wraps(node: DerNode, contentType: seq<nat>) {
    && IsSequence(node) && |node.children| == 2 && DecodeOid(node.children[0]) == Success(contentType)
    && node.children[1].tagClass == 2 && node.children[1].number == 0 && node.children[1].constructed
    && node.children[1].children != []
  }

  ghost predicate IsToken(node: DerNode, info: ParsedTstInfo) {
    && Wraps(node, [1, 2, 840, 113549, 1, 7, 2])
    && var signedData := node.children[1].children[0];
    && IsSequence(signedData) && |signedData.children| >= 3
    && Wraps(signedData.children[2], [1, 2, 840, 113549, 1, 9, 16, 1, 4])
    && var inner := DecodeOctetString(signedData.children[2].children[1].children[0]);
    && inner.Success? && DerDecode(inner.value).Success? && IsTstInfo(DerDecode(inner.value).value, info)
  }

  ghost predicate IsStatus(node: DerNode, status: int, strings: seq<Bytes>) {
    && IsSequence(node) && node.children != [] && DecodeInteger(node.children[0]) == Success(status)
    && if |node.children| > 1 && IsSequence(node.children[1]) then
         |strings| == |node.children[1].children|
         && forall i :: 0 <= i < |strings| ==> strings[i] == node.children[1].children[i].content
       else strings == []
  }

  ghost predicate IsResponse(node: DerNode, parsed: ParsedResponse) {
    && IsSequence(node) && node.children != []
    && IsStatus(node.children[0], parsed.status, parsed.statusStrings)
    && if |node.children| == 1 then parsed.tstInfo.None?
       else parsed.tstInfo.Some? && IsToken(node.children[1], parsed.tstInfo.value)
  }

  lemma {:induction false} FindNonceIff(fields: seq<DerNode>, k: nat, nonce: Option<int>)
    requires k <= |fields|
    ensures FindNonce(fields, k) == Success(nonce) <==> HoldsNonce(fields, k, nonce)
    decreases |fields| - k
  {
    hide SignedValue;
    if k < |fields| {
      if IsInteger(fields[k]) {
        if nonce.Some? && DecodeInteger(fields[k]) == Success(nonce.value) {
          assert IsFirstInteger(fields, k, k, nonce.value);
        }
      } else {
        var next := k + 1;
        FindNonceIff(fields, next, nonce);
        if nonce.Some? {
          if i: nat :| IsFirstInteger(fields, k, i, nonce.value) {
            assert IsFirstInteger(fields, next, i, nonce.value);
          }
          if i: nat :| IsFirstInteger(fields, next, i, nonce.value) {
            assert IsFirstInteger(fields, k, i, nonce.value);
          }
        }
      }
    }
  }

  lemma {:induction false} TstInfoIff(node: DerNode, info: ParsedTstInfo)
    ensures ParseTstInfo(node) == Success(info) <==> IsTstInfo(node, info)
  {
    hide SignedValue, DecodeInteger, FindNonce, IsAscii, HoldsNonce;
    if |node.children| >= 5 {
      FindNonceIff(node.children, 5, info.nonce);
    }
  }

  lemma {:induction false} UnwrapIff(node: DerNode, contentType: seq<nat>)
    ensures Unwrap(node, contentType).Success? <==> Wraps(node, contentType)
    ensures Wraps(node, contentType) ==> Unwrap(node, contentType).value == node.children[1].children[0]
  {
    hide ReadArcs;
  }

  lemma {:induction false} TokenIff(node: DerNode, info: ParsedTstInfo)
    ensures ParseToken(node) == Success(info) <==> IsToken(node, info)
  {
    hide Unwrap, DerDecode, ParseTstInfo, IsTstInfo;
    UnwrapIff(node, OID_SIGNED_DATA);
    if Unwrap(node, OID_SIGNED_DATA).Success? {
      var signedData := Unwrap(node, OID_SIGNED_DATA).value;
      if |signedData.children| >= 3 {
        UnwrapIff(signedData.children[2], OID_TST_INFO);
        if Unwrap(signedData.children[2], OID_TST_INFO).Success? {
          var inner := DecodeOctetString(Unwrap(signedData.children[2], OID_TST_INFO).value);
          if inner.Success? && DerDecode(inner.value).Success? {
            TstInfoIff(DerDecode(inner.value).value, info);
          }
        }
      }
    }
  }

  lemma {:induction false} StatusIff(node: DerNode, status: int, strings: seq<Bytes>)
    ensures ParseStatus(node) == Success((status, strings)) <==> IsStatus(node, status, strings)
  {
    hide SignedValue, DecodeInteger, Contents;
    if |node.children| > 1 && IsStatus(node, status, strings) && IsSequence(node.children[1]) {
      assert strings == Contents(node.children[1].children);
    }
  }

  /** Parsing succeeds with exactly this result for exactly the inputs that decode to a response of this
      shape: nothing else is accepted, and nothing else is read out of it. */
  lemma {:induction false} ParsesIffResponse(data: Bytes, parsed: ParsedResponse)
    ensures ParseTimestampResp(data) == Success(parsed) <==> DerDecode(data).Success? && IsResponse(DerDecode(data).value, parsed)
  {
    hide DerDecode, ParseStatus, ParseToken, IsStatus, IsToken;
    if DerDecode(data).Success? {
      var root := DerDecode(data).value;
      if root.children != [] {
        var status := ParseStatus(root.children[0]);
        assert status.Success? ==> status == Success((status.value.0, status.value.1));
        StatusIff(root.children[0], parsed.status, parsed.statusStrings);
        if |root.children| > 1 && parsed.tstInfo.Some? {
          TokenIff(root.children[1], parsed.tstInfo.value);
        }
      }
    }
  }

  // ---- Responses as laid out by the standard ------------------------------------------------

  /** TSTInfo with any of its optional fields. */
  datatype TstInfo = TstInfo(
    version: nat, policy: Bytes, hashAlgorithm: seq<Tree>, digest: Bytes, serialNumber: nat, genTime: Bytes,
    accuracy: Option<seq<Tree>>, ordering: Option<bool>, nonce: Option<nat>,
    tsa: Option<Tree>, extensions: Option<seq<Tree>>)

  datatype Token = Token(version: nat, digestAlgorithms: seq<Tree>, tst: TstInfo, otherFields: seq<Tree>)

  datatype Response = Response(status: nat, statusStrings: Option<seq<Bytes>>, failInfo: Option<Bytes>, token: Option<Token>)

  function IntegerTree(value: nat): Tree {
    Primitive(UNIVERSAL, INTEGER, IntegerContent(value))
  }

  function OidTree(arcs: seq<nat>): Tree
    requires OidContent(arcs).Success?
  {
    Primitive(UNIVERSAL, OID, OidContent(arcs).value)
  }

  function BeforeNonce(tst: TstInfo): (trees: seq<Tree>)
    ensures forall i :: 0 <= i < |trees| ==> !IsUniversal(ToNode(trees[i]), INTEGER)
  {
    (if tst.accuracy.Some? then [DerSequence(tst.accuracy.value)] else [])
    + (if tst.ordering.Some? then [DerBoolean(tst.ordering.value)] else [])
  }

  function AfterNonce(tst: TstInfo): (trees: seq<Tree>)
    ensures forall i :: 0 <= i < |trees| ==> !IsUniversal(ToNode(trees[i]), INTEGER)
  {
    (if tst.tsa.Some? then [DerExplicit(0, tst.tsa.value)] else [])
    + (if tst.extensions.Some? then [Constructed(CONTEXT, 1, tst.extensions.value)] else [])
  }

  function NonceTrees(tst: TstInfo): seq<Tree> {
    if tst.nonce.Some? then [IntegerTree(tst.nonce.value)] else []
  }

  function ImprintTree(tst: TstInfo): Tree {
    DerSequence([DerSequence(tst.hashAlgorithm), DerOctetString(tst.digest)])
  }

  function TstInfoFields(tst: TstInfo): seq<Tree> {
    [IntegerTree(tst.version), Primitive(UNIVERSAL, OID, tst.policy), ImprintTree(tst),
     IntegerTree(tst.serialNumber), DerTime(tst.genTime)]
    + (BeforeNonce(tst) + NonceTrees(tst) + AfterNonce(tst))
  }

  function TstInfoTree(tst: TstInfo): Tree {
    DerSequence(TstInfoFields(tst))
  }

  lemma {:induction false} KnownOids()
    ensures OidContent(OID_SIGNED_DATA).Success? && OidContent(OID_TST_INFO).Success?
    ensures DecodeOid(ToNode(OidTree(OID_SIGNED_DATA))) == Success(OID_SIGNED_DATA)
    ensures DecodeOid(ToNode(OidTree(OID_TST_INFO))) == Success(OID_TST_INFO)
  {
    hide ReadArcs, ArcBytes, Base128, Continued;
    OidRoundTrip(OID_SIGNED_DATA);
    OidRoundTrip(OID_TST_INFO);
  }

  /** SEQUENCE { contentType, [0] EXPLICIT content }. */
  function WrappedTree(contentType: seq<nat>, content: Tree): Tree
    requires OidContent(contentType).Success?
  {
    DerSequence([OidTree(contentType), DerExplicit(0, content)])
  }

  function SignedDataTree(token: Token): Tree {
    KnownOids();
    DerSequence(
      [IntegerTree(token.version), DerSet(token.digestAlgorithms),
       WrappedTree(OID_TST_INFO, DerOctetString(Encode(TstInfoTree(token.tst))))]
      + token.otherFields)
  }

  function TokenTree(token: Token): Tree {
    KnownOids();
    WrappedTree(OID_SIGNED_DATA, SignedDataTree(token))
  }

  function Utf8Strings(strings: seq<Bytes>): (trees: seq<Tree>)
    ensures |trees| == |strings|
    ensures forall i :: 0 <= i < |trees| ==> trees[i] == Primitive(UNIVERSAL, UTF8_STRING, strings[i])
  {
    if strings == [] then [] else [Primitive(UNIVERSAL, UTF8_STRING, strings[0])] + Utf8Strings(strings[1..])
  }

  function StatusTree(resp: Response): Tree {
    DerSequence(
      [IntegerTree(resp.status)]
      + ((if resp.statusStrings.Some? then [DerSequence(Utf8Strings(resp.statusStrings.value))] else [])
         + (if resp.failInfo.Some? then [Primitive(UNIVERSAL, BIT_STRING, resp.failInfo.value)] else [])))
  }

  function ResponseTree(resp: Response): Tree {
    DerSequence([StatusTree(resp)] + if resp.token.Some? then [TokenTree(resp.token.value)] else [])
  }

  /** What a response says. */
  function Meaning(resp: Response): ParsedResponse {
    ParsedResponse(
      resp.status,
      if resp.statusStrings.Some? then resp.statusStrings.value else [],
      if resp.token.None? then None
      else
        var tst := resp.token.value.tst;
        Some(ParsedTstInfo(tst.genTime, tst.digest, if tst.nonce.Some? then Some(tst.nonce.value) else None)))
  }

  lemma {:induction false} IntegerTreeReads(value: nat)
    ensures DecodeInteger(ToNode(IntegerTree(value))) == Success(value)
  {
    IntegerRoundTrip(value);
  }

  /** The search passes over the fields before k that are no INTEGERs. */
  lemma {:induction false} SkipsOthers(children: seq<DerNode>, k: nat, m: nat)
    requires k <= m <= |children|
    requires forall i :: k <= i < m ==> !IsUniversal(children[i], INTEGER)
    ensures FindNonce(children, k) == FindNonce(children, m)
    decreases m - k
  {
    if k < m {
      SkipsOthers(children, k + 1, m);
    }
  }

  lemma {:induction false} FindsNonce(tst: TstInfo)
    ensures FindNonce(ToNodes(TstInfoFields(tst)), 5)
            == Success(if tst.nonce.Some? then Some(tst.nonce.value) else None)
  {
    hide DecodeInteger, IntegerContent, Content;
    var fields := TstInfoFields(tst);
    var nodes, m := ToNodes(fields), 5 + |BeforeNonce(tst)|;
    forall i | 5 <= i < m
      ensures nodes[i] == ToNode(BeforeNonce(tst)[i - 5])
    {
    }
    SkipsOthers(nodes, 5, m);
    if tst.nonce.Some? {
      assert fields[m] == IntegerTree(tst.nonce.value);
      IntegerTreeReads(tst.nonce.value);
    } else {
      forall i | m <= i < |nodes|
        ensures nodes[i] == ToNode(AfterNonce(tst)[i - m])
      {
      }
      SkipsOthers(nodes, m, |nodes|);
    }
  }

  lemma {:induction false} ReadsTstInfo(tst: TstInfo)
    requires IsAscii(tst.genTime)
    ensures ParseTstInfo(ToNode(TstInfoTree(tst)))
            == Success(ParsedTstInfo(tst.genTime, tst.digest, if tst.nonce.Some? then Some(tst.nonce.value) else None))
  {
    FindsNonce(tst);
    hide FindNonce, IntegerContent, Content, BeforeNonce, AfterNonce, NonceTrees;
    ToNodesOf(TstInfoFields(tst));
    ToNodesOf(ImprintTree(tst).children);
  }

  lemma {:induction false} Unwraps(contentType: seq<nat>, content: Tree)
    requires OidContent(contentType).Success?
    requires DecodeOid(ToNode(OidTree(contentType))) == Success(contentType)
    ensures Unwrap(ToNode(WrappedTree(contentType, content)), contentType) == Success(ToNode(content))
  {
    hide DecodeOid, OidContent, Content;
    ToNodesOf(WrappedTree(contentType, content).children);
    ToNodesOf([content]);
  }

  lemma {:induction false} ReadsToken(token: Token)
    requires Encodable(TstInfoTree(token.tst)) && IsAscii(token.tst.genTime)
    ensures ParseToken(ToNode(TokenTree(token))) == ParseTstInfo(ToNode(TstInfoTree(token.tst)))
  {
    KnownOids();
    var octets := DerOctetString(Encode(TstInfoTree(token.tst)));
    Unwraps(OID_SIGNED_DATA, SignedDataTree(token));
    Unwraps(OID_TST_INFO, octets);
    DecodesEncoding(TstInfoTree(token.tst));
    hide Unwrap, Encode, Content, TstInfoTree, ParseTstInfo, DerDecode, OidContent, WrappedTree, IntegerContent;
    ToNodesOf(SignedDataTree(token).children);
  }

  lemma {:induction false} ReadsStatus(resp: Response)
    ensures ParseStatus(ToNode(StatusTree(resp)))
            == Success((resp.status as int, if resp.statusStrings.Some? then resp.statusStrings.value else []))
  {
    IntegerTreeReads(resp.status);
    hide DecodeInteger, IntegerContent, Content;
    var fields := StatusTree(resp).children;
    ToNodesOf(fields);
    if resp.statusStrings.Some? {
      var strings := resp.statusStrings.value;
      assert fields[1] == DerSequence(Utf8Strings(strings));
      assert Contents(ToNodes(Utf8Strings(strings))) == strings by {
        hide Utf8Strings, ToNodes, Contents;
      }
    }
  }

  // ---- Sizes ---------------------------------------------------------------------------------

  lemma {:induction false} ChildSize(ts: seq<Tree>, i: nat)
    requires i < |ts|
    ensures |Encode(ts[i])| <= |EncodeAll(ts)|
    decreases |ts|
  {
    if i > 0 {
      ChildSize(ts[1..], i - 1);
    }
  }

  lemma {:induction false} ContentSize(t: Tree, i: nat)
    requires t.Constructed? && i < |t.children|
    ensures |Content(t.children[i])| <= |Encode(t.children[i])| <= |Content(t)|
  {
    ChildSize(t.children, i);
  }

  /** The TSTInfo inside a token is smaller than the response around it. */
  lemma {:induction false} TstInfoIsEncodable(resp: Response)
    requires resp.token.Some? && Encodable(ResponseTree(resp))
    ensures Encodable(TstInfoTree(resp.token.value.tst))
  {
    KnownOids();
    hide Content, Encode, OidContent, TstInfoTree, StatusTree, WrappedTree;
    var token := resp.token.value;
    var tst := TstInfoTree(token.tst);
    var octets, signed := DerOctetString(Encode(tst)), SignedDataTree(token);
    assert ResponseTree(resp).children[1] == TokenTree(token);
    assert signed.children[2] == WrappedTree(OID_TST_INFO, octets);
    ContentSize(ResponseTree(resp), 1);
    WrappedSize(OID_SIGNED_DATA, signed);
    ContentSize(signed, 2);
    WrappedSize(OID_TST_INFO, octets);
    OctetSize(tst);
    BigEndianMonotone(|Content(tst)|, |Content(ResponseTree(resp))|);
  }

  lemma {:induction false} WrappedSize(contentType: seq<nat>, content: Tree)
    requires OidContent(contentType).Success?
    ensures |Content(content)| <= |Content(WrappedTree(contentType, content))|
  {
    hide Content, Encode, OidContent;
    var outer := WrappedTree(contentType, content);
    ContentSize(outer, 1);
    ContentSize(outer.children[1], 0);
  }

  lemma {:induction false} OctetSize(t: Tree)
    ensures |Content(t)| <= |Encode(t)| == |Content(DerOctetString(Encode(t)))|
  {
  }

  // ---- Main results -----------------------------------------------------------------------------

  /** Response round trip: any TimeStampResp laid out by the standard, whatever optional fields it
      has, parses back to its status, status strings, digest, genTime and nonce. */
  lemma {:induction false} ResponseRoundTrip(resp: Response)
    requires Encodable(ResponseTree(resp))
    requires resp.token.Some? ==> IsAscii(resp.token.value.tst.genTime)
    ensures ParseTimestampResp(Encode(ResponseTree(resp))) == Success(Meaning(resp))
  {
    DecodesEncoding(ResponseTree(resp));
    ReadsStatus(resp);
    ToNodesOf(ResponseTree(resp).children);
    if resp.token.Some? {
      TstInfoIsEncodable(resp);
      ReadsToken(resp.token.value);
      ReadsTstInfo(resp.token.value.tst);
    }
    hide DerDecode, ParseStatus, ParseToken, ParseTstInfo, Encode, Content, StatusTree, TokenTree, TstInfoTree;
  }

  datatype TsaToken = TsaToken(tokenBytes: Bytes, timestampIso: Text, authority: Text)

  datatype TsaError = Malformed | NotGranted | NoToken | DigestMismatch | NonceMissing | NonceMismatch | BadGenTime

  /** The client's checks on the reply to a request for `digest` with `nonce`; how genTime text
      becomes ISO text is left to `toIso`. */
  function Accept(raw: Bytes, digest: Bytes, nonce: int, toIso: Bytes -> Option<Text>, authority: Text): Result<TsaToken, TsaError> {
    var parsed := ParseTimestampResp(raw);
    if parsed.Failure? then Failure(Malformed)
    else if parsed.value.status != 0 && parsed.value.status != 1 then Failure(NotGranted)
    else if parsed.value.tstInfo.None? then Failure(NoToken)
    else
      var info := parsed.value.tstInfo.value;
      if info.hashedMessage != digest then Failure(DigestMismatch)
      else if info.nonce.None? then Failure(NonceMissing)
      else if info.nonce.value != nonce then Failure(NonceMismatch)
      else if toIso(info.genTime).None? then Failure(BadGenTime)
      else Success(TsaToken(raw, toIso(info.genTime).value, authority))
  }

  /** The offline check of a stored token. */
  predicate VerifyToken(digest: Bytes, token: TsaToken) {
    var parsed := ParseTimestampResp(token.tokenBytes);
    && parsed.Success?
    && (parsed.value.status == 0 || parsed.value.status == 1)
    && parsed.value.tstInfo.Some?
    && parsed.value.tstInfo.value.hashedMessage == digest
  }

  /** Any token the client accepts verifies later, for its own digest and no other. */
  lemma {:induction false} AcceptedTokenVerifies(raw: Bytes, digest: Bytes, nonce: int, toIso: Bytes -> Option<Text>, authority: Text, other: Bytes)
    requires Accept(raw, digest, nonce, toIso, authority).Success?
    ensures VerifyToken(other, Accept(raw, digest, nonce, toIso, authority).value) <==> other == digest
  {
    hide ParseTimestampResp;
  }

  /** A standard response verifies exactly for its embedded digest under status 0 or 1. */
  lemma {:induction false} VerifiesIffGranted(resp: Response, digest: Bytes, iso: Text, authority: Text)
    requires Encodable(ResponseTree(resp))
    requires resp.token.Some? ==> IsAscii(resp.token.value.tst.genTime)
    ensures VerifyToken(digest, TsaToken(Encode(ResponseTree(resp)), iso, authority)) <==>
              resp.status <= 1 && resp.token.Some? && digest == resp.token.value.tst.digest
  {
    ResponseRoundTrip(resp);
    hide ParseTimestampResp;
  }

  /** What the client answers to any standard response: the first check that fails, or the token. */
  lemma {:induction false} AnswerToResponse(resp: Response, digest: Bytes, nonce: nat, toIso: Bytes -> Option<Text>, authority: Text)
    requires Encodable(ResponseTree(resp))
    requires resp.token.Some? ==> IsAscii(resp.token.value.tst.genTime)
    ensures Accept(Encode(ResponseTree(resp)), digest, nonce, toIso, authority)
            == if resp.status > 1 then Failure(NotGranted)
               else if resp.token.None? then Failure(NoToken)
               else
                 var tst := resp.token.value.tst;
                 if tst.digest != digest then Failure(DigestMismatch)
                 else if tst.nonce == None then Failure(NonceMissing)
                 else if tst.nonce != Some(nonce) then Failure(NonceMismatch)
                 else if toIso(tst.genTime) == None then Failure(BadGenTime)
                 else Success(TsaToken(Encode(ResponseTree(resp)), toIso(tst.genTime).value, authority))
  {
    ResponseRoundTrip(resp);
    hide ParseTimestampResp;
  }

  /** The client accepts a standard response exactly when it is granted, carries the digest and
      the nonce that were sent, and its genTime converts; it keeps that time, and what it accepts
      verifies offline for that digest and no other. */
  lemma {:induction false} AcceptsIffAnswersRequest(resp: Response, digest: Bytes, nonce: nat, toIso: Bytes -> Option<Text>, authority: Text)
    requires Encodable(ResponseTree(resp))
    requires resp.token.Some? ==> IsAscii(resp.token.value.tst.genTime)
    ensures var raw := Encode(ResponseTree(resp));
            var r := Accept(raw, digest, nonce, toIso, authority);
            && (r.Success? <==>
                && resp.status <= 1 && resp.token.Some?
                && resp.token.value.tst.digest == digest
                && resp.token.value.tst.nonce == Some(nonce)
                && toIso(resp.token.value.tst.genTime).Some?)
            && (r.Success? ==>
                  && r.value == TsaToken(raw, toIso(resp.token.value.tst.genTime).value, authority)
                  && forall other :: VerifyToken(other, r.value) <==> other == digest)
  {
    ResponseRoundTrip(resp);
    hide ParseTimestampResp;
    if Accept(Encode(ResponseTree(resp)), digest, nonce, toIso, authority).Success? {
      forall other {
        AcceptedTokenVerifies(Encode(ResponseTree(resp)), digest, nonce, toIso, authority, other);
      }
    }
  }
}
