/** The LwM2M TLV format (data/tlv.c). */
module Tlv {
  import opened Bytes
  import opened Data

  const MAX_BODY: nat := 0xFF_FFFF

  // Header types, the two high bits of the first byte.
  const TYPE_INSTANCE: byte := 0x00
  const TYPE_RESOURCE_INSTANCE: byte := 0x40
  const TYPE_MULTIPLE: byte := 0x80
  const TYPE_RESOURCE: byte := 0xC0

  // ----- leaf values --------------------------------------------------------------------------

  /** `prv_encodeInt`: the narrowest of 1, 2, 4 and 8 bytes. */
  function EncodeInt(i: int64): (s: seq<byte>)
    ensures |s| == 1 || |s| == 2 || |s| == 4 || |s| == 8
  {
    assert Pow256(1) == 0x100 && Pow256(2) == 0x1_0000 && Pow256(4) == 0x1_0000_0000 && Pow256(8) == UINT64_MAX + 1;
    var n := if -0x80 <= i <= 0x7F then 1 else if -0x8000 <= i <= 0x7FFF then 2
      else if -0x8000_0000 <= i <= 0x7FFF_FFFF then 4 else 8;
    ToBigEndian(TwosComplement(i, n), n)
  }

  /** `prv_encodeUInt` */
  function EncodeUnsigned(u: uint64): (s: seq<byte>)
    ensures |s| == 1 || |s| == 2 || |s| == 4 || |s| == 8
  {
    var n := if u <= 0xFF then 1 else if u <= 0xFFFF then 2 else if u <= 0xFFFF_FFFF then 4 else 8;
    ToBigEndian(u, n)
  }

  /** The body of a leaf. */
  function EncodeValue(v: Value): seq<byte>
  {
    match v
    case Str(s) => s
    case Opaque(s) => s
    case CoreLink(s) => s
    case Integer(i) => EncodeInt(i)
    case Unsigned(u) => EncodeUnsigned(u)
    case Boolean(b) => [if b then 1 else 0]
    case ObjectLink(o, i) => ToBigEndian(o * 0x1_0000 + i, 4)
  }

  /** A number comes back from its bytes, and from no fewer. */
  lemma {:induction false} EncodeIntDecodes(i: int64)
    ensures DecodeInt(Opaque(EncodeInt(i))) == Some(i)
    ensures forall s: seq<byte> :: DecodeInt(Opaque(s)) == Some(i) ==> |EncodeInt(i)| <= |s|
  {
    assert Pow256(1) == 0x100 && Pow256(2) == 0x1_0000 && Pow256(4) == 0x1_0000_0000 && Pow256(8) == UINT64_MAX + 1;
    var n := |EncodeInt(i)|;
    BigEndianRoundTrip(TwosComplement(i, n), n);
    forall s: seq<byte> | DecodeInt(Opaque(s)) == Some(i) ensures n <= |s| {
      FromBigEndianBound(s);
    }
  }

  lemma {:induction false} EncodeUnsignedDecodes(u: uint64)
    ensures DecodeUnsigned(Opaque(EncodeUnsigned(u))) == Some(u)
    ensures forall s: seq<byte> :: DecodeUnsigned(Opaque(s)) == Some(u) ==> |EncodeUnsigned(u)| <= |s|
  {
    assert Pow256(1) == 0x100 && Pow256(2) == 0x1_0000 && Pow256(4) == 0x1_0000_0000 && Pow256(8) == UINT64_MAX + 1;
    BigEndianRoundTrip(u, |EncodeUnsigned(u)|);
    forall s: seq<byte> | DecodeUnsigned(Opaque(s)) == Some(u) ensures |EncodeUnsigned(u)| <= |s| {
      FromBigEndianBound(s);
    }
  }

  lemma {:induction false} EncodeLinkDecodes(o: uint16, i: uint16)
    ensures FromBigEndian(EncodeValue(ObjectLink(o, i))) == o * 0x1_0000 + i
  {
    assert Pow256(4) == 0x1_0000_0000;
    BigEndianRoundTrip(o * 0x1_0000 + i, 4);
  }

  // ----- headers ------------------------------------------------------------------------------

  /** The width in bytes of the length field that follows the identifier. */
  function LengthWidth(dataLen: nat): nat
  {
    if dataLen > 0xFFFF then 3 else if dataLen > 0xFF then 2 else if dataLen > 7 then 1 else 0
  }

  /** `prv_getHeaderLength` */
  function HeaderLength(id: uint16, dataLen: nat): nat
  {
    2 + (if id > 0xFF then 1 else 0) + LengthWidth(dataLen)
  }

  predicate IsTypeBits(b: byte) {
    b == TYPE_INSTANCE || b == TYPE_RESOURCE_INSTANCE || b == TYPE_MULTIPLE || b == TYPE_RESOURCE
  }

  /** The first header byte: type, identifier width, length width and short length. */
  function FirstByte(typeBits: byte, id: uint16, dataLen: nat): (b: byte)
    requires IsTypeBits(typeBits)
  {
    typeBits + (if id > 0xFF then 0x20 else 0) + 8 * LengthWidth(dataLen) + (if dataLen <= 7 then dataLen else 0)
  }

  lemma {:induction false} FirstByteParts(typeBits: byte, id: uint16, dataLen: nat)
    requires IsTypeBits(typeBits)
    ensures var b := FirstByte(typeBits, id, dataLen);
            && b / 0x40 * 0x40 == typeBits
            && (b / 0x20) % 2 == (if id > 0xFF then 1 else 0)
            && (b / 8) % 4 == LengthWidth(dataLen)
            && (LengthWidth(dataLen) == 0 ==> b % 8 == dataLen)
  {
    PackedByte(typeBits / 0x40, if id > 0xFF then 1 else 0, LengthWidth(dataLen), if dataLen <= 7 then dataLen else 0);
  }

  lemma {:induction false} PackedByte(k: nat, f: nat, w: nat, l: nat)
    requires k < 4 && f < 2 && w < 4 && l < 8
    ensures var b := 0x40 * k + 0x20 * f + 8 * w + l; b / 0x40 == k && b / 0x20 % 2 == f && b / 8 % 4 == w && b % 8 == l
  {
    var b := 0x40 * k + 0x20 * f + 8 * w + l;
    assert b / 0x20 == 2 * k + f;
    assert b / 8 == 4 * (2 * k + f) + w;
  }

  function IdBytes(id: uint16): seq<byte>
  {
    if id > 0xFF then [id / 256, id % 256] else [id]
  }

  /** `prv_createHeader`, for a body whose length has a 24-bit field. */
  function Header(typeBits: byte, id: uint16, dataLen: nat): (h: seq<byte>)
    requires IsTypeBits(typeBits)
    requires dataLen <= MAX_BODY
    ensures |h| == HeaderLength(id, dataLen)
  {
    [FirstByte(typeBits, id, dataLen)] + IdBytes(id) + ToBigEndian(dataLen, LengthWidth(dataLen))
  }

  datatype Decoded = Decoded(typeBits: int, id: int, dataIndex: nat, dataLen: nat)

  /** `lwm2m_decode_TLV`; the caller turns the type bits into a data type. */
  function DecodeHeader(buffer: seq<byte>): (r: Option<Decoded>)
    ensures r.Some? ==> 2 <= r.value.dataIndex && r.value.dataIndex + r.value.dataLen <= |buffer|
    ensures r.Some? ==> 0 <= r.value.id < 0x1_0000
  {
    if |buffer| < 2 then None
    else
      var first := buffer[0];
      var long := (first / 0x20) % 2 == 1;
      if long && |buffer| < 3 then None
      else
        var id := FromBigEndian(if long then buffer[1..3] else buffer[1..2]);
        assert 0 <= id < 0x1_0000 by { FromBigEndianShort(buffer); }
        var index := if long then 3 else 2;
        var width := (first / 8) % 4;
        if |buffer| < index + width then None
        else
          var len := if width == 0 then first % 8 else FromBigEndian(buffer[index..index + width]);
          if index + width + len > |buffer| then None
          else Some(Decoded(first / 0x40 * 0x40, id, index + width, len))
  }

  lemma {:induction false} FromBigEndianShort(s: seq<byte>)
    requires |s| >= 2
    ensures FromBigEndian(s[1..2]) == s[1]
    ensures |s| >= 3 ==> FromBigEndian(s[1..3]) == FromBigEndian(s[1..2]) * 256 + s[2]
  {
    assert FromBigEndian([]) == 0;
    assert s[1..2][..0] == [];
    if |s| >= 3 {
      assert s[1..3][..1] == s[1..2];
    }
  }

  /** Where the fields of a header lie in a buffer that starts with it. */
  lemma {:induction false} HeaderFields(typeBits: byte, id: uint16, dataLen: nat, rest: seq<byte>)
    requires IsTypeBits(typeBits) && dataLen <= MAX_BODY
    ensures var buffer := Header(typeBits, id, dataLen) + rest;
            var index := 1 + |IdBytes(id)|;
            && buffer[0] == FirstByte(typeBits, id, dataLen)
            && buffer[1..index] == IdBytes(id)
            && buffer[index..index + LengthWidth(dataLen)] == ToBigEndian(dataLen, LengthWidth(dataLen))
  {
  }

  lemma {:induction false} IdDecodes(id: uint16)
    ensures FromBigEndian(IdBytes(id)) == id
  {
    FromBigEndianShort([0] + IdBytes(id));
    assert ([0] + IdBytes(id))[1..2] == [IdBytes(id)[0]];
    if id > 0xFF {
      assert ([0] + IdBytes(id))[1..3] == IdBytes(id);
    } else {
      assert ([0] + IdBytes(id))[1..2] == IdBytes(id);
    }
  }

  lemma {:induction false} LengthDecodes(n: nat)
    requires 7 < n <= MAX_BODY
    ensures FromBigEndian(ToBigEndian(n, LengthWidth(n))) == n
  {
    assert Pow256(1) == 0x100 && Pow256(2) == 0x1_0000 && Pow256(3) == 0x100_0000;
    BigEndianRoundTrip(n, LengthWidth(n));
  }

  lemma {:induction false} HeaderDecodes(typeBits: byte, id: uint16, body: seq<byte>, rest: seq<byte>)
    requires IsTypeBits(typeBits) && |body| <= MAX_BODY
    ensures DecodeHeader(Header(typeBits, id, |body|) + (body + rest))
         == Some(Decoded(typeBits, id, HeaderLength(id, |body|), |body|))
  {
    FirstByteParts(typeBits, id, |body|);
    HeaderFields(typeBits, id, |body|, body + rest);
    IdDecodes(id);
    if |body| > 7 {
      LengthDecodes(|body|);
    }
  }

  // ----- size pass ----------------------------------------------------------------------------

  /** `prv_getLength`: the number of bytes of the encoding, or -1 when a node has no TLV form. */
  function Length(ds: seq<Node>): (n: int)
    ensures n >= -1
  {
    if ds == [] then 0
    else
      var head := NodeLength(ds[0]);
      var tail := Length(ds[1..]);
      if head == -1 || tail == -1 then -1 else head + tail
  }

  function NodeLength(d: Node): (n: int)
    ensures n == -1 || n >= 2
  {
    match d
    case Undefined(_) => -1
    case Resource(id, v) => HeaderLength(id, |EncodeValue(v)|) + |EncodeValue(v)|
    case Container(id, kind, children) =>
      if kind.KObject? then -1
      else
        var n := Length(children);
        if n == -1 then -1 else HeaderLength(id, n) + n
  }

  lemma {:induction false} LengthConcat(a: seq<Node>, b: seq<Node>)
    ensures Length(a + b) == if Length(a) == -1 || Length(b) == -1 then -1 else Length(a) + Length(b)
  {
    if a == [] {
      assert a + b == b;
    } else {
      assert (a + b)[1..] == a[1..] + b;
      LengthConcat(a[1..], b);
    }
  }

  lemma {:induction false} LengthSnoc(ds: seq<Node>, i: nat)
    requires i < |ds|
    ensures Length(ds[..i + 1])
         == if Length(ds[..i]) == -1 || NodeLength(ds[i]) == -1 then -1 else Length(ds[..i]) + NodeLength(ds[i])
  {
    LengthConcat(ds[..i], [ds[i]]);
    assert ds[..i + 1] == ds[..i] + [ds[i]];
  }

  /** Every prefix of an encodable forest is encodable, and no longer. */
  lemma {:induction false} LengthPrefix(ds: seq<Node>, i: nat)
    requires i <= |ds|
    ensures Length(ds) != -1 ==> 0 <= Length(ds[..i]) <= Length(ds)
    ensures Length(ds[..i]) == -1 ==> Length(ds) == -1
  {
    LengthConcat(ds[..i], ds[i..]);
    assert ds == ds[..i] + ds[i..];
  }

  // ----- encoding -----------------------------------------------------------------------------

  /** A forest every body of which has a length field: what the format can express. */
  predicate Encodable(ds: seq<Node>) {
    forall d :: d in ds ==> NodeEncodable(d)
  }

  predicate NodeEncodable(d: Node) {
    match d
    case Undefined(_) => false
    case Resource(_, v) => |EncodeValue(v)| <= MAX_BODY
    case Container(_, kind, children) => !kind.KObject? && Encodable(children) && 0 <= Length(children) <= MAX_BODY
  }

  function LeafBits(isInstance: bool): byte {
    if isInstance then TYPE_RESOURCE_INSTANCE else TYPE_RESOURCE
  }

  function ContainerBits(kind: Kind): byte
    requires !kind.KObject?
  {
    if kind.KMultiple? then TYPE_MULTIPLE else TYPE_INSTANCE
  }

  /** The bytes `tlv_serialize` writes. */
  function Encode(isInstance: bool, ds: seq<Node>): (s: seq<byte>)
    requires Encodable(ds)
    ensures |s| == Length(ds)
    decreases ds
  {
    if ds == [] then [] else EncodeNode(isInstance, ds[0]) + Encode(isInstance, ds[1..])
  }

  function EncodeNode(isInstance: bool, d: Node): (s: seq<byte>)
    requires NodeEncodable(d)
    ensures |s| == NodeLength(d)
    decreases d
  {
    match d
    case Resource(id, v) =>
      Header(LeafBits(isInstance), id, |EncodeValue(v)|) + EncodeValue(v)
    case Container(id, kind, children) =>
      Header(ContainerBits(kind), id, Length(children)) + Encode(isInstance || kind.KMultiple?, children)
  }

  lemma {:induction false} EncodeConcat(isInstance: bool, a: seq<Node>, b: seq<Node>)
    requires Encodable(a) && Encodable(b) && Encodable(a + b)
    ensures Encode(isInstance, a + b) == Encode(isInstance, a) + Encode(isInstance, b)
  {
    if a == [] {
      assert a + b == b;
    } else {
      assert (a + b)[1..] == a[1..] + b;
      EncodeConcat(isInstance, a[1..], b);
    }
  }

  lemma {:induction false} EncodeSnoc(isInstance: bool, ds: seq<Node>, i: nat)
    requires Encodable(ds) && i < |ds|
    ensures Encodable(ds[..i]) && Encodable(ds[..i + 1])
    ensures Encode(isInstance, ds[..i + 1]) == Encode(isInstance, ds[..i]) + EncodeNode(isInstance, ds[i])
  {
    EncodeConcat(isInstance, ds[..i], [ds[i]]);
    assert ds[..i + 1] == ds[..i] + [ds[i]];
  }

  // ----- parsing ------------------------------------------------------------------------------

  /** The forest `tlv_parse` builds; None where it gives up and returns 0. A malformed tail ends
      the forest without an error. */
  function Parse(buffer: seq<byte>): Option<seq<Node>>
    decreases |buffer|, 0
  {
    match DecodeHeader(buffer)
    case None => Some([])
    case Some(h) =>
      var body := buffer[h.dataIndex..h.dataIndex + h.dataLen];
      match ParseNode(h, body)
      case None => None
      case Some(d) =>
        Prepend([d], Parse(buffer[h.dataIndex + h.dataLen..]))
  }

  function ParseNode(h: Decoded, body: seq<byte>): Option<Node>
    requires 0 <= h.id < 0x1_0000
    decreases |body|, 1
  {
    if h.typeBits == TYPE_INSTANCE || h.typeBits == TYPE_MULTIPLE then
      match Parse(body)
      case None => None
      case Some(children) =>
        if children == [] then None
        else Some(Container(h.id, if h.typeBits == TYPE_MULTIPLE then KMultiple else KInstance, children))
    else Some(Resource(h.id, Opaque(body)))
  }

  // ----- round trip ---------------------------------------------------------------------------

  /** Does the opaque leaf that parsing produces hold the original value? */
  predicate LeafRecovers(v: Value, parsed: Value) {
    && parsed.Opaque?
    && match v
       case Str(s) => parsed.bytes == s
       case Opaque(s) => parsed.bytes == s
       case CoreLink(s) => parsed.bytes == s
       case Integer(i) => DecodeInt(parsed) == Some(i)
       case Unsigned(u) => DecodeUnsigned(parsed) == Some(u)
       case Boolean(b) => DecodeBool(parsed) == Some(b)
       case ObjectLink(o, i) => |parsed.bytes| == 4 && FromBigEndian(parsed.bytes) == o * 0x1_0000 + i
  }

  /** Same shape, identifiers, container kinds, and every leaf decodes to the original value. */
  predicate Recovers(ds: seq<Node>, parsed: seq<Node>)
    decreases ds
  {
    if ds == [] || parsed == [] then ds == [] && parsed == []
    else NodeRecovers(ds[0], parsed[0]) && Recovers(ds[1..], parsed[1..])
  }

  predicate NodeRecovers(d: Node, parsed: Node)
    decreases d
  {
    match d
    case Undefined(_) => false
    case Resource(id, v) => parsed.Resource? && parsed.id == id && LeafRecovers(v, parsed.value)
    case Container(id, kind, children) =>
      parsed.Container? && parsed.id == id && parsed.kind == kind && Recovers(children, parsed.children)
  }

  /** Is there no empty container at any depth? */
  predicate NoEmptyContainer(ds: seq<Node>)
  {
    ds == [] || (NodeFilled(ds[0]) && NoEmptyContainer(ds[1..]))
  }

  predicate NodeFilled(d: Node)
  {
    d.Container? ==> d.children != [] && NoEmptyContainer(d.children)
  }

  lemma {:induction false} LeafRoundTrip(v: Value)
    ensures LeafRecovers(v, Opaque(EncodeValue(v)))
  {
    match v
    case Integer(i) => EncodeIntDecodes(i);
    case Unsigned(u) => EncodeUnsignedDecodes(u);
    case ObjectLink(o, i) => EncodeLinkDecodes(o, i);
    case _ =>
  }

  /** Parsing the encoding recovers the forest exactly when it holds no empty container; otherwise
      the parser gives up. */
  lemma {:induction false} RoundTrip(isInstance: bool, ds: seq<Node>)
    requires Encodable(ds)
    ensures match Parse(Encode(isInstance, ds))
            case Some(parsed) => NoEmptyContainer(ds) && Recovers(ds, parsed)
            case None => !NoEmptyContainer(ds)
    decreases ds
  {
    if ds == [] {
      assert Encode(isInstance, ds) == [];
    } else {
      var tail := Encode(isInstance, ds[1..]);
      RoundTrip(isInstance, ds[1..]);
      NodeRoundTrip(isInstance, ds[0], tail);
    }
  }

  /** The first node is cut out of the buffer whatever follows it. */
  lemma {:induction false} NodeRoundTrip(isInstance: bool, d: Node, tail: seq<byte>)
    requires NodeEncodable(d)
    ensures var buffer := EncodeNode(isInstance, d) + tail;
            var h := DecodeHeader(buffer);
            && h.Some? && h.value.dataIndex + h.value.dataLen == |EncodeNode(isInstance, d)|
            && buffer[h.value.dataIndex + h.value.dataLen..] == tail
            && match ParseNode(h.value, buffer[h.value.dataIndex..h.value.dataIndex + h.value.dataLen])
               case Some(parsed) => NodeFilled(d) && NodeRecovers(d, parsed)
               case None => !NodeFilled(d)
    decreases d
  {
    match d
    case Resource(id, v) =>
      HeaderDecodes(LeafBits(isInstance), id, EncodeValue(v), tail);
      Framed(Header(LeafBits(isInstance), id, |EncodeValue(v)|), EncodeValue(v), tail);
      LeafRoundTrip(v);
    case Container(id, kind, children) =>
      var inner := isInstance || kind.KMultiple?;
      RoundTrip(inner, children);
      HeaderDecodes(ContainerBits(kind), id, Encode(inner, children), tail);
      Framed(Header(ContainerBits(kind), id, Length(children)), Encode(inner, children), tail);
      EmptyRecovers(children);
  }

  lemma {:induction false} EmptyRecovers(ds: seq<Node>)
    ensures Recovers(ds, []) <==> ds == []
    ensures forall parsed :: Recovers([], parsed) <==> parsed == []
  {
  }

  lemma {:induction false} Framed(a: seq<byte>, b: seq<byte>, c: seq<byte>)
    ensures a + (b + c) == (a + b) + c
    ensures (a + (b + c))[|a|..|a| + |b|] == b
    ensures (a + (b + c))[|a| + |b|..] == c
  {
  }

  /** No header is shorter: every header that is decoded to an identifier and a length takes at least as many bytes as the
      one that is written for them, and where the length has a field of its own the bits for a short length are zero. */
  lemma {:induction false} HeaderIsShortest(buffer: seq<byte>, typeBits: byte)
    requires DecodeHeader(buffer).Some? && IsTypeBits(typeBits)
    ensures var d := DecodeHeader(buffer).value;
            && d.dataLen <= MAX_BODY
            && |Header(typeBits, d.id, d.dataLen)| <= d.dataIndex
            && Header(typeBits, d.id, d.dataLen)[0] % 8 == if d.dataLen <= 7 then d.dataLen else 0
  {
    var (first, d) := (buffer[0], DecodeHeader(buffer).value);
    var (index, width) := (if (first / 0x20) % 2 == 1 then 3 else 2, (first / 8) % 4);
    assert Pow256(1) == 0x100 && Pow256(2) == 0x1_0000 && Pow256(3) == 0x100_0000;
    FromBigEndianBound(buffer[1..2]);
    if width > 0 { FromBigEndianBound(buffer[index..index + width]); }
    ShortLength(typeBits, d.id, d.dataLen);
  }

  lemma {:induction false} ShortLength(typeBits: byte, id: uint16, dataLen: nat)
    requires IsTypeBits(typeBits)
    ensures FirstByte(typeBits, id, dataLen) % 8 == if dataLen <= 7 then dataLen else 0
  {
    PackedByte(typeBits / 0x40, if id > 0xFF then 1 else 0, LengthWidth(dataLen), if dataLen <= 7 then dataLen else 0);
  }

  // ----- types on the wire --------------------------------------------------------------------

  /** What any reader of the format sees: the two type bits of an element, its identifier, and its value or, for an
      object instance or a multiple resource, the elements inside. */
  datatype Element = Simple(typeBits: int, id: int, bytes: seq<byte>) | Nested(typeBits: int, id: int, inside: seq<Element>)

  function Elements(buffer: seq<byte>): seq<Element>
    decreases |buffer|
  {
    match DecodeHeader(buffer)
    case None => []
    case Some(h) =>
      var body := buffer[h.dataIndex..h.dataIndex + h.dataLen];
      [if h.typeBits == 0x00 || h.typeBits == 0x80 then Nested(h.typeBits, h.id, Elements(body)) else Simple(h.typeBits, h.id, body)]
      + Elements(buffer[h.dataIndex + h.dataLen..])
  }

  /** The elements are those of the forest: values in resource instances (0x40) below a multiple resource, or where the
      call was for one, and in resources (0xC0) elsewhere; multiple resources (0x80) and object instances (0x00). */
  predicate Typed(ds: seq<Node>, es: seq<Element>, inMultiple: bool)
    decreases ds
  {
    if ds == [] || es == [] then ds == [] && es == []
    else NodeTyped(ds[0], es[0], inMultiple) && Typed(ds[1..], es[1..], inMultiple)
  }

  predicate NodeTyped(d: Node, e: Element, inMultiple: bool)
    decreases d
  {
    && e.id == d.id
    && match d
       case Undefined(_) => false
       case Resource(_, v) => e.Simple? && e.bytes == EncodeValue(v) && e.typeBits == if inMultiple then 0x40 else 0xC0
       case Container(_, KMultiple, children) => e.Nested? && e.typeBits == 0x80 && Typed(children, e.inside, true)
       case Container(_, KInstance, children) => e.Nested? && e.typeBits == 0x00 && Typed(children, e.inside, inMultiple)
       case Container(_, KObject, _) => false
  }

  /** At every depth the types on the wire are those of the tree. */
  lemma {:induction false} TypesOnWire(isInstance: bool, ds: seq<Node>)
    requires Encodable(ds)
    ensures Typed(ds, Elements(Encode(isInstance, ds)), isInstance)
    decreases ds
  {
    if ds == [] {
      assert Encode(isInstance, ds) == [];
    } else {
      var tail := Encode(isInstance, ds[1..]);
      TypesOnWire(isInstance, ds[1..]);
      NodeTypeOnWire(isInstance, ds[0], tail);
      var es := Elements(Encode(isInstance, ds));
      assert es[1..] == Elements(tail);
    }
  }

  lemma {:induction false} NodeTypeOnWire(isInstance: bool, d: Node, tail: seq<byte>)
    requires NodeEncodable(d)
    ensures var es := Elements(EncodeNode(isInstance, d) + tail);
            es != [] && NodeTyped(d, es[0], isInstance) && es[1..] == Elements(tail)
    decreases d
  {
    match d
    case Resource(id, v) =>
      HeaderDecodes(LeafBits(isInstance), id, EncodeValue(v), tail);
      Framed(Header(LeafBits(isInstance), id, |EncodeValue(v)|), EncodeValue(v), tail);
    case Container(id, kind, children) =>
      var inner := isInstance || kind.KMultiple?;
      TypesOnWire(inner, children);
      HeaderDecodes(ContainerBits(kind), id, Encode(inner, children), tail);
      Framed(Header(ContainerBits(kind), id, Length(children)), Encode(inner, children), tail);
  }

  // ----- the imperative passes ----------------------------------------------------------------

  /** `prv_getLength` */
  method GetLength(ds: seq<Node>) returns (length: int)
    ensures length == Length(ds)
    decreases ds
  {
    length := 0;
    var i := 0;
    while i < |ds| && length != -1
      invariant 0 <= i <= |ds|
      invariant length == Length(ds[..i])
    {
      LengthSnoc(ds, i);
      match ds[i] {
        case Undefined(_) => length := -1;
        case Resource(id, v) => length := length + HeaderLength(id, |EncodeValue(v)|) + |EncodeValue(v)|;
        case Container(id, kind, children) =>
          if kind.KObject? {
            length := -1;
          } else {
            var subLength := GetLength(children);
            length := if subLength == -1 then -1 else length + HeaderLength(id, subLength) + subLength;
          }
      }
      i := i + 1;
    }
    LengthPrefix(ds, i);
    assert i == |ds| ==> ds[..i] == ds;
  }

  lemma {:induction false} ShortField(n: nat)
    requires n <= 0xFF
    ensures ToBigEndian(n, 1) == [n]
  {
    assert ToBigEndian(n / 256, 0) == [];
  }

  lemma {:induction false} MediumField(n: nat)
    requires n <= 0xFFFF
    ensures ToBigEndian(n, 2) == [n / 0x100, n % 0x100]
  {
    ShortField(n / 256);
  }

  lemma {:induction false} LongField(n: nat)
    requires n <= 0xFF_FFFF
    ensures ToBigEndian(n, 3) == [n / 0x1_0000, n / 0x100 % 0x100, n % 0x100]
  {
    MediumField(n / 256);
    assert n / 256 / 256 == n / 0x1_0000;
  }

  /** The length field of a header. A body too long for 24 bits leaves it unwritten. */
  method WriteLengthField(buffer: array<byte>, offset: nat, dataLen: nat)
    requires offset + LengthWidth(dataLen) <= buffer.Length
    modifies buffer
    ensures dataLen <= MAX_BODY ==>
              Wrote(old(buffer[..]), buffer[..], offset, ToBigEndian(dataLen, LengthWidth(dataLen)))
  {
    if dataLen <= 7 {
    } else if dataLen <= 0xFF {
      ShortField(dataLen);
      buffer[offset] := dataLen;
    } else if dataLen <= 0xFFFF {
      MediumField(dataLen);
      buffer[offset] := dataLen / 0x100;
      buffer[offset + 1] := dataLen % 0x100;
    } else if dataLen <= 0xFF_FFFF {
      LongField(dataLen);
      buffer[offset] := dataLen / 0x1_0000;
      buffer[offset + 1] := dataLen / 0x100 % 0x100;
      buffer[offset + 2] := dataLen % 0x100;
    }
  }

  method WriteIdField(buffer: array<byte>, at: nat, id: uint16) returns (offset: nat)
    requires at + |IdBytes(id)| <= buffer.Length
    modifies buffer
    ensures offset == at + |IdBytes(id)|
    ensures Wrote(old(buffer[..]), buffer[..], at, IdBytes(id))
  {
    if id > 0xFF {
      buffer[at] := id / 0x100;
      buffer[at + 1] := id % 0x100;
      offset := at + 2;
    } else {
      buffer[at] := id;
      offset := at + 1;
    }
  }

  /** `prv_createHeader` */
  method CreateHeader(buffer: array<byte>, at: nat, typeBits: byte, id: uint16, dataLen: nat) returns (headerLen: nat)
    requires IsTypeBits(typeBits)
    requires at + HeaderLength(id, dataLen) <= buffer.Length
    modifies buffer
    ensures headerLen == HeaderLength(id, dataLen)
    ensures dataLen <= MAX_BODY ==> Wrote(old(buffer[..]), buffer[..], at, Header(typeBits, id, dataLen))
  {
    headerLen := HeaderLength(id, dataLen);
    ghost var s0 := buffer[..];
    var first := FirstByte(typeBits, id, dataLen);
    CopyBytes(buffer, at, [first]);
    ghost var s1 := buffer[..];
    var offset := WriteIdField(buffer, at + 1, id);
    ghost var s2 := buffer[..];
    WriteLengthField(buffer, offset, dataLen);
    if dataLen <= MAX_BODY {
      WroteMore(s0, s1, s2, at, [first], IdBytes(id));
      WroteMore(s0, s2, buffer[..], at, [first] + IdBytes(id), ToBigEndian(dataLen, LengthWidth(dataLen)));
    }
  }

  /** One node: a header and a body whose bytes are known. */
  method WriteNode(buffer: array<byte>, at: nat, typeBits: byte, id: uint16, body: seq<byte>) returns (next: nat)
    requires IsTypeBits(typeBits)
    requires at + HeaderLength(id, |body|) + |body| <= buffer.Length
    modifies buffer
    ensures next == at + HeaderLength(id, |body|) + |body|
    ensures |body| <= MAX_BODY ==> Wrote(old(buffer[..]), buffer[..], at, Header(typeBits, id, |body|) + body)
  {
    ghost var s0 := buffer[..];
    var headerLen := CreateHeader(buffer, at, typeBits, id, |body|);
    ghost var s1 := buffer[..];
    CopyBytes(buffer, at + headerLen, body);
    next := at + headerLen + |body|;
    if |body| <= MAX_BODY {
      WroteMore(s0, s1, buffer[..], at, Header(typeBits, id, |body|), body);
    }
  }

  /** The body of the loop of `tlv_serialize`: -1 for a node the format has no form for. */
  method SerializeNode(buffer: array<byte>, at: nat, isInstance: bool, d: Node) returns (next: int)
    requires NodeLength(d) >= 0 ==> at + NodeLength(d) <= buffer.Length
    modifies buffer
    ensures next == if NodeLength(d) == -1 then -1 else at + NodeLength(d)
    ensures NodeEncodable(d) ==> Wrote(old(buffer[..]), buffer[..], at, EncodeNode(isInstance, d))
    decreases d, 1
  {
    match d {
      case Undefined(_) => next := -1;
      case Resource(id, v) =>
        next := WriteNode(buffer, at, LeafBits(isInstance), id, EncodeValue(v));
      case Container(id, kind, children) =>
        if kind.KObject? { return -1; }
        var res, inner := Serialize(isInstance || kind.KMultiple?, children);
        if res < 0 { return -1; }
        next := WriteNode(buffer, at, ContainerBits(kind), id, if inner == null then [] else inner[..]);
    }
  }

  /** `tlv_serialize`. The size pass and the writing pass agree on every forest: the buffer that
      the size pass asks for is filled exactly, and a positive length is always returned. */
  method Serialize(isResourceInstance: bool, ds: seq<Node>) returns (length: int, buffer: array?<byte>)
    ensures length == Length(ds)
    ensures length > 0 <==> buffer != null
    ensures buffer != null ==> fresh(buffer) && buffer.Length == length
    ensures Encodable(ds) ==> Encode(isResourceInstance, ds) == if buffer == null then [] else buffer[..]
    decreases ds, 0
  {
    buffer := null;
    length := GetLength(ds);
    if length <= 0 { return; }
    var out := new byte[length];
    var index := 0;
    var i := 0;
    while i < |ds| && length != 0
      invariant 0 <= i <= |ds|
      invariant length == Length(ds) && out.Length == length
      invariant 0 <= index && index == Length(ds[..i]) && index <= length
      invariant Encodable(ds) ==> HoldsPrefix(isResourceInstance, ds, i, out[..], index)
    {
      ghost var before := out[..];
      PrefixStep(ds, i);
      var next := SerializeNode(out, index, isResourceInstance, ds[i]);
      if next < 0 {
        length := -1;
      } else {
        index := next;
      }
      if Encodable(ds) {
        PrefixGrows(isResourceInstance, ds, i, before, out[..]);
      }
      i := i + 1;
    }
    assert ds[..|ds|] == ds;
    buffer := out;
  }

  /** The first `index` bytes of `s` are the encoding of the first `i` nodes. */
  ghost predicate HoldsPrefix(isInstance: bool, ds: seq<Node>, i: nat, s: seq<byte>, index: nat)
    requires Encodable(ds) && i <= |ds|
  {
    index <= |s| && s[..index] == Encode(isInstance, ds[..i])
  }

  lemma {:induction false} PrefixStep(ds: seq<Node>, i: nat)
    requires i < |ds| && Length(ds) != -1
    ensures NodeLength(ds[i]) >= 0 && 0 <= Length(ds[..i])
    ensures Length(ds[..i + 1]) == Length(ds[..i]) + NodeLength(ds[i]) && Length(ds[..i + 1]) <= Length(ds)
  {
    LengthSnoc(ds, i);
    LengthPrefix(ds, i + 1);
  }

  lemma {:induction false} PrefixGrows(isInstance: bool, ds: seq<Node>, i: nat, before: seq<byte>, after: seq<byte>)
    requires Encodable(ds) && i < |ds| && Length(ds[..i]) >= 0
    requires HoldsPrefix(isInstance, ds, i, before, Length(ds[..i]))
    requires NodeEncodable(ds[i]) ==> Wrote(before, after, Length(ds[..i]), EncodeNode(isInstance, ds[i]))
    ensures HoldsPrefix(isInstance, ds, i + 1, after, Length(ds[..i]) + NodeLength(ds[i]))
  {
    assert NodeEncodable(ds[i]);
    EncodeSnoc(isInstance, ds, i);
  }

  /** One element of the loop of `tlv_parse`. */
  method ParseElement(h: Decoded, body: seq<byte>) returns (node: Option<Node>)
    requires 0 <= h.id < 0x1_0000
    ensures node == ParseNode(h, body)
    decreases |body|, 1
  {
    if h.typeBits == TYPE_INSTANCE || h.typeBits == TYPE_MULTIPLE {
      var count, children := ParseBuffer(body);
      if count == 0 { return None; }
      node := Some(Container(h.id, if h.typeBits == TYPE_MULTIPLE then KMultiple else KInstance, children));
    } else {
      node := Some(Resource(h.id, Opaque(body)));
    }
  }

  /** `tlv_parse` */
  method ParseBuffer(buffer: seq<byte>) returns (size: nat, data: seq<Node>)
    ensures match Parse(buffer)
            case None => size == 0
            case Some(ds) => size == |ds| && data == ds
    decreases |buffer|, 0
  {
    size, data := 0, [];
    var rest := buffer;
    var header := DecodeHeader(rest);
    PrependNothing(Parse(buffer));
    while header.Some?
      invariant |rest| <= |buffer| && size == |data|
      invariant header == DecodeHeader(rest)
      invariant Parse(buffer) == Prepend(data, Parse(rest))
      decreases |rest|
    {
      var h := header.value;
      var node := ParseElement(h, rest[h.dataIndex..h.dataIndex + h.dataLen]);
      if node == None { return 0, []; }
      rest := rest[h.dataIndex + h.dataLen..];
      PrependOne(data, node.value, Parse(rest));
      data := data + [node.value];
      size := size + 1;
      header := DecodeHeader(rest);
    }
  }

  function Prepend(done: seq<Node>, rest: Option<seq<Node>>): Option<seq<Node>>
  {
    match rest
    case None => None
    case Some(more) => Some(done + more)
  }

  lemma {:induction false} PrependNothing(rest: Option<seq<Node>>)
    ensures Prepend([], rest) == rest
  {
    if rest.Some? {
      assert [] + rest.value == rest.value;
    }
  }

  lemma {:induction false} PrependOne(done: seq<Node>, d: Node, rest: Option<seq<Node>>)
    ensures Prepend(done, Prepend([d], rest)) == Prepend(done + [d], rest)
  {
    if rest.Some? {
      assert done + ([d] + rest.value) == (done + [d]) + rest.value;
    }
  }
}
