/** CBOR data items (data/cbor.c; section 3 of RFC 8949). Floating-point items are not part of this
    model: their bytes are read as far as the head and then refused. */
module Cbor {
  import opened Bytes
  import opened Data
  import Decimal

  const SIMPLE_FALSE: nat := 20
  const SIMPLE_TRUE: nat := 21

  // Major types.
  const UNSIGNED_INTEGER: nat := 0
  const NEGATIVE_INTEGER: nat := 1
  const BYTE_STRING: nat := 2
  const TEXT_STRING: nat := 3
  const ARRAY: nat := 4
  const MAP: nat := 5
  const FLOATING_OR_SIMPLE: nat := 7

  datatype ItemType = TUnsigned | TNegative | TFloat | TTag | TSimple | TBreak | TBytes | TText | TArray | TMap

  /** The head of an item: its type, its argument (-1 minus it for negative integers) and how many bytes it took. */
  datatype Head = Head(itemType: ItemType, value: int, size: nat)

  // ----- heads --------------------------------------------------------------------------------

  /** How many bytes the argument takes after the first byte. */
  function ArgumentWidth(val: uint64): nat
  {
    if val < 24 then 0 else if val < 0xFF then 1 else if val < 0xFFFF then 2 else if val < 0xFFFF_FFFF then 4 else 8
  }

  /** The additional information that announces a width. */
  function WidthCode(width: nat): nat
  {
    if width == 1 then 24 else if width == 2 then 25 else if width == 4 then 26 else 27
  }

  /** `prv_serialize_value` */
  function HeadBytes(major: nat, val: uint64): (s: seq<byte>)
    requires major < 8
    ensures 1 <= |s| == 1 + ArgumentWidth(val)
  {
    var width := ArgumentWidth(val);
    [32 * major + if width == 0 then val else WidthCode(width)] + ToBigEndian(val, width)
  }

  function MajorType(major: nat): ItemType
    requires major < 7
  {
    if major == 0 then TUnsigned else if major == 1 then TNegative else if major == 2 then TBytes
    else if major == 3 then TText else if major == 4 then TArray else if major == 5 then TMap else TTag
  }

  /** The argument of a head: the additional information itself, or the bytes that follow. */
  function Argument(info: nat, field: seq<byte>): (val: uint64)
    requires info < 32 && |field| <= 8
  {
    if field == [] then info
    else
      FromBigEndianBound(field);
      assert Pow256(1) == 0x100 && Pow256(2) == 0x1_0000 && Pow256(3) == 0x100_0000 && Pow256(4) == 0x1_0000_0000;
      assert Pow256(5) == 0x100_0000_0000 && Pow256(6) == 0x1_0000_0000_0000 && Pow256(7) == 0x100_0000_0000_0000;
      assert Pow256(8) == UINT64_MAX + 1;
      FromBigEndian(field)
  }

  /** `cbor_get_type_and_value` */
  function ReadHead(buffer: seq<byte>): (r: Option<Head>)
    ensures r.Some? ==> 1 <= r.value.size <= |buffer|
    ensures r.Some? ==> if r.value.itemType.TNegative? then INT64_MIN <= r.value.value < 0 else 0 <= r.value.value <= UINT64_MAX
  {
    if buffer == [] then None
    else
      var major := buffer[0] / 32;
      var info := buffer[0] % 32;
      var width := if info == 24 then 1 else if info == 25 then 2 else if info == 26 then 4 else if info == 27 then 8 else 0;
      if |buffer| < 1 + width || 28 <= info <= 30 then None
      else
        var val := Argument(info, buffer[1..1 + width]);
        if major == 1 then (if val > INT64_MAX then None else Some(Head(TNegative, -1 - val, 1 + width)))
        else if major < 7 then Some(Head(MajorType(major), val, 1 + width))
        else if 25 <= info <= 27 then Some(Head(TFloat, val, 1 + width))
        else if info == 31 then Some(Head(TBreak, 0, 1))
        else Some(Head(TSimple, val, 1 + width))
  }

  lemma {:induction false} HeadRoundTrip(major: nat, val: uint64, rest: seq<byte>)
    requires major < 7 && (major == NEGATIVE_INTEGER ==> val <= INT64_MAX)
    ensures ReadHead(HeadBytes(major, val) + rest)
         == Some(Head(MajorType(major), if major == NEGATIVE_INTEGER then -1 - val else val, |HeadBytes(major, val)|))
  {
    var width := ArgumentWidth(val);
    var s := HeadBytes(major, val) + rest;
    var info := if width == 0 then val else WidthCode(width);
    assert s[0] == 32 * major + info && s[0] / 32 == major && s[0] % 32 == info;
    assert s[1..1 + width] == ToBigEndian(val, width);
    if width > 0 {
      WidthHolds(val);
      BigEndianRoundTrip(val, width);
    }
    hide ToBigEndian, FromBigEndian;
  }

  lemma {:induction false} WidthHolds(val: uint64)
    ensures ArgumentWidth(val) > 0 ==> val < Pow256(ArgumentWidth(val))
  {
    assert Pow256(1) == 0x100 && Pow256(2) == 0x1_0000 && Pow256(4) == 0x1_0000_0000 && Pow256(8) == UINT64_MAX + 1;
  }

  lemma {:induction false} SimpleRoundTrip(val: uint64, rest: seq<byte>)
    requires val < 24
    ensures ReadHead(HeadBytes(FLOATING_OR_SIMPLE, val) + rest) == Some(Head(TSimple, val, 1))
  {
  }

  /** A head that is read as this type and argument. */
  predicate IsHeadOf(buffer: seq<byte>, major: nat, val: uint64)
    requires major < 7
  {
    var r := ReadHead(buffer);
    r.Some? && r.value.itemType == MajorType(major) && r.value.value == if major == 1 then -1 - val else val
  }

  /** No head is shorter than the one that is written, but for four arguments: the writer takes the next width for the
      largest number of each, and the reader takes the mark of an indefinite length for a length of 31. */
  lemma {:induction false} ShortestHead(major: nat, val: uint64)
    requires major < 7 && (major == 1 ==> val <= INT64_MAX)
    ensures (forall buffer: seq<byte> :: IsHeadOf(buffer, major, val) ==> |HeadBytes(major, val)| <= ReadHead(buffer).value.size)
            <==> val != 31 && val != 0xFF && val != 0xFFFF && val != 0xFFFF_FFFF
  {
    if val == 31 || val == 0xFF || val == 0xFFFF || val == 0xFFFF_FFFF {
      ShorterHead(major, val);
    } else {
      forall buffer: seq<byte> | IsHeadOf(buffer, major, val) ensures |HeadBytes(major, val)| <= ReadHead(buffer).value.size {
        HeadIsLongEnough(buffer, major, val);
      }
    }
    hide IsHeadOf;
  }

  lemma {:induction false} HeadIsLongEnough(buffer: seq<byte>, major: nat, val: uint64)
    requires major < 7 && IsHeadOf(buffer, major, val) && val != 31 && val != 0xFF && val != 0xFFFF && val != 0xFFFF_FFFF
    ensures |HeadBytes(major, val)| <= ReadHead(buffer).value.size
  {
    var width := ReadHead(buffer).value.size - 1;
    assert Pow256(1) == 0x100 && Pow256(2) == 0x1_0000 && Pow256(4) == 0x1_0000_0000;
    FromBigEndianBound(buffer[1..1 + width]);
    hide FromBigEndian, ToBigEndian;
  }

  lemma {:induction false} ShorterHead(major: nat, val: uint64)
    requires major < 7 && (val == 31 || val == 0xFF || val == 0xFFFF || val == 0xFFFF_FFFF)
    ensures exists buffer: seq<byte> :: IsHeadOf(buffer, major, val) && ReadHead(buffer).value.size < |HeadBytes(major, val)|
  {
    var width := if val == 31 then 0 else if val == 0xFF then 1 else if val == 0xFFFF then 2 else 4;
    var (first: byte, field) := (32 * major + (if val == 31 then 31 else WidthCode(width)), ToBigEndian(val, width));
    var buffer := [first] + field;
    assert Pow256(1) == 0x100 && Pow256(2) == 0x1_0000 && Pow256(4) == 0x1_0000_0000;
    BigEndianRoundTrip(if val == 31 then 0 else val, width);
    assert first / 32 == major && first % 32 == if val == 31 then 31 else WidthCode(width);
    assert buffer[1..1 + width] == field;
    hide FromBigEndian, ToBigEndian;
    assert IsHeadOf(buffer, major, val);
  }

  // ----- values -------------------------------------------------------------------------------

  function LinkText(objectId: uint16, instanceId: uint16): seq<byte>
  {
    Decimal.Digits(objectId) + [Decimal.COLON] + Decimal.Digits(instanceId)
  }

  lemma {:induction false} LinkTextShort(objectId: uint16, instanceId: uint16)
    ensures |LinkText(objectId, instanceId)| <= 11
  {
    Decimal.DigitsLength16(objectId);
    Decimal.DigitsLength16(instanceId);
  }

  /** Does the value have a length that a head can carry? */
  predicate Sizable(v: Value) {
    (v.Str? || v.Opaque? || v.CoreLink?) ==> |v.bytes| <= UINT64_MAX
  }

  /** The bytes `cbor_put_singular` writes. */
  function SingularBytes(v: Value): (s: seq<byte>)
    requires Sizable(v)
    ensures |s| >= 1
  {
    match v
    case Str(s) => HeadBytes(TEXT_STRING, |s|) + s
    case CoreLink(s) => HeadBytes(TEXT_STRING, |s|) + s
    case Opaque(s) => HeadBytes(BYTE_STRING, |s|) + s
    case Integer(i) => if i < 0 then HeadBytes(NEGATIVE_INTEGER, -1 - i) else HeadBytes(UNSIGNED_INTEGER, i)
    case Unsigned(u) => HeadBytes(UNSIGNED_INTEGER, u)
    case Boolean(b) => HeadBytes(FLOATING_OR_SIMPLE, if b then SIMPLE_TRUE else SIMPLE_FALSE)
    case ObjectLink(o, i) =>
      LinkTextShort(o, i);
      HeadBytes(TEXT_STRING, |LinkText(o, i)|) + LinkText(o, i)
  }

  /** The room `cbor_put_singular` asks for: printing a link needs a byte for the final NUL. */
  function SingularRoom(v: Value): nat
    requires Sizable(v)
  {
    |SingularBytes(v)| + if v.ObjectLink? then 1 else 0
  }

  /** What comes of writing: the number of bytes written, a refusal, or bytes written behind the end of the buffer. */
  datatype Outcome = Fits(n: nat) | Refused | Overran

  /** The contents that are copied behind the head without asking for room. */
  function Contents(v: Value): seq<byte>
  {
    match v
    case Str(s) => s
    case CoreLink(s) => s
    case Opaque(s) => s
    case _ => []
  }

  /** Does `cbor_put_singular` write behind the end of a buffer with this much room? Its head fits, its contents do not;
      or it is an object link, which is printed one byte further on, and there is no room at all. */
  predicate Overruns(v: Value, room: nat)
    requires Sizable(v)
  {
    if v.ObjectLink? then room == 0 else |SingularBytes(v)| - |Contents(v)| <= room < |SingularBytes(v)|
  }

  /** What comes of `cbor_put_singular` with this much room. */
  function PutOutcome(v: Value, room: nat): (o: Outcome)
    requires Sizable(v)
    ensures o.Fits? ==> 0 < o.n <= room
  {
    if Overruns(v, room) then Overran else if SingularRoom(v) <= room then Fits(|SingularBytes(v)|) else Refused
  }

  /** Numbers and booleans never overrun; a string stays inside exactly when all of it fits or not even its head does. */
  lemma {:induction false} StaysInside(v: Value, room: nat)
    requires Sizable(v)
    ensures !v.Str? && !v.CoreLink? && !v.Opaque? && !v.ObjectLink? ==> !PutOutcome(v, room).Overran?
    ensures v.Str? || v.CoreLink? || v.Opaque? ==>
              (!PutOutcome(v, room).Overran? <==>
                |SingularBytes(v)| <= room || |HeadBytes(if v.Opaque? then BYTE_STRING else TEXT_STRING, |v.bytes|)| > room)
    ensures v.ObjectLink? ==> (!PutOutcome(v, room).Overran? <==> room > 0)
  {
    hide HeadBytes, LinkText;
  }

  datatype Singular = Singular(value: Value, size: nat)

  /** The loop of `cbor_get_singular`; one semantic tag is skipped. */
  function GetSingularFrom(buffer: seq<byte>, at: nat, tagSeen: bool): (r: Option<Singular>)
    requires at <= |buffer|
    ensures r.Some? ==> at < r.value.size <= |buffer|
    decreases |buffer| - at
  {
    match ReadHead(buffer[at..])
    case None => None
    case Some(h) =>
      var next := at + h.size;
      match h.itemType
      case TUnsigned => Some(Singular(Unsigned(h.value), next))
      case TNegative => Some(Singular(Integer(h.value), next))
      case TTag => if tagSeen then None else GetSingularFrom(buffer, next, true)
      case TSimple =>
        if h.value == SIMPLE_FALSE then Some(Singular(Boolean(false), next))
        else if h.value == SIMPLE_TRUE then Some(Singular(Boolean(true), next))
        else None
      case TBytes => if h.value > |buffer| - next then None else Some(Singular(Opaque(buffer[next..next + h.value]), next + h.value))
      case TText => if h.value > |buffer| - next then None else Some(Singular(Str(buffer[next..next + h.value]), next + h.value))
      case _ => None
  }

  /** `cbor_get_singular` */
  function GetSingular(buffer: seq<byte>): (r: Option<Singular>)
    ensures r.Some? ==> 0 < r.value.size <= |buffer|
  {
    GetSingularFrom(buffer, 0, false)
  }

  /** What is left of a value on the wire: signs of non-negative integers and the types of links are lost. */
  function Received(v: Value): Value
  {
    match v
    case Integer(i) => if i >= 0 then Unsigned(i) else v
    case CoreLink(s) => Str(s)
    case ObjectLink(o, i) => Str(LinkText(o, i))
    case _ => v
  }

  lemma {:induction false} StringRoundTrip(major: nat, s: seq<byte>, rest: seq<byte>)
    requires (major == TEXT_STRING || major == BYTE_STRING) && |s| <= UINT64_MAX
    ensures GetSingular(HeadBytes(major, |s|) + s + rest)
         == Some(Singular(if major == TEXT_STRING then Str(s) else Opaque(s), |HeadBytes(major, |s|)| + |s|))
  {
    var h := HeadBytes(major, |s|);
    HeadRoundTrip(major, |s|, s + rest);
    var buffer := h + s + rest;
    assert buffer[0..] == buffer == h + (s + rest);
    assert buffer[|h|..|h| + |s|] == s;
    hide HeadBytes, ReadHead;
  }

  /** A value written and read back: what is received, and not a byte more. */
  lemma {:induction false} SingularRoundTrip(v: Value, rest: seq<byte>)
    requires Sizable(v)
    ensures GetSingular(SingularBytes(v) + rest) == Some(Singular(Received(v), |SingularBytes(v)|))
  {
    var buffer := SingularBytes(v) + rest;
    assert buffer[0..] == buffer;
    hide HeadBytes, ReadHead, LinkText;
    match v
    case Str(s) => StringRoundTrip(TEXT_STRING, s, rest);
    case CoreLink(s) => StringRoundTrip(TEXT_STRING, s, rest);
    case Opaque(s) => StringRoundTrip(BYTE_STRING, s, rest);
    case ObjectLink(o, i) =>
      LinkTextShort(o, i);
      StringRoundTrip(TEXT_STRING, LinkText(o, i), rest);
    case Integer(i) =>
      if i < 0 { HeadRoundTrip(NEGATIVE_INTEGER, -1 - i, rest); } else { HeadRoundTrip(UNSIGNED_INTEGER, i, rest); }
    case Unsigned(u) => HeadRoundTrip(UNSIGNED_INTEGER, u, rest);
    case Boolean(b) => SimpleRoundTrip(if b then SIMPLE_TRUE else SIMPLE_FALSE, rest);
  }

  const SEMANTIC_TAG: nat := 6

  /** One tag before a value is skipped. */
  lemma {:induction false} TagIsSkipped(tag: uint64, v: Value, rest: seq<byte>)
    requires Sizable(v)
    ensures GetSingular(HeadBytes(SEMANTIC_TAG, tag) + (SingularBytes(v) + rest))
         == Some(Singular(Received(v), |HeadBytes(SEMANTIC_TAG, tag)| + |SingularBytes(v)|))
  {
    hide HeadBytes, ReadHead, SingularBytes, Received;
    NoTag(v, rest);
    SingularRoundTrip(v, rest);
    TagAhead(tag, SingularBytes(v) + rest);
  }

  /** A second one is refused. */
  lemma {:induction false} TagsAreRefused(tag: uint64, other: uint64, rest: seq<byte>)
    ensures GetSingular(HeadBytes(SEMANTIC_TAG, tag) + (HeadBytes(SEMANTIC_TAG, other) + rest)) == None
  {
    hide HeadBytes, ReadHead;
    var (head, more) := (HeadBytes(SEMANTIC_TAG, tag), HeadBytes(SEMANTIC_TAG, other) + rest);
    HeadRoundTrip(SEMANTIC_TAG, tag, more);
    HeadRoundTrip(SEMANTIC_TAG, other, rest);
    assert (head + more)[0..] == head + more && (head + more)[|head|..] == more;
    assert GetSingularFrom(head + more, |head|, true) == None;
  }

  lemma {:induction false} TagAhead(tag: uint64, more: seq<byte>)
    requires ReadHead(more).Some? && !ReadHead(more).value.itemType.TTag?
    ensures var (head, b) := (HeadBytes(SEMANTIC_TAG, tag), GetSingular(more));
            GetSingular(head + more) == if b.None? then None else Some(Singular(b.value.value, |head| + b.value.size))
  {
    hide HeadBytes, ReadHead;
    var head := HeadBytes(SEMANTIC_TAG, tag);
    HeadRoundTrip(SEMANTIC_TAG, tag, more);
    assert (head + more)[0..] == head + more && (head + more)[|head|..] == more;
    FromBehind(head + more, |head|);
    hide GetSingular;
  }

  lemma {:induction false} NoTag(v: Value, rest: seq<byte>)
    requires Sizable(v)
    ensures ReadHead(SingularBytes(v) + rest).Some? && !ReadHead(SingularBytes(v) + rest).value.itemType.TTag?
  {
    SingularRoundTrip(v, rest);
    var buffer := SingularBytes(v) + rest;
    assert buffer[0..] == buffer;
    hide ReadHead, SingularBytes;
  }

  /** Without a tag it makes no difference where an item begins, and whether a tag was seen. */
  lemma {:induction false} FromBehind(buffer: seq<byte>, at: nat)
    requires at <= |buffer| && (ReadHead(buffer[at..]).Some? ==> !ReadHead(buffer[at..]).value.itemType.TTag?)
    ensures var (a, b) := (GetSingularFrom(buffer, at, true), GetSingular(buffer[at..]));
            (a.None? <==> b.None?) && (a.Some? ==> a.value == Singular(b.value.value, at + b.value.size))
  {
    var rest := buffer[at..];
    assert rest[0..] == rest;
    if ReadHead(rest).Some? {
      var h := ReadHead(rest).value;
      if (h.itemType.TBytes? || h.itemType.TText?) && h.value <= |rest| - h.size {
        assert buffer[at + h.size..at + h.size + h.value] == rest[h.size..h.size + h.value];
      }
    }
    hide ReadHead;
  }

  // ----- object links -------------------------------------------------------------------------

  datatype Link = Link(objectId: uint16, instanceId: uint16)

  /** The position of the first colon, or the length. */
  function ColonAt(s: seq<byte>): (k: nat)
    ensures k <= |s|
  {
    if s == [] || s[0] == Decimal.COLON then 0 else 1 + ColonAt(s[1..])
  }

  /** `utils_textToObjLink` */
  function TextToLink(s: seq<byte>): Option<Link>
  {
    var k := ColonAt(s);
    if k == 0 || k == |s| then None
    else
      match (Decimal.TextToUnsigned(s[..k]), Decimal.TextToUnsigned(s[k + 1..]))
      case (Some(o), Some(i)) => if o > 0xFFFF || i > 0xFFFF then None else Some(Link(o, i))
      case _ => None
  }

  lemma {:induction false} ColonAfterDigits(s: seq<byte>, rest: seq<byte>)
    requires Decimal.IsNumeral(s)
    ensures ColonAt(s + [Decimal.COLON] + rest) == |s|
  {
    var t := s + [Decimal.COLON] + rest;
    if s == [] {
    } else {
      assert Decimal.IsDigit(s[0]);
      ColonAfterDigits(s[1..], rest);
      assert t[1..] == s[1..] + [Decimal.COLON] + rest;
    }
  }

  lemma {:induction false} LinkRoundTrip(o: uint16, i: uint16)
    ensures TextToLink(LinkText(o, i)) == Some(Link(o, i))
  {
    var (a, b) := (Decimal.Digits(o), Decimal.Digits(i));
    ColonAfterDigits(a, b);
    Decimal.TextToUnsignedRoundTrip(o);
    Decimal.TextToUnsignedRoundTrip(i);
    assert LinkText(o, i)[..|a|] == a && LinkText(o, i)[|a| + 1..] == b;
  }

  // ----- the buffer writers -------------------------------------------------------------------

  /** `prv_serialize_value`: 0 when the room does not suffice. */
  method SerializeHead(buffer: array<byte>, at: nat, major: nat, val: uint64) returns (n: nat)
    requires at <= buffer.Length && major < 8
    modifies buffer
    ensures n == 0 <==> |HeadBytes(major, val)| > buffer.Length - at
    ensures buffer[..at] == old(buffer[..at])
    ensures n > 0 ==> n == |HeadBytes(major, val)| && Wrote(old(buffer[..]), buffer[..], at, HeadBytes(major, val))
  {
    var room := buffer.Length - at;
    var ai := 27;
    if val < 0xFF {
      if val < 24 {
        if room < 1 { return 0; }
        ai := val;
      } else {
        if room < 2 { return 0; }
        ai := 24;
      }
    } else if val < 0xFFFF {
      if room < 3 { return 0; }
      ai := 25;
    } else if val < 0xFFFF_FFFF {
      if room < 5 { return 0; }
      ai := 26;
    } else if room < 9 {
      return 0;
    }
    var width := if ai == 27 then 8 else if ai == 26 then 4 else if ai == 25 then 2 else if ai == 24 then 1 else 0;
    ghost var s0 := buffer[..];
    CopyBytes(buffer, at, [32 * major + ai] + ToBigEndian(val, width));
    assert buffer[..at] == buffer[..][..at + 1 + width][..at] == s0[..at];
    return 1 + width;
  }

  /** `cbor_put_singular`. It overruns the buffer where the head of a string fits and its contents do not; what is
      written then is not modelled. */
  method PutSingular(buffer: array<byte>, at: nat, v: Value) returns (o: Outcome)
    requires at <= buffer.Length && Sizable(v)
    modifies buffer
    ensures o == PutOutcome(v, buffer.Length - at)
    ensures o.Fits? ==> Wrote(old(buffer[..]), buffer[..], at, SingularBytes(v))
  {
    hide HeadBytes, LinkText, Wrote, ArgumentWidth;
    match v {
      case Str(s) => o := PutString(buffer, at, TEXT_STRING, s);
      case CoreLink(s) => o := PutString(buffer, at, TEXT_STRING, s);
      case Opaque(s) => o := PutString(buffer, at, BYTE_STRING, s);
      case Integer(i) =>
        if i < 0 {
          o := PutNumber(buffer, at, NEGATIVE_INTEGER, -1 - i);
        } else {
          o := PutNumber(buffer, at, UNSIGNED_INTEGER, i);
        }
      case Unsigned(u) => o := PutNumber(buffer, at, UNSIGNED_INTEGER, u);
      case Boolean(b) => o := PutNumber(buffer, at, FLOATING_OR_SIMPLE, if b then SIMPLE_TRUE else SIMPLE_FALSE);
      case ObjectLink(o_, i) =>
        LinkTextShort(o_, i);
        o := PutShortText(buffer, at, LinkText(o_, i));
    }
  }

  /** The branches that write nothing but a head. */
  method PutNumber(buffer: array<byte>, at: nat, major: nat, val: uint64) returns (o: Outcome)
    requires at <= buffer.Length && major < 8
    modifies buffer
    ensures o == if |HeadBytes(major, val)| <= buffer.Length - at then Fits(|HeadBytes(major, val)|) else Refused
    ensures o.Fits? ==> Wrote(old(buffer[..]), buffer[..], at, HeadBytes(major, val))
  {
    var n := SerializeHead(buffer, at, major, val);
    return if n == 0 then Refused else Fits(n);
  }

  /** The link branch: the text is printed behind the place of its head, with room for a final NUL. Without any room
      the room for the text wraps around, and `snprintf` prints behind the end. */
  method PutShortText(buffer: array<byte>, at: nat, text: seq<byte>) returns (o: Outcome)
    requires at <= buffer.Length && |text| < 24
    modifies buffer
    ensures var all := HeadBytes(TEXT_STRING, |text|) + text;
            && o == (if at == buffer.Length then Overran else if |all| < buffer.Length - at then Fits(|all|) else Refused)
            && (o.Fits? ==> Wrote(old(buffer[..]), buffer[..], at, all))
  {
    if at == buffer.Length { return Overran; }
    if buffer.Length - at - 1 <= |text| { return Refused; }
    CopyBytes(buffer, at + 1, text);
    ghost var s1 := buffer[..];
    buffer[at] := 32 * TEXT_STRING + |text|;
    assert buffer[at + 1..at + 1 + |text|] == s1[..at + 1 + |text|][at + 1..] == text;
    assert buffer[..at] == s1[..at + 1 + |text|][..at] == old(buffer[..at]);
    assert buffer[..at + 1 + |text|] == buffer[..at] + [buffer[at]] + buffer[at + 1..at + 1 + |text|];
    return Fits(1 + |text|);
  }

  /** The string branch: head, then contents, for which no room is asked. */
  method PutString(buffer: array<byte>, at: nat, major: nat, s: seq<byte>) returns (o: Outcome)
    requires at <= buffer.Length && major < 8 && |s| <= UINT64_MAX
    modifies buffer
    ensures var (head, room) := (HeadBytes(major, |s|), buffer.Length - at);
            && (o.Refused? <==> |head| > room)
            && (o.Overran? <==> |head| <= room < |head| + |s|)
            && (o.Fits? ==> o.n == |head + s| && Wrote(old(buffer[..]), buffer[..], at, head + s))
  {
    ghost var s0 := buffer[..];
    var n := SerializeHead(buffer, at, major, |s|);
    ghost var s1 := buffer[..];
    if n == 0 { return Refused; }
    if at + n + |s| > buffer.Length { return Overran; }
    CopyBytes(buffer, at + n, s);
    WroteMore(s0, s1, buffer[..], at, HeadBytes(major, |s|), s);
    return Fits(n + |s|);
  }

  /** `cbor_get_singular`, the loop that skips a tag. */
  method ReadSingular(buffer: seq<byte>) returns (r: Option<Singular>)
    ensures r == GetSingular(buffer)
  {
    hide ReadHead;
    var at := 0;
    var tagSeen := false;
    while true
      invariant at <= |buffer|
      invariant GetSingularFrom(buffer, at, tagSeen) == GetSingular(buffer)
      decreases |buffer| - at
    {
      var head := ReadHead(buffer[at..]);
      if head.None? { return None; }
      var h := head.value;
      at := at + h.size;
      match h.itemType {
        case TUnsigned => return Some(Singular(Unsigned(h.value), at));
        case TNegative => return Some(Singular(Integer(h.value), at));
        case TTag =>
          if tagSeen { return None; }
          tagSeen := true;
        case TSimple =>
          return if h.value == SIMPLE_FALSE then Some(Singular(Boolean(false), at))
                 else if h.value == SIMPLE_TRUE then Some(Singular(Boolean(true), at)) else None;
        case TBytes =>
          if h.value > |buffer| - at { return None; }
          return Some(Singular(Opaque(buffer[at..at + h.value]), at + h.value));
        case TText =>
          if h.value > |buffer| - at { return None; }
          return Some(Singular(Str(buffer[at..at + h.value]), at + h.value));
        case _ => return None;
      }
    }
  }
}
