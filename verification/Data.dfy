/** The resource tree `lwm2m_data_t` (include/liblwm2m.h:387-433) and the decoding of resource
    values (data/data.c:294-583). Floating-point resources are not part of this model. */
module Data {
  import opened Bytes
  import Decimal

  datatype Value =
    | Str(bytes: seq<byte>)
    | Opaque(bytes: seq<byte>)
    | CoreLink(bytes: seq<byte>)
    | Integer(i: int64)
    | Unsigned(u: uint64)
    | Boolean(b: bool)
    | ObjectLink(objectId: uint16, instanceId: uint16)

  datatype Kind = KObject | KInstance | KMultiple

  /** One node: a value, a container, or a node whose type is still undefined. */
  datatype Node =
    | Undefined(id: uint16)
    | Resource(id: uint16, value: Value)
    | Container(id: uint16, kind: Kind, children: seq<Node>)

  /** `lwm2m_data_decode_int` */
  function DecodeInt(v: Value): Option<int>
  {
    match v
    case Integer(i) => Some(i)
    case Unsigned(u) => if u <= INT64_MAX then Some(u) else None
    case Str(s) => Decimal.TextToInt(s)
    case Opaque(s) =>
      if |s| == 1 || |s| == 2 || |s| == 4 || |s| == 8
      then Some(Signed(FromBigEndian(s), |s|))
      else None
    case _ => None
  }

  /** `lwm2m_data_decode_uint` */
  function DecodeUnsigned(v: Value): Option<nat>
  {
    match v
    case Integer(i) => if i >= 0 then Some(i) else None
    case Unsigned(u) => Some(u)
    case Str(s) => Decimal.TextToUnsigned(s)
    case Opaque(s) =>
      if |s| == 1 || |s| == 2 || |s| == 4 || |s| == 8
      then Some(FromBigEndian(s))
      else None
    case _ => None
  }

  /** `lwm2m_data_decode_bool` */
  function DecodeBool(v: Value): Option<bool>
  {
    match v
    case Boolean(b) => Some(b)
    case Str(s) =>
      if |s| != 1 then None
      else if s[0] == 48 then Some(false)
      else if s[0] == 49 then Some(true)
      else None
    case Opaque(s) =>
      if |s| != 1 then None
      else if s[0] == 0 then Some(false)
      else if s[0] == 1 then Some(true)
      else None
    case _ => None
  }

  /** A truth value, the digit 0 or 1 as text, and the byte 0 or 1 stand for a truth value; nothing else does. */
  lemma {:induction false} DecodeBoolExact(v: Value)
    ensures DecodeBool(v) == Some(true) <==> v == Boolean(true) || v == Str([49]) || v == Opaque([1])
    ensures DecodeBool(v) == Some(false) <==> v == Boolean(false) || v == Str([48]) || v == Opaque([0])
  {
    if (v.Str? || v.Opaque?) && |v.bytes| == 1 {
      assert v.bytes == [v.bytes[0]];
    }
  }
}
