/** CoAP packets and the encoding of single options (coap/er-coap-13/er-coap-13.h, sections 3 and
    3.1 of RFC 7252, section 2.2 of RFC 7959). */
module Coap {
  import opened Bytes

  const IF_MATCH: nat := 1
  const URI_HOST: nat := 3
  const ETAG: nat := 4
  const IF_NONE_MATCH: nat := 5
  const OBSERVE: nat := 6
  const URI_PORT: nat := 7
  const LOCATION_PATH: nat := 8
  const URI_PATH: nat := 11
  const CONTENT_TYPE: nat := 12
  const MAX_AGE: nat := 14
  const URI_QUERY: nat := 15
  const ACCEPT: nat := 17
  const TOKEN: nat := 19
  const LOCATION_QUERY: nat := 20
  const BLOCK2: nat := 23
  const BLOCK1: nat := 27
  const SIZE: nat := 28
  const PROXY_URI: nat := 35
  const OPTION_BITS: nat := 40

  const HEADER_LEN: nat := 4
  const ETAG_LEN: nat := 8
  const TOKEN_LEN: nat := 8
  const MAX_ACCEPT_NUM: nat := 2
  const MAX_OPTION_HEADER_LEN: nat := 5

  const BAD_REQUEST: uint8 := 128
  const BAD_OPTION: uint8 := 130
  const PROXYING_NOT_SUPPORTED: uint8 := 165

  datatype Block = Block(num: uint32, more: uint8, size: uint16, offset: uint32)

  const NoBlock: Block := Block(0, 0, 0, 0)

  /** `coap_packet_t`. `options` is the bitmap of options that are set. */
  datatype Packet = Packet(
    version: uint8, msgType: uint8, code: uint8, mid: uint16, token: seq<byte>, options: set<nat>,
    ifMatch: seq<byte>, uriHost: seq<byte>, etag: seq<byte>, ifNoneMatch: bool, observe: uint32, uriPort: uint16,
    locationPath: seq<seq<byte>>, uriPath: seq<seq<byte>>, contentType: uint16, maxAge: uint32,
    uriQuery: seq<seq<byte>>, accept: seq<uint16>, locationQuery: seq<byte>, block2: Block, block1: Block,
    size: uint32, proxyUri: seq<byte>, payload: seq<byte>)

  /** `coap_init_message` */
  function InitMessage(msgType: uint8, code: uint8, mid: uint16): Packet
  {
    Packet(0, msgType, code, mid, [], {}, [], [], [], false, 0, 0, [], [], 0, 0, [], [], [], NoBlock, NoBlock, 0, [], [])
  }

  // ----- option headers -----------------------------------------------------------------------

  /** `coap_option_nibble` */
  function Nibble(value: nat): (n: byte)
    ensures n <= 14
  {
    if value < 13 then value else if value <= 0xFF + 13 then 13 else 14
  }

  /** `coap_set_option_header_extended`; the C code subtracts 269 modulo 256 in the short form. */
  function Extended(value: nat): (s: seq<byte>)
    ensures |s| <= 2
  {
    if value >= 269 then ToBigEndian(value - 269, 2)
    else if value >= 13 then [(value - 269) % 256]
    else []
  }

  /** `coap_set_option_header` */
  function OptionHeader(delta: nat, length: nat): (s: seq<byte>)
    ensures 1 <= |s| <= MAX_OPTION_HEADER_LEN && s[0] != 0xFF
  {
    [Nibble(delta) * 16 + Nibble(length)] + Extended(delta) + Extended(length)
  }

  /** The largest delta or length that the 16-bit extension can express. */
  const MAX_EXTENDED: nat := 0xFFFF + 269

  /** Reads an extended value off the bytes after the first header byte: value and bytes used. */
  function ReadExtended(nibble: nat, rest: seq<byte>): Option<(nat, nat)>
  {
    if nibble == 13 then
      if |rest| < 1 then None else Some((13 + FromBigEndian(rest[..1]), 1))
    else if nibble == 14 then
      if |rest| < 2 then None else Some((269 + FromBigEndian(rest[..2]), 2))
    else Some((nibble, 0))
  }

  datatype OptionFrame = OptionFrame(delta: nat, length: nat, headerLen: nat)

  /** The header part of the option loop of `coap_parse_message`; None is a message format error. */
  function ReadOptionHeader(data: seq<byte>): (r: Option<OptionFrame>)
    requires data != []
    ensures r.Some? ==> 1 <= r.value.headerLen && r.value.headerLen + r.value.length <= |data|
  {
    var d := data[0] / 16;
    var l := data[0] % 16;
    if d == 15 || l == 15 then None
    else
      match ReadExtended(d, data[1..])
      case None => None
      case Some((delta, used)) =>
        match ReadExtended(l, data[1 + used..])
        case None => None
        case Some((length, more)) =>
          if 1 + used + more + length > |data| then None
          else Some(OptionFrame(delta, length, 1 + used + more))
  }

  lemma {:induction false} ExtendedReads(value: nat, rest: seq<byte>)
    requires value <= MAX_EXTENDED
    ensures ReadExtended(Nibble(value), Extended(value) + rest) == Some((value, |Extended(value)|))
  {
    if value >= 269 {
      assert Pow256(2) == 0x1_0000;
      assert (Extended(value) + rest)[..2] == Extended(value);
      BigEndianRoundTrip(value - 269, 2);
    } else if value >= 13 {
      assert (Extended(value) + rest)[..1] == [value - 13];
      assert FromBigEndian([]) == 0 && [value - 13][..0] == [];
    }
  }

  lemma {:induction false} FirstByteReads(delta: nat, length: nat)
    ensures var b := OptionHeader(delta, length)[0]; b / 16 == Nibble(delta) && b % 16 == Nibble(length)
  {
    var d: int, l: int := Nibble(delta), Nibble(length);
    assert (d * 16 + l) / 16 == d && (d * 16 + l) % 16 == l;
  }

  lemma {:induction false} HeaderTail(first: byte, x: seq<byte>, y: seq<byte>, rest: seq<byte>)
    ensures var data := [first] + x + y + rest;
            data[0] == first && data[1..] == x + (y + rest) && data[1 + |x|..] == y + rest
  {
  }

  lemma {:induction false} OptionHeaderReads(delta: nat, value: seq<byte>, rest: seq<byte>)
    requires delta <= MAX_EXTENDED && |value| <= MAX_EXTENDED
    ensures ReadOptionHeader(OptionHeader(delta, |value|) + value + rest)
         == Some(OptionFrame(delta, |value|, |OptionHeader(delta, |value|)|))
  {
    hide ReadExtended, Extended, Nibble;
    var data := OptionHeader(delta, |value|) + value + rest;
    FirstByteReads(delta, |value|);
    HeaderTail(Nibble(delta) * 16 + Nibble(|value|), Extended(delta), Extended(|value|), value + rest);
    assert data == OptionHeader(delta, |value|) + (value + rest);
    ExtendedReads(delta, Extended(|value|) + (value + rest));
    ExtendedReads(|value|, value + rest);
  }

  // ----- integers and blocks ------------------------------------------------------------------

  /** How many bytes `coap_serialize_int_option` spends on a value. */
  function ByteCount(v: uint32): (n: nat)
    ensures n <= 4
  {
    if v >= 0x100_0000 then 4 else if v >= 0x1_0000 then 3 else if v >= 0x100 then 2 else if v >= 1 then 1 else 0
  }

  function IntBytes(v: uint32): (s: seq<byte>)
    ensures |s| == ByteCount(v)
  {
    ToBigEndian(v, ByteCount(v))
  }

  /** `coap_parse_int_option`: a 32-bit accumulator, so only the last four bytes count. */
  function ParseInt(s: seq<byte>): uint32
  {
    FromBigEndian(s) % 0x1_0000_0000
  }

  lemma {:induction false} IntRoundTrip(v: uint32)
    ensures FromBigEndian(IntBytes(v)) == v
    ensures ParseInt(IntBytes(v)) == v
  {
    assert Pow256(0) == 1 && Pow256(1) == 0x100 && Pow256(2) == 0x1_0000 && Pow256(3) == 0x100_0000 && Pow256(4) == 0x1_0000_0000;
    BigEndianRoundTrip(v, ByteCount(v));
  }

  /** The position of the highest set bit, 0 for 0. */
  function Log2(v: nat): nat
  {
    if v < 2 then 0 else 1 + Log2(v / 2)
  }

  function Pow2(n: nat): (p: nat)
    ensures p > 0
  {
    if n == 0 then 1 else 2 * Pow2(n - 1)
  }

  lemma {:induction false} Log2OfPow2(n: nat)
    ensures Log2(Pow2(n)) == n
  {
    if n > 0 {
      Log2OfPow2(n - 1);
    }
  }

  /** `coap_log_2` */
  method ComputeLog2(value: uint16) returns (result: nat)
    ensures result == Log2(value)
  {
    var v: int := value / 2;
    result := 1;
    while v != 0
      invariant 0 <= v
      invariant result + (if v == 0 then 0 else 1 + Log2(v)) == 1 + Log2(value)
      decreases v
    {
      v := v / 2;
      result := result + 1;
    }
    result := result - 1;
  }

  /** `COAP_SERIALIZE_BLOCK_OPTION`: number, more bit and size exponent in one integer. */
  function BlockValue(b: Block): uint32
  {
    var exponent := Log2(b.size / 16) % 16;
    b.num * 16 % 0x1_0000_0000 + (if b.more != 0 || exponent >= 8 then 8 else 0) + exponent % 8
  }

  function BlockOffset(num: nat, size: nat): uint32
  {
    num * size % 0x1_0000_0000
  }

  /** The Block cases of the option switch in `coap_parse_message`. */
  function BlockOf(v: uint32): Block
  {
    var size := 16 * Pow2(v % 8);
    assert size <= 2048 by { Pow2Small(v % 8); }
    Block(v / 16, v / 8 % 2, size, BlockOffset(v / 16, size))
  }

  lemma {:induction false} Pow2Small(n: nat)
    requires n < 8
    ensures Pow2(n) == [1, 2, 4, 8, 16, 32, 64, 128][n]
  {
    assert Pow2(0) == 1 && Pow2(1) == 2 && Pow2(2) == 4 && Pow2(3) == 8 && Pow2(4) == 16 && Pow2(5) == 32 && Pow2(6) == 64 && Pow2(7) == 128;
  }

  predicate IsBlockSize(size: nat) {
    size == 16 || size == 32 || size == 64 || size == 128 || size == 256 || size == 512 || size == 1024 || size == 2048
  }

  /** A block description that the wire format can carry. */
  predicate ValidBlock(b: Block) {
    b.num < 0x1000_0000 && b.more <= 1 && IsBlockSize(b.size) && b.offset == BlockOffset(b.num, b.size)
  }

  lemma {:induction false} BlockOfIsValid(v: uint32)
    ensures ValidBlock(BlockOf(v))
  {
    Pow2Small(v % 8);
  }

  lemma {:induction false} BlockRoundTrip(b: Block)
    requires ValidBlock(b)
    ensures BlockOf(BlockValue(b)) == b
  {
    BlockExponent(b.size);
    var e := Log2(b.size / 16);
    BlockValueParts(b, e);
    PackedBlock(b.num, b.more, e);
  }

  lemma {:induction false} BlockValueParts(b: Block, e: nat)
    requires b.num < 0x1000_0000 && b.more <= 1 && e == Log2(b.size / 16) < 8
    ensures BlockValue(b) == b.num * 16 + b.more * 8 + e
  {
    assert b.num * 16 < 0x1_0000_0000;
    assert e % 16 == e && e % 8 == e;
  }

  lemma {:induction false} PackedBlock(n: nat, m: nat, e: nat)
    requires m < 2 && e < 8
    ensures var v := n * 16 + m * 8 + e; v / 16 == n && v / 8 % 2 == m && v % 8 == e
  {
    assert (n * 16 + m * 8 + e) / 8 == 2 * n + m;
  }

  lemma {:induction false} BlockExponent(size: nat)
    requires IsBlockSize(size)
    ensures Log2(size / 16) < 8 && 16 * Pow2(Log2(size / 16)) == size
  {
    var n := if size == 16 then 0 else if size == 32 then 1 else if size == 64 then 2 else if size == 128 then 3
             else if size == 256 then 4 else if size == 512 then 5 else if size == 1024 then 6 else 7;
    Pow2Small(n);
    Log2OfPow2(n);
  }

  lemma {:induction false} Log2IsBelow(v: nat)
    requires v > 0
    ensures Pow2(Log2(v)) <= v < 2 * Pow2(Log2(v))
  {
    if v >= 2 {
      Log2IsBelow(v / 2);
    }
  }

  /** What the peer reads of a block of any size: the largest power of two within it, while that is at most 2048. From 4096
      on the size spills over into the more bit. */
  lemma {:induction false} AnyBlockReads(b: Block)
    requires b.num < 0x1000_0000
    ensures var r := BlockOf(BlockValue(b));
            && r.num == b.num && (r.more == 1 <==> b.more != 0 || b.size >= 4096)
            && (b.size < 16 ==> r.size == 16)
            && (16 <= b.size < 4096 ==> r.size <= b.size < 2 * r.size)
            && (b.size >= 4096 ==> 256 * r.size <= b.size < 512 * r.size)
  {
    var (e, m) := (Log2(b.size / 16), if b.more != 0 || b.size >= 4096 then 1 else 0);
    hide Log2, Pow2, BlockValue;
    ExponentOf(b.size);
    BlockValueAny(b, e, m);
    PackedBlock(b.num, m, e % 8);
  }

  lemma {:induction false} BlockValueAny(b: Block, e: nat, m: nat)
    requires b.num < 0x1000_0000 && e == Log2(b.size / 16) < 16 && m == if b.more != 0 || e >= 8 then 1 else 0
    ensures BlockValue(b) == b.num * 16 + m * 8 + e % 8
  {
    hide Log2;
    SmallMod(b.num * 16, 0x1_0000_0000);
  }

  /** The exponent of a size, and what is left of it in three bits. */
  lemma {:induction false} ExponentOf(size: uint16)
    ensures var (e, kept) := (Log2(size / 16), 16 * Pow2(Log2(size / 16) % 8));
            && e < 16 && (size >= 4096 <==> e >= 8) && (size < 16 ==> kept == 16)
            && (16 <= size < 4096 ==> kept <= size < 2 * kept)
            && (size >= 4096 ==> 256 * kept <= size < 512 * kept)
  {
    var v: nat := size / 16;
    if v > 0 {
      hide Log2, Pow2;
      ExponentBounds(v);
      SizeBetween(size, v, Pow2(Log2(v)));
    } else {
      assert Log2(v) == 0 && Log2(v) % 8 == 0 && Pow2(0) == 1;
    }
  }

  lemma {:induction false} SizeBetween(size: nat, v: nat, p: nat)
    requires v == size / 16 && p <= v < 2 * p
    ensures 16 * p <= size < 32 * p
    ensures (size >= 16 <==> v >= 1) && (size >= 4096 <==> v >= 256)
  {
  }

  lemma {:induction false} ExponentBounds(v: nat)
    requires 0 < v < 4096
    ensures var (e, p) := (Log2(v), Pow2(Log2(v)));
            && e < 12 && p <= v < 2 * p && (v >= 256 <==> e >= 8)
            && p == if e >= 8 then 256 * Pow2(e % 8) else Pow2(e % 8)
  {
    var e := Log2(v);
    Log2IsBelow(v);
    HighPowers();
    hide Log2, Pow2;
    if e >= 12 {
      PowerAtLeast(12, e, 4096);
    } else if e >= 8 {
      PowerAtLeast(8, e, 256);
      Pow2Shift(e);
    } else {
      PowerAtLeast(e, 7, Pow2(e));
      assert e % 8 == e;
    }
  }

  lemma {:induction false} PowerAtLeast(a: nat, b: nat, p: nat)
    requires a <= b && p == Pow2(a)
    ensures p <= Pow2(b)
  {
    hide Pow2;
    Pow2Monotone(a, b);
  }

  lemma {:induction false} HighPowers()
    ensures Pow2(7) == 128 && Pow2(8) == 256 && Pow2(12) == 4096
  {
    Pow2Small(7);
    assert Pow2(8) == 2 * Pow2(7) && Pow2(9) == 2 * Pow2(8) && Pow2(10) == 2 * Pow2(9);
    assert Pow2(11) == 2 * Pow2(10) && Pow2(12) == 2 * Pow2(11);
  }

  lemma {:induction false} Pow2Monotone(a: nat, b: nat)
    requires a <= b
    ensures Pow2(a) <= Pow2(b)
  {
    if a < b {
      Pow2Monotone(a, b - 1);
    }
  }

  lemma {:induction false} Pow2Shift(e: nat)
    requires 8 <= e < 16
    ensures Pow2(e) == 256 * Pow2(e % 8)
  {
    assert e % 8 == e - 8;
    Pow2Eight(e - 8);
  }

  lemma {:induction false} Pow2Eight(n: nat)
    ensures Pow2(n + 8) == 256 * Pow2(n)
  {
    if n > 0 {
      Pow2Eight(n - 1);
    } else {
      Pow2Small(7);
      assert Pow2(8) == 2 * Pow2(7);
    }
  }
}
