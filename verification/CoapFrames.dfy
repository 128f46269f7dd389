/** What the parser makes of any datagram, told from the options on the wire (coap/er-coap-13/er-coap-13.c:714-985,
    section 3.1 of RFC 7252). */
module CoapFrames {
  import opened Bytes
  import opened Coap
  import opened CoapMessage
  import opened CoapRoundTrip

  /** An option on the wire. */
  datatype Frame = Frame(delta: nat, value: seq<byte>)

  predicate Expressible(f: Frame) {
    f.delta <= MAX_EXTENDED && |f.value| <= MAX_EXTENDED
  }

  predicate AllExpressible(fs: seq<Frame>) {
    forall f :: f in fs ==> Expressible(f)
  }

  function FrameBytes(f: Frame): seq<byte>
  {
    OptionHeader(f.delta, |f.value|) + f.value
  }

  function FramesBytes(fs: seq<Frame>): seq<byte>
  {
    if fs == [] then [] else FrameBytes(fs[0]) + FramesBytes(fs[1..])
  }

  /** The number of an option: the sum of the deltas up to it. */
  function NumberOf(number: nat, fs: seq<Frame>, i: nat): nat
    requires i < |fs|
    decreases |fs|
  {
    if i == 0 then number + fs[0].delta else NumberOf(number + fs[0].delta, fs[1..], i - 1)
  }

  /** The values under option number `n`, in order. */
  function Values(number: nat, fs: seq<Frame>, n: nat): seq<seq<byte>>
    decreases |fs|
  {
    if fs == [] then []
    else (if number + fs[0].delta == n then [fs[0].value] else []) + Values(number + fs[0].delta, fs[1..], n)
  }

  // ----- refusals -----------------------------------------------------------------------------

  /** Content-Format takes two bytes at most, Proxy-Uri is not served, and an odd number has to be understood. */
  predicate IsRefused(n: nat, length: nat) {
    (n == 12 && length > 2) || n == 35 || (n % 2 == 1 && n !in {1, 3, 5, 7, 11, 15, 17, 23, 27})
  }

  /** 4.00 for a Content-Format, 5.05 for a Proxy-Uri and 4.02 for an option that is not understood. */
  function RefusalOf(n: nat): uint8
  {
    if n == 12 then 128 else if n == 35 then 165 else 130
  }

  predicate FirstRefused(number: nat, fs: seq<Frame>, i: nat) {
    && i < |fs| && IsRefused(NumberOf(number, fs, i), |fs[i].value|)
    && forall j :: 0 <= j < i ==> !IsRefused(NumberOf(number, fs, j), |fs[j].value|)
  }

  predicate NoneRefused(number: nat, fs: seq<Frame>) {
    forall j :: 0 <= j < |fs| ==> !IsRefused(NumberOf(number, fs, j), |fs[j].value|)
  }

  /** Behind the last option: nothing, or a marker and a payload. */
  predicate IsEnd(tail: seq<byte>) {
    tail == [] || (tail[0] == 0xFF && |tail| > 1)
  }

  /** A marker without payload, or something that no option is the beginning of. */
  ghost predicate IsBroken(tail: seq<byte>) {
    tail == [0xFF] || (tail != [] && tail[0] != 0xFF && forall f: Frame :: Expressible(f) ==> !(FrameBytes(f) <= tail))
  }

  /** The header alone is reason to refuse the datagram. */
  predicate HeaderRefused(data: seq<byte>) {
    |data| < 4 || data[0] / 64 != 1 || (data[1] == 0 && |data| > 4) || data[0] % 16 > 8 || |data| < 4 + data[0] % 16
  }

  // ----- reading one option -------------------------------------------------------------------

  lemma {:induction false} ExtendedIsRead(nibble: nat, rest: seq<byte>)
    requires nibble <= 14 && ReadExtended(nibble, rest).Some?
    ensures var (value, used) := ReadExtended(nibble, rest).value;
            value <= MAX_EXTENDED && used <= |rest| && Nibble(value) == nibble && Extended(value) == rest[..used]
  {
    if nibble == 14 {
      var s := rest[..2];
      MessageIdBytes(s[0], s[1], s);
      TwoBytes(s[0], s[1]);
    } else if nibble == 13 {
      var s := rest[..1];
      assert FromBigEndian([]) == 0 && s[..0] == [];
      assert FromBigEndian(s) == s[0];
    }
  }

  /** Two bytes as one number. */
  function Pair(a: byte, b: byte): uint16
  {
    var (high: int, low: int) := (a, b);
    high * 256 + low
  }

  lemma {:induction false} MessageIdBytes(a: byte, b: byte, s: seq<byte>)
    requires s == [a, b]
    ensures FromBigEndian(s) == Pair(a, b)
  {
    assert FromBigEndian([]) == 0;
    assert s[..1] == [a];
    assert [a][..0] == [];
  }

  lemma {:induction false} TwoBytes(a: byte, b: byte)
    ensures ToBigEndian(Pair(a, b), 2) == [a, b]
  {
    assert Pair(a, b) / 256 == a && Pair(a, b) % 256 == b;
    assert ToBigEndian(a, 1) == [] + [a];
  }

  /** What the parser takes for an option is one. */
  lemma {:induction false} OptionIsRead(data: seq<byte>)
    requires data != [] && ReadOptionHeader(data).Some?
    ensures var o := ReadOptionHeader(data).value;
            var f := Frame(o.delta, data[o.headerLen..o.headerLen + o.length]);
            Expressible(f) && |FrameBytes(f)| == o.headerLen + o.length && FrameBytes(f) == data[..o.headerLen + o.length]
  {
    hide ReadExtended, Extended, Nibble;
    var (d, l) := (data[0] / 16, data[0] % 16);
    var (delta, used) := ReadExtended(d, data[1..]).value;
    ExtendedIsRead(d, data[1..]);
    var (length, more) := ReadExtended(l, data[1 + used..]).value;
    ExtendedIsRead(l, data[1 + used..]);
    assert data[1..][..used] == data[1..1 + used] && data[1 + used..][..more] == data[1 + used..1 + used + more];
    assert data[..1 + used + more] == [data[0]] + data[1..1 + used] + data[1 + used..1 + used + more];
  }

  lemma {:induction false} PrefixIsRead(f: Frame, data: seq<byte>)
    requires Expressible(f) && FrameBytes(f) <= data
    ensures data != [] && ReadOptionHeader(data).Some?
  {
    hide ReadOptionHeader, OptionHeader;
    var rest := data[|FrameBytes(f)|..];
    OptionHeaderReads(f.delta, f.value, rest);
    assert data == OptionHeader(f.delta, |f.value|) + f.value + rest;
  }

  /** Every sequence of bytes is some options and an end, or something broken. */
  lemma {:induction false} Framed(data: seq<byte>) returns (fs: seq<Frame>, tail: seq<byte>)
    ensures data == FramesBytes(fs) + tail && AllExpressible(fs) && (IsEnd(tail) || IsBroken(tail))
    decreases |data|
  {
    if data == [] || data[0] == 0xFF || ReadOptionHeader(data).None? {
      fs, tail := [], data;
      if data != [] && data[0] != 0xFF {
        forall f: Frame | Expressible(f) ensures !(FrameBytes(f) <= data) {
          if FrameBytes(f) <= data {
            PrefixIsRead(f, data);
            assert false;
          }
        }
      }
    } else {
      OptionIsRead(data);
      var o := ReadOptionHeader(data).value;
      var f := Frame(o.delta, data[o.headerLen..o.headerLen + o.length]);
      hide ReadOptionHeader, FrameBytes, IsBroken, IsEnd;
      var more;
      more, tail := Framed(data[o.headerLen + o.length..]);
      fs := [f] + more;
      assert data == data[..o.headerLen + o.length] + data[o.headerLen + o.length..];
      assert fs[1..] == more;
      ConcatAssociative(FrameBytes(f), FramesBytes(more), tail);
    }
  }

  // ----- reading all options ------------------------------------------------------------------

  lemma {:induction false} FrameStep(p: Packet, number: nat, fs: seq<Frame>, tail: seq<byte>)
    requires fs != [] && AllExpressible(fs)
    ensures ParseOptions(p, number, FramesBytes(fs) + tail)
         == match StoreOption(p, number + fs[0].delta, fs[0].value)
            case Rejected(status) => Rejected(status)
            case Parsed(q) => ParseOptions(q, number + fs[0].delta, FramesBytes(fs[1..]) + tail)
    ensures AllExpressible(fs[1..])
  {
    hide ParseOptions, StoreOption, OptionHeader;
    var (f, rest) := (fs[0], FramesBytes(fs[1..]));
    assert f in fs && Expressible(f);
    ConcatAssociative(FrameBytes(f), rest, tail);
    OptionParses(p, number, f.delta, f.value, rest + tail);
  }

  /** An option is refused by its number and length alone. */
  lemma {:induction false} StoreRefuses(p: Packet, n: nat, value: seq<byte>)
    ensures IsRefused(n, |value|) ==> StoreOption(p, n, value) == Rejected(RefusalOf(n))
    ensures !IsRefused(n, |value|) ==> StoreOption(p, n, value).Parsed?
  {
  }

  lemma {:induction false} TailParses(p: Packet, number: nat, tail: seq<byte>)
    ensures IsEnd(tail) ==> ParseOptions(p, number, tail) == Parsed(if tail == [] then p else p.(payload := tail[1..]))
    ensures IsBroken(tail) ==> ParseOptions(p, number, tail) == Rejected(128)
  {
    hide StoreOption;
    if IsBroken(tail) && tail != [0xFF] && ReadOptionHeader(tail).Some? {
      OptionIsRead(tail);
      assert false;
    }
  }

  /** Options are refused at the first that is. */
  lemma {:induction false} RefusedParse(p: Packet, number: nat, fs: seq<Frame>, tail: seq<byte>, i: nat)
    requires AllExpressible(fs) && FirstRefused(number, fs, i)
    ensures ParseOptions(p, number, FramesBytes(fs) + tail) == Rejected(RefusalOf(NumberOf(number, fs, i)))
    decreases i
  {
    var n := number + fs[0].delta;
    hide ParseOptions, StoreOption, IsRefused, RefusalOf;
    FrameStep(p, number, fs, tail);
    StoreRefuses(p, n, fs[0].value);
    assert NumberOf(number, fs, 0) == n;
    if i > 0 {
      RefusedBehind(number, fs, i);
      hide FramesBytes, FirstRefused, NumberOf;
      RefusedParse(StoreOption(p, n, fs[0].value).packet, n, fs[1..], tail, i - 1);
    }
  }

  lemma {:induction false} NumbersShift(number: nat, fs: seq<Frame>)
    requires fs != []
    ensures NumberOf(number, fs, 0) == number + fs[0].delta
    ensures forall j :: 0 < j < |fs| ==> NumberOf(number, fs, j) == NumberOf(number + fs[0].delta, fs[1..], j - 1)
  {
  }

  lemma {:induction false} RefusedBehind(number: nat, fs: seq<Frame>, i: nat)
    requires FirstRefused(number, fs, i) && i > 0
    ensures FirstRefused(number + fs[0].delta, fs[1..], i - 1) && !IsRefused(number + fs[0].delta, |fs[0].value|)
    ensures NumberOf(number + fs[0].delta, fs[1..], i - 1) == NumberOf(number, fs, i)
  {
    hide IsRefused;
    NumbersShift(number, fs);
    hide NumberOf;
    forall j | 0 <= j < i - 1 ensures !IsRefused(NumberOf(number + fs[0].delta, fs[1..], j), |fs[1..][j].value|) {
      assert !IsRefused(NumberOf(number, fs, j + 1), |fs[j + 1].value|);
    }
  }

  lemma {:induction false} NoneRefusedStep(number: nat, fs: seq<Frame>)
    requires NoneRefused(number, fs) && fs != []
    ensures !IsRefused(number + fs[0].delta, |fs[0].value|) && NoneRefused(number + fs[0].delta, fs[1..])
  {
    hide IsRefused;
    NumbersShift(number, fs);
    hide NumberOf;
    forall j | 0 <= j < |fs[1..]| ensures !IsRefused(NumberOf(number + fs[0].delta, fs[1..], j), |fs[1..][j].value|) {
      assert !IsRefused(NumberOf(number, fs, j + 1), |fs[j + 1].value|);
    }
  }

  /** When none is refused, the end decides. */
  lemma {:induction false} AcceptedParse(p: Packet, number: nat, fs: seq<Frame>, tail: seq<byte>)
    requires AllExpressible(fs) && NoneRefused(number, fs)
    ensures IsBroken(tail) ==> ParseOptions(p, number, FramesBytes(fs) + tail) == Rejected(128)
    ensures IsEnd(tail) ==> ParseOptions(p, number, FramesBytes(fs) + tail).Parsed?
    decreases |fs|
  {
    hide ParseOptions, StoreOption, IsRefused, IsBroken, IsEnd;
    if fs == [] {
      assert FramesBytes(fs) + tail == tail;
      TailParses(p, number, tail);
    } else {
      var n := number + fs[0].delta;
      FrameStep(p, number, fs, tail);
      StoreRefuses(p, n, fs[0].value);
      NoneRefusedStep(number, fs);
      hide NoneRefused, FramesBytes;
      AcceptedParse(StoreOption(p, n, fs[0].value).packet, n, fs[1..], tail);
    }
  }

  // ----- what is kept of the options ----------------------------------------------------------

  /** The last of some integers, in so many bits, or what was there before. */
  function LastInt(before: nat, values: seq<seq<byte>>, limit: nat): (r: nat)
    requires limit > 0 && before < limit
    ensures r < limit
  {
    if values == [] then before else FromBigEndian(values[|values| - 1]) % 0x1_0000_0000 % limit
  }

  /** The last of some strings, cut to a greatest length. */
  function LastBytes(before: seq<byte>, values: seq<seq<byte>>, length: nat): seq<byte>
  {
    if values == [] then before else values[|values| - 1][..Min(length, |values[|values| - 1]|)]
  }

  function LastBlock(before: Block, values: seq<seq<byte>>): Block
  {
    if values == [] then before else BlockOf(FromBigEndian(values[|values| - 1]) % 0x1_0000_0000)
  }

  /** Segments, each with its length taken in eight bits. */
  function Segments(values: seq<seq<byte>>): seq<seq<byte>>
  {
    if values == [] then [] else [values[0][..|values[0]| % 256]] + Segments(values[1..])
  }

  function Ints(values: seq<seq<byte>>): seq<uint16>
  {
    if values == [] then [] else [FromBigEndian(values[0]) % 0x1_0000_0000 % 0x1_0000] + Ints(values[1..])
  }

  function FirstTwo(s: seq<uint16>): seq<uint16>
  {
    if |s| <= 2 then s else s[..2]
  }

  predicate IntsTold(p: Packet, q: Packet, number: nat, fs: seq<Frame>) {
    && q.observe == LastInt(p.observe, Values(number, fs, 6), 0x1_0000_0000)
    && q.uriPort == LastInt(p.uriPort, Values(number, fs, 7), 0x1_0000)
    && q.contentType == LastInt(p.contentType, Values(number, fs, 12), 0x1_0000)
    && q.maxAge == LastInt(p.maxAge, Values(number, fs, 14), 0x1_0000_0000)
    && q.size == LastInt(p.size, Values(number, fs, 28), 0x1_0000_0000)
  }

  predicate StringsTold(p: Packet, q: Packet, number: nat, fs: seq<Frame>) {
    && q.ifMatch == LastBytes(p.ifMatch, Values(number, fs, 1), 8)
    && q.uriHost == LastBytes(p.uriHost, Values(number, fs, 3), MAX_EXTENDED)
    && q.etag == LastBytes(p.etag, Values(number, fs, 4), 8)
    && q.locationQuery == MergedParts(p.locationQuery, Values(number, fs, 20))
  }

  predicate ListsTold(p: Packet, q: Packet, number: nat, fs: seq<Frame>) {
    && q.locationPath == p.locationPath + Segments(Values(number, fs, 8))
    && q.uriPath == p.uriPath + Segments(Values(number, fs, 11))
    && q.uriQuery == p.uriQuery + Segments(Values(number, fs, 15))
    && q.accept == FirstTwo(p.accept + Ints(Values(number, fs, 17)))
  }

  ghost predicate FlagsTold(p: Packet, q: Packet, number: nat, fs: seq<Frame>) {
    && q.block2 == LastBlock(p.block2, Values(number, fs, 23))
    && q.block1 == LastBlock(p.block1, Values(number, fs, 27))
    && q.ifNoneMatch == (p.ifNoneMatch || Values(number, fs, 5) != [])
    && (forall n: nat :: n in q.options <==> n in p.options || (n < 40 && Values(number, fs, n) != []))
  }

  /** The packet as the options tell it. */
  ghost predicate Told(p: Packet, q: Packet, number: nat, fs: seq<Frame>) {
    && IntsTold(p, q, number, fs) && StringsTold(p, q, number, fs) && ListsTold(p, q, number, fs) && FlagsTold(p, q, number, fs)
    && q.version == p.version && q.msgType == p.msgType && q.code == p.code && q.mid == p.mid && q.token == p.token
    && q.proxyUri == p.proxyUri
  }

  // Each kind of field, one option at a time.

  function IntIn(value: seq<byte>, limit: nat): (r: nat)
    requires limit > 0
    ensures r < limit
  {
    FromBigEndian(value) % 0x1_0000_0000 % limit
  }

  lemma {:induction false} OneInt(before: nat, number: nat, fs: seq<Frame>, n: nat, limit: nat)
    requires fs != [] && before < limit
    ensures LastInt(before, Values(number, fs, n), limit)
         == LastInt(if number + fs[0].delta == n then IntIn(fs[0].value, limit) else before, Values(number + fs[0].delta, fs[1..], n), limit)
  {
    hide FromBigEndian;
    LastStep(fs[0].value, Values(number + fs[0].delta, fs[1..], n));
  }

  lemma {:induction false} OneString(before: seq<byte>, number: nat, fs: seq<Frame>, n: nat, length: nat)
    requires fs != []
    ensures LastBytes(before, Values(number, fs, n), length)
         == LastBytes(if number + fs[0].delta == n then fs[0].value[..Min(length, |fs[0].value|)] else before,
                      Values(number + fs[0].delta, fs[1..], n), length)
  {
    LastStep(fs[0].value, Values(number + fs[0].delta, fs[1..], n));
  }

  lemma {:induction false} OneBlock(before: Block, number: nat, fs: seq<Frame>, n: nat)
    requires fs != []
    ensures LastBlock(before, Values(number, fs, n))
         == LastBlock(if number + fs[0].delta == n then BlockOf(ParseInt(fs[0].value)) else before, Values(number + fs[0].delta, fs[1..], n))
  {
    hide BlockOf, FromBigEndian;
    LastStep(fs[0].value, Values(number + fs[0].delta, fs[1..], n));
  }

  lemma {:induction false} OneSegment(before: seq<seq<byte>>, number: nat, fs: seq<Frame>, n: nat)
    requires fs != []
    ensures before + Segments(Values(number, fs, n))
         == (if number + fs[0].delta == n then before + [Segment(fs[0].value)] else before) + Segments(Values(number + fs[0].delta, fs[1..], n))
  {
    var rest := Values(number + fs[0].delta, fs[1..], n);
    assert ([fs[0].value] + rest)[1..] == rest;
    if number + fs[0].delta == n {
      assert Values(number, fs, n) == [fs[0].value] + rest;
      hide Values;
      ConcatAssociative(before, [Segment(fs[0].value)], Segments(rest));
    } else {
      assert Values(number, fs, n) == [] + rest == rest;
    }
  }

  lemma {:induction false} OneAccept(before: seq<uint16>, number: nat, fs: seq<Frame>)
    requires fs != [] && |before| <= 2
    ensures FirstTwo(before + Ints(Values(number, fs, 17)))
         == FirstTwo((if number + fs[0].delta == 17 && |before| < 2 then before + [IntIn(fs[0].value, 0x1_0000)] else before)
                     + Ints(Values(number + fs[0].delta, fs[1..], 17)))
  {
    var rest := Values(number + fs[0].delta, fs[1..], 17);
    assert ([fs[0].value] + rest)[1..] == rest;
    if number + fs[0].delta == 17 {
      assert Values(number, fs, 17) == [fs[0].value] + rest;
      hide Values, FromBigEndian;
      ConcatAssociative(before, [IntIn(fs[0].value, 0x1_0000)], Ints(rest));
    }
  }

  lemma {:induction false} OneQuery(before: seq<byte>, number: nat, fs: seq<Frame>, n: nat)
    requires fs != []
    ensures MergedParts(before, Values(number, fs, n))
         == MergedParts(if number + fs[0].delta == n then Merged(before, fs[0].value) else before, Values(number + fs[0].delta, fs[1..], n))
  {
    hide Merged;
    var rest := Values(number + fs[0].delta, fs[1..], n);
    assert ([fs[0].value] + rest)[1..] == rest;
    assert Values(number, fs, n) == if number + fs[0].delta == n then [fs[0].value] + rest else [] + rest;
    assert [] + rest == rest;
  }

  lemma {:induction false} LastStep(v: seq<byte>, values: seq<seq<byte>>)
    ensures [v] + values != [] && ([v] + values)[|[v] + values| - 1] == if values == [] then v else values[|values| - 1]
  {
  }

  // Each group of fields, one option at a time.

  lemma {:induction false} StoreInts(p: Packet, n: nat, value: seq<byte>)
    requires StoreOption(p, n, value).Parsed?
    ensures var q := StoreOption(p, n, value).packet;
            && q.observe == (if n == 6 then IntIn(value, 0x1_0000_0000) else p.observe)
            && q.uriPort == (if n == 7 then IntIn(value, 0x1_0000) else p.uriPort)
            && q.contentType == (if n == 12 then IntIn(value, 0x1_0000) else p.contentType)
            && q.maxAge == (if n == 14 then IntIn(value, 0x1_0000_0000) else p.maxAge)
            && q.size == (if n == 28 then IntIn(value, 0x1_0000_0000) else p.size)
  {
    hide Segment, Merged, BlockOf, FromBigEndian;
    SmallMod(FromBigEndian(value) % 0x1_0000_0000, 0x1_0000_0000);
  }

  lemma {:induction false} IntsStep(p: Packet, m: Packet, q: Packet, number: nat, fs: seq<Frame>)
    requires fs != [] && StoreOption(p, number + fs[0].delta, fs[0].value) == Parsed(m)
    requires IntsTold(m, q, number + fs[0].delta, fs[1..])
    ensures IntsTold(p, q, number, fs)
  {
    StoreInts(p, number + fs[0].delta, fs[0].value);
    hide StoreOption, LastInt, Values, IntIn;
    OneInt(p.observe, number, fs, 6, 0x1_0000_0000);
    OneInt(p.uriPort, number, fs, 7, 0x1_0000);
    OneInt(p.contentType, number, fs, 12, 0x1_0000);
    OneInt(p.maxAge, number, fs, 14, 0x1_0000_0000);
    OneInt(p.size, number, fs, 28, 0x1_0000_0000);
  }

  lemma {:induction false} StoreStrings(p: Packet, n: nat, value: seq<byte>)
    requires StoreOption(p, n, value).Parsed?
    ensures var q := StoreOption(p, n, value).packet;
            && q.ifMatch == (if n == 1 then value[..Min(8, |value|)] else p.ifMatch)
            && q.uriHost == (if n == 3 then value else p.uriHost)
            && q.etag == (if n == 4 then value[..Min(8, |value|)] else p.etag)
            && q.locationQuery == (if n == 20 then Merged(p.locationQuery, value) else p.locationQuery)
  {
    hide Segment, Merged, BlockOf, ParseInt;
  }

  lemma {:induction false} StringsStep(p: Packet, m: Packet, q: Packet, number: nat, fs: seq<Frame>)
    requires fs != [] && |fs[0].value| <= MAX_EXTENDED && StoreOption(p, number + fs[0].delta, fs[0].value) == Parsed(m)
    requires StringsTold(m, q, number + fs[0].delta, fs[1..])
    ensures StringsTold(p, q, number, fs)
  {
    var v := fs[0].value;
    StoreStrings(p, number + fs[0].delta, v);
    assert v[..Min(MAX_EXTENDED, |v|)] == v;
    hide StoreOption, LastBytes, Values, MergedParts, Merged;
    OneString(p.ifMatch, number, fs, 1, 8);
    OneString(p.uriHost, number, fs, 3, MAX_EXTENDED);
    OneString(p.etag, number, fs, 4, 8);
    OneQuery(p.locationQuery, number, fs, 20);
  }

  lemma {:induction false} StoreLists(p: Packet, n: nat, value: seq<byte>)
    requires StoreOption(p, n, value).Parsed?
    ensures var q := StoreOption(p, n, value).packet;
            && q.locationPath == (if n == 8 then p.locationPath + [Segment(value)] else p.locationPath)
            && q.uriPath == (if n == 11 then p.uriPath + [Segment(value)] else p.uriPath)
            && q.uriQuery == (if n == 15 then p.uriQuery + [Segment(value)] else p.uriQuery)
            && q.accept == (if n == 17 && |p.accept| < 2 then p.accept + [IntIn(value, 0x1_0000)] else p.accept)
  {
    hide Segment, Merged, BlockOf, FromBigEndian;
  }

  lemma {:induction false} ListsStep(p: Packet, m: Packet, q: Packet, number: nat, fs: seq<Frame>)
    requires fs != [] && StoreOption(p, number + fs[0].delta, fs[0].value) == Parsed(m) && |p.accept| <= 2
    requires ListsTold(m, q, number + fs[0].delta, fs[1..])
    ensures ListsTold(p, q, number, fs)
  {
    StoreLists(p, number + fs[0].delta, fs[0].value);
    hide StoreOption, Segments, Ints, Values, FirstTwo, IntIn, Segment;
    OneSegment(p.locationPath, number, fs, 8);
    OneSegment(p.uriPath, number, fs, 11);
    OneSegment(p.uriQuery, number, fs, 15);
    OneAccept(p.accept, number, fs);
  }

  lemma {:induction false} StoreFlags(p: Packet, n: nat, value: seq<byte>)
    requires StoreOption(p, n, value).Parsed?
    ensures var q := StoreOption(p, n, value).packet;
            && q.block2 == (if n == 23 then BlockOf(ParseInt(value)) else p.block2)
            && q.block1 == (if n == 27 then BlockOf(ParseInt(value)) else p.block1)
            && q.ifNoneMatch == (p.ifNoneMatch || n == 5)
            && q.options == if n < 40 then p.options + {n} else p.options
  {
    hide Segment, Merged, BlockOf, ParseInt;
  }

  lemma {:induction false} FlagsStep(p: Packet, m: Packet, q: Packet, number: nat, fs: seq<Frame>)
    requires fs != [] && StoreOption(p, number + fs[0].delta, fs[0].value) == Parsed(m)
    requires FlagsTold(m, q, number + fs[0].delta, fs[1..])
    ensures FlagsTold(p, q, number, fs)
  {
    StoreFlags(p, number + fs[0].delta, fs[0].value);
    hide StoreOption, LastBlock, BlockOf;
    OneBlock(p.block2, number, fs, 23);
    OneBlock(p.block1, number, fs, 27);
    forall n: nat ensures Values(number, fs, n) != [] <==> number + fs[0].delta == n || Values(number + fs[0].delta, fs[1..], n) != [] {
    }
    hide Values;
  }

  /** What the parser makes of options none of which is refused, with a proper end. */
  lemma {:induction false} OptionsTold(p: Packet, number: nat, fs: seq<Frame>, tail: seq<byte>)
    requires AllExpressible(fs) && NoneRefused(number, fs) && IsEnd(tail) && |p.accept| <= 2
    ensures var r := ParseOptions(p, number, FramesBytes(fs) + tail);
            r.Parsed? && Told(p, r.packet, number, fs) && r.packet.payload == if tail == [] then p.payload else tail[1..]
    decreases |fs|
  {
    hide ParseOptions, IsRefused, IsEnd, StoreOption;
    if fs == [] {
      assert FramesBytes(fs) + tail == tail;
      TailParses(p, number, tail);
    } else {
      var (v, n) := (fs[0].value, number + fs[0].delta);
      FrameStep(p, number, fs, tail);
      StoreRefuses(p, n, v);
      NoneRefusedStep(number, fs);
      var m := StoreOption(p, n, v).packet;
      StoreFrame(p, n, v);
      assert fs[0] in fs && Expressible(fs[0]);
      hide NoneRefused, FramesBytes, AllExpressible;
      OptionsTold(m, n, fs[1..], tail);
      var q := ParseOptions(m, n, FramesBytes(fs[1..]) + tail).packet;
      IntsStep(p, m, q, number, fs);
      StringsStep(p, m, q, number, fs);
      ListsStep(p, m, q, number, fs);
      FlagsStep(p, m, q, number, fs);
      hide IntsTold, StringsTold, ListsTold, FlagsTold;
    }
  }

  lemma {:induction false} StoreFrame(p: Packet, n: nat, value: seq<byte>)
    requires StoreOption(p, n, value).Parsed? && |p.accept| <= 2
    ensures var q := StoreOption(p, n, value).packet;
            && q.version == p.version && q.msgType == p.msgType && q.code == p.code && q.mid == p.mid && q.token == p.token
            && q.proxyUri == p.proxyUri && q.payload == p.payload && |q.accept| <= 2
  {
  }

  // ----- whole datagrams ----------------------------------------------------------------------

  /** What the packet is before any option is read. */
  function Blank(data: seq<byte>): Packet
    requires !HeaderRefused(data)
  {
    var n := data[0] % 16;
    Packet(1, data[0] / 16 % 4, data[1], Pair(data[2], data[3]), data[4..4 + n], if n == 0 then {} else {19},
           [], [], [], false, 0, 0, [], [], 0, 0, [], [], [], NoBlock, NoBlock, 0, [], [])
  }

  lemma {:induction false} HeaderTold(data: seq<byte>)
    ensures HeaderRefused(data) ==> Parse(data) == Rejected(128)
    ensures !HeaderRefused(data) ==> Parse(data) == ParseOptions(Blank(data), 0, data[4 + data[0] % 16..])
  {
    hide ParseOptions;
    if !HeaderRefused(data) {
      MessageIdBytes(data[2], data[3], data[2..4]);
      SmallMod(Pair(data[2], data[3]), 0x1_0000);
      assert SetOption(Blank(data).(options := {}), TOKEN).options == {19};
      assert Blank(data) == ParseHeader(data, data[0] % 16);
    }
  }

  /** A datagram is refused for its header with 4.00; otherwise for its first option that is refused; otherwise with
      4.00 when its end is broken; and otherwise it is the packet that its options tell. Every datagram is one of
      these. */
  lemma {:induction false} AnyDatagram(data: seq<byte>) returns (fs: seq<Frame>, tail: seq<byte>)
    ensures HeaderRefused(data) ==> Parse(data) == Rejected(128)
    ensures !HeaderRefused(data) ==>
              && data[4 + data[0] % 16..] == FramesBytes(fs) + tail && AllExpressible(fs) && (IsEnd(tail) || IsBroken(tail))
              && (forall i: nat :: FirstRefused(0, fs, i) ==> Parse(data) == Rejected(RefusalOf(NumberOf(0, fs, i))))
              && (NoneRefused(0, fs) && IsBroken(tail) ==> Parse(data) == Rejected(128))
              && (NoneRefused(0, fs) && IsEnd(tail) ==>
                    && Parse(data).Parsed? && Told(Blank(data), Parse(data).packet, 0, fs)
                    && Parse(data).packet.payload == if tail == [] then [] else tail[1..])
              && (NoneRefused(0, fs) || exists i: nat :: FirstRefused(0, fs, i))
  {
    HeaderTold(data);
    if HeaderRefused(data) {
      fs, tail := [], [];
    } else {
      fs, tail := Framed(data[4 + data[0] % 16..]);
      hide Parse, ParseOptions, HeaderRefused, Told, IsBroken, IsEnd, RefusalOf;
      var p := Blank(data);
      forall i: nat | FirstRefused(0, fs, i) ensures Parse(data) == Rejected(RefusalOf(NumberOf(0, fs, i))) {
        RefusedParse(p, 0, fs, tail, i);
      }
      hide FirstRefused, NoneRefused;
      if NoneRefused(0, fs) {
        AcceptedParse(p, 0, fs, tail);
        if IsEnd(tail) {
          OptionsTold(p, 0, fs, tail);
        }
      } else {
        SomeFirst(0, fs);
      }
    }
  }

  lemma {:induction false} SomeFirst(number: nat, fs: seq<Frame>)
    requires !NoneRefused(number, fs)
    ensures exists i: nat :: FirstRefused(number, fs, i)
  {
    hide IsRefused;
    var j: nat := 0;
    while !IsRefused(NumberOf(number, fs, j), |fs[j].value|)
      invariant j < |fs| && (exists k :: j <= k < |fs| && IsRefused(NumberOf(number, fs, k), |fs[k].value|))
      invariant forall k :: 0 <= k < j ==> !IsRefused(NumberOf(number, fs, k), |fs[k].value|)
      decreases |fs| - j
    {
      j := j + 1;
    }
    assert FirstRefused(number, fs, j);
  }

  /** An option that the library does not know, put behind the options of a message: if its number is odd the message is
      refused with 4.02, otherwise it is parsed as without it, but for the option being marked when the bitmap has room for
      its number. */
  lemma {:induction false} UnknownOption(p: Packet, n: nat, value: seq<byte>)
    requires Good(p) && p.code != 0 && |OptionsBytes(p, 0)| <= MAX_EXTENDED
    requires CurrentNumber(p, OPTION_END) <= n <= CurrentNumber(p, OPTION_END) + MAX_EXTENDED && |value| <= MAX_EXTENDED
    requires n !in {1, 3, 4, 5, 6, 7, 8, 11, 12, 14, 15, 17, 20, 23, 27, 28, 35}
    ensures Representable(p)
    ensures var option := OptionHeader(n - CurrentNumber(p, OPTION_END), |value|) + value;
            Parse(HeaderBytes(p) + (OptionsBytes(p, 0) + (option + PayloadBytes(p.payload))))
            == if n % 2 == 1 then Rejected(130)
               else Parsed(Restored(p).(options := if n < 40 then p.options + {n} else p.options))
  {
    hide Parse, ParseOptions, HeaderBytes, OptionsBytes, OptionHeader, PayloadBytes, CurrentNumber, Upto, Restored, SetOption, Good, Representable;
    var (end, start) := (OPTION_END, 0);
    var rest := OptionHeader(n - CurrentNumber(p, end), |value|) + value + PayloadBytes(p.payload);
    OptionsThenRest(p, rest);
    PacketUpto(p, n);
    UnknownBehind(p, Upto(p, end), CurrentNumber(p, end), n, value);
  }

  lemma {:induction false} UnknownBehind(p: Packet, q: Packet, current: nat, n: nat, value: seq<byte>)
    requires current <= n <= current + MAX_EXTENDED && |value| <= MAX_EXTENDED && q.payload == []
    requires n !in {1, 3, 4, 5, 6, 7, 8, 11, 12, 14, 15, 17, 20, 23, 27, 28, 35}
    ensures ParseOptions(q, current, OptionHeader(n - current, |value|) + value + PayloadBytes(p.payload))
         == if n % 2 == 1 then Rejected(130) else Parsed(SetOption(q, n).(payload := p.payload))
  {
    UnknownStored(q, n, value);
    assert SetOption(q, n).payload == [];
    hide ParseOptions, StoreOption, OptionHeader, SetOption, PayloadBytes;
    OptionParses(q, current, n - current, value, PayloadBytes(p.payload));
    PayloadRead(SetOption(q, n), n, p.payload);
  }

  /** Whatever follows its options, a message is parsed up to there. */
  lemma {:induction false} OptionsThenRest(p: Packet, rest: seq<byte>)
    requires Good(p) && p.code != 0 && |OptionsBytes(p, 0)| <= MAX_EXTENDED
    ensures Representable(p)
    ensures Parse(HeaderBytes(p) + (OptionsBytes(p, 0) + rest)) == ParseOptions(Upto(p, OPTION_END), CurrentNumber(p, OPTION_END), rest)
  {
    assert |p.token| <= TOKEN_LEN;
    hide ParseOptions, Upto, ParseHeader, Good, HeaderBytes, OptionsBytes;
    HeaderParses(p, OptionsBytes(p, 0) + rest);
    OptionsParse(p, 0, rest);
  }

  lemma {:induction false} UnknownStored(p: Packet, n: nat, value: seq<byte>)
    requires n !in {1, 3, 4, 5, 6, 7, 8, 11, 12, 14, 15, 17, 20, 23, 27, 28, 35}
    ensures StoreOption(p, n, value) == if n % 2 == 1 then Rejected(130) else Parsed(SetOption(p, n))
  {
  }

  lemma {:induction false} PacketUpto(p: Packet, n: nat)
    requires Good(p)
    ensures var q := SetOption(Upto(p, OPTION_END), n);
            Upto(p, OPTION_END).payload == [] && q.(payload := p.payload) == Restored(p).(options := if n < 40 then p.options + {n} else p.options)
  {
    assert Upto(p, OPTION_END).options == p.options;
  }

  lemma {:induction false} PayloadRead(p: Packet, number: nat, payload: seq<byte>)
    requires p.payload == []
    ensures ParseOptions(p, number, PayloadBytes(payload)) == Parsed(p.(payload := payload))
  {
    if payload != [] {
      assert PayloadBytes(payload)[1..] == payload;
    }
  }
}
