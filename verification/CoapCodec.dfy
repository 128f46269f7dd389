/** The imperative serializer and parser of CoAP messages, and the size estimate that the caller
    allocates by (coap/er-coap-13/er-coap-13.c:145-245, 514-985; core/packet.c:877-904). */
module CoapCodec {
  import opened Bytes
  import opened Coap
  import opened CoapMessage

  // ----- size estimate ------------------------------------------------------------------------

  function SegmentsSize(segments: seq<seq<byte>>): nat
  {
    if segments == [] then 0
    else SegmentsSize(segments[..|segments| - 1]) + MAX_OPTION_HEADER_LEN + |segments[|segments| - 1]|
  }

  /** What `coap_serialize_get_size` sets aside for option `n`. */
  function Allowance(p: Packet, n: nat): nat
  {
    if n !in p.options then 0
    else if n == IF_MATCH then MAX_OPTION_HEADER_LEN + |p.ifMatch|
    else if n == URI_HOST then MAX_OPTION_HEADER_LEN + |p.uriHost|
    else if n == ETAG then MAX_OPTION_HEADER_LEN + |p.etag|
    else if n == LOCATION_PATH then SegmentsSize(p.locationPath)
    else if n == URI_PATH then SegmentsSize(p.uriPath)
    else if n == URI_QUERY then SegmentsSize(p.uriQuery)
    else if n == ACCEPT then |p.accept| * MAX_OPTION_HEADER_LEN
    else if n == LOCATION_QUERY then MAX_OPTION_HEADER_LEN + |p.locationQuery|
    else if n == PROXY_URI then MAX_OPTION_HEADER_LEN + |p.proxyUri|
    else if IsKnown(n) then MAX_OPTION_HEADER_LEN
    else 0
  }

  function AllowanceFrom(p: Packet, n: nat): nat
    decreases OPTION_END - n
  {
    if n >= OPTION_END then 0 else Allowance(p, n) + AllowanceFrom(p, n + 1)
  }

  /** `coap_serialize_get_size` */
  function GetSize(p: Packet): nat
  {
    HEADER_LEN + |p.payload| + |p.token| + AllowanceFrom(p, 0) + (if p.payload == [] then 0 else 1)
  }

  function TotalLength(values: seq<seq<byte>>): nat
    decreases |values|
  {
    if values == [] then 0 else |values[0]| + TotalLength(values[1..])
  }

  /** Five bytes for an option that is set, and its contents. */
  function IfSet(p: Packet, n: nat, contents: nat): nat
  {
    if n in p.options then 5 + contents else 0
  }

  /** The estimate in one sum: header, token and payload with its marker, the contents of the options, and five bytes for
      each option that is set, or for each of its values when it has a list of them. */
  lemma {:induction false} SizeTold(p: Packet)
    ensures GetSize(p)
         == 4 + |p.token| + (if p.payload == [] then 0 else 1 + |p.payload|)
            + IfSet(p, 1, |p.ifMatch|) + IfSet(p, 3, |p.uriHost|) + IfSet(p, 4, |p.etag|) + IfSet(p, 5, 0) + IfSet(p, 6, 0)
            + IfSet(p, 7, 0)
            + (if 8 in p.options then 5 * |p.locationPath| + TotalLength(p.locationPath) else 0)
            + (if 11 in p.options then 5 * |p.uriPath| + TotalLength(p.uriPath) else 0)
            + IfSet(p, 12, 0) + IfSet(p, 14, 0)
            + (if 15 in p.options then 5 * |p.uriQuery| + TotalLength(p.uriQuery) else 0)
            + (if 17 in p.options then 5 * |p.accept| else 0)
            + IfSet(p, 20, |p.locationQuery|) + IfSet(p, 23, 0) + IfSet(p, 27, 0) + IfSet(p, 28, 0) + IfSet(p, 35, |p.proxyUri|)
  {
    SegmentsTold(p.locationPath);
    SegmentsTold(p.uriPath);
    SegmentsTold(p.uriQuery);
    hide SegmentsSize, TotalLength, Allowance;
    SumOfAllowances(p);
    AllowancesTold(p);
  }

  lemma {:induction false} SegmentsTold(segments: seq<seq<byte>>)
    ensures SegmentsSize(segments) == 5 * |segments| + TotalLength(segments)
  {
    if segments != [] {
      var front := segments[..|segments| - 1];
      SegmentsTold(front);
      TotalSnoc(front, segments[|segments| - 1]);
      assert segments == front + [segments[|segments| - 1]];
    }
  }

  lemma {:induction false} TotalSnoc(segments: seq<seq<byte>>, last: seq<byte>)
    ensures TotalLength(segments + [last]) == TotalLength(segments) + |last|
  {
    if segments == [] {
      assert [] + [last] == [last] && [last][1..] == [];
    } else {
      TotalSnoc(segments[1..], last);
      assert (segments + [last])[1..] == segments[1..] + [last];
    }
  }

  lemma {:induction false} AllowancesTold(p: Packet)
    ensures forall n: nat :: n in {0, 2, 9, 10, 13, 16, 18, 19, 21, 22, 24, 25, 26, 29, 30, 31, 32, 33, 34} ==> Allowance(p, n) == 0
    ensures forall n: nat :: n in {5, 6, 7, 12, 14, 23, 27, 28} ==> Allowance(p, n) == IfSet(p, n, 0)
    ensures Allowance(p, 1) == IfSet(p, 1, |p.ifMatch|) && Allowance(p, 3) == IfSet(p, 3, |p.uriHost|)
    ensures Allowance(p, 4) == IfSet(p, 4, |p.etag|) && Allowance(p, 20) == IfSet(p, 20, |p.locationQuery|)
    ensures Allowance(p, 35) == IfSet(p, 35, |p.proxyUri|)
    ensures Allowance(p, 8) == if 8 in p.options then SegmentsSize(p.locationPath) else 0
    ensures Allowance(p, 11) == if 11 in p.options then SegmentsSize(p.uriPath) else 0
    ensures Allowance(p, 15) == if 15 in p.options then SegmentsSize(p.uriQuery) else 0
    ensures Allowance(p, 17) == if 17 in p.options then 5 * |p.accept| else 0
  {
  }

  lemma {:induction false} SumOfAllowances(p: Packet)
    ensures AllowanceFrom(p, 0)
         == Allowance(p, 0) + Allowance(p, 1) + Allowance(p, 2) + Allowance(p, 3) + Allowance(p, 4) + Allowance(p, 5)
            + Allowance(p, 6) + Allowance(p, 7) + Allowance(p, 8) + Allowance(p, 9) + Allowance(p, 10) + Allowance(p, 11)
            + Allowance(p, 12) + Allowance(p, 13) + Allowance(p, 14) + Allowance(p, 15) + Allowance(p, 16) + Allowance(p, 17)
            + Allowance(p, 18) + Allowance(p, 19) + Allowance(p, 20) + Allowance(p, 21) + Allowance(p, 22) + Allowance(p, 23)
            + Allowance(p, 24) + Allowance(p, 25) + Allowance(p, 26) + Allowance(p, 27) + Allowance(p, 28) + Allowance(p, 29)
            + Allowance(p, 30) + Allowance(p, 31) + Allowance(p, 32) + Allowance(p, 33) + Allowance(p, 34) + Allowance(p, 35)
  {
    hide Allowance, AllowanceFrom;
    NextSix(p, 0);
    NextSix(p, 6);
    NextSix(p, 12);
    NextSix(p, 18);
    NextSix(p, 24);
    NextSix(p, 30);
    NothingFrom(p, OPTION_END);
  }

  lemma {:induction false} NextSix(p: Packet, n: nat)
    requires n <= 30
    ensures AllowanceFrom(p, n)
         == Allowance(p, n) + Allowance(p, n + 1) + Allowance(p, n + 2) + Allowance(p, n + 3) + Allowance(p, n + 4) + Allowance(p, n + 5)
            + AllowanceFrom(p, n + 6)
  {
    hide Allowance;
    assert AllowanceFrom(p, n + 5) == Allowance(p, n + 5) + AllowanceFrom(p, n + 6);
    assert AllowanceFrom(p, n + 4) == Allowance(p, n + 4) + AllowanceFrom(p, n + 5);
    assert AllowanceFrom(p, n + 3) == Allowance(p, n + 3) + AllowanceFrom(p, n + 4);
    assert AllowanceFrom(p, n + 2) == Allowance(p, n + 2) + AllowanceFrom(p, n + 3);
    assert AllowanceFrom(p, n + 1) == Allowance(p, n + 1) + AllowanceFrom(p, n + 2);
  }

  lemma {:induction false} NothingFrom(p: Packet, n: nat)
    requires n >= OPTION_END
    ensures AllowanceFrom(p, n) == 0
  {
  }

  /** Extension bytes of a delta or a length. */
  function Extension(value: nat): nat
  {
    if value < 13 then 0 else if value < 269 then 1 else 2
  }

  /** How long these values are on the wire, told from their lengths alone. */
  function Cost(delta: nat, values: seq<seq<byte>>): nat
    decreases |values|
  {
    if values == [] then 0
    else 1 + Extension(delta) + Extension(|values[0]|) + |values[0]| + Cost(0, values[1..])
  }

  lemma {:induction false} CostIsExact(n: nat, current: nat, values: seq<seq<byte>>)
    requires current <= n
    ensures |ValuesBytes(n, current, values)| == Cost(n - current, values)
    decreases |values|
  {
    if values != [] {
      assert |OptionHeader(n - current, |values[0]|)| == 1 + Extension(n - current) + Extension(|values[0]|);
      CostIsExact(n, n, values[1..]);
      hide OptionHeader, Extension;
    }
  }

  /** What the estimate has to spare for option `n`, negative when the option is longer than estimated. */
  function Spare(p: Packet, n: nat): int
  {
    Allowance(p, n) - Cost(n - CurrentNumber(p, n), OptionValues(p, n))
  }

  function SpareFrom(p: Packet, n: nat): int
    decreases OPTION_END - n
  {
    if n >= OPTION_END then 0 else Spare(p, n) + SpareFrom(p, n + 1)
  }

  lemma {:induction false} SpareIsDifference(p: Packet, n: nat)
    ensures AllowanceFrom(p, n) - |OptionsBytes(p, n)| == SpareFrom(p, n)
    decreases OPTION_END - n
  {
    hide Allowance, OptionValues, ValuesBytes, Cost, CurrentNumber;
    if n < OPTION_END {
      CostIsExact(n, CurrentNumber(p, n), OptionValues(p, n));
      SpareIsDifference(p, n + 1);
    }
  }

  lemma {:induction false} SizeDifference(p: Packet)
    requires p.msgType < 4 && |p.token| <= TOKEN_LEN
    ensures GetSize(p) - |Message(p)| == AllowanceFrom(p, 0) - |OptionsBytes(p, 0)|
  {
    hide OptionsBytes, AllowanceFrom;
  }

  /** The message stays within the estimate exactly when the options that are longer than estimated use up no more than
      the others leave. Only an integer of four bytes whose delta needs an extension byte, and a query of several parts,
      can be longer than estimated. */
  lemma {:induction false} SizeIsExact(p: Packet)
    requires p.msgType < 4 && |p.token| <= TOKEN_LEN
    ensures GetSize(p) - |Message(p)| == SpareFrom(p, 0)
    ensures |Message(p)| <= GetSize(p) <==> SpareFrom(p, 0) >= 0
    ensures forall n :: 0 <= n < OPTION_END && Spare(p, n) < 0 ==>
              n == LOCATION_QUERY || (n in {MAX_AGE, BLOCK2, BLOCK1, SIZE} && Spare(p, n) == -1)
  {
    SpareIsDifference(p, 0);
    SizeDifference(p);
    hide GetSize, Message;
    forall n | 0 <= n < OPTION_END && Spare(p, n) < 0
      ensures n == LOCATION_QUERY || (n in {MAX_AGE, BLOCK2, BLOCK1, SIZE} && Spare(p, n) == -1)
    {
      OnlyTheseOverrun(p, n);
    }
    hide SpareFrom, Spare, AllowanceFrom, OptionsBytes;
  }

  lemma {:induction false} OnlyTheseOverrun(p: Packet, n: nat)
    requires n < OPTION_END && Spare(p, n) < 0
    ensures n == LOCATION_QUERY || (n in {MAX_AGE, BLOCK2, BLOCK1, SIZE} && Spare(p, n) == -1)
  {
    CostIsExact(n, CurrentNumber(p, n), OptionValues(p, n));
    if n in p.options && IsInteger(n) {
      IntegerSpare(p, n);
    } else if n != LOCATION_QUERY {
      OtherAllowance(p, n);
      hide Allowance, OptionValues, Cost;
    }
  }

  /** Options that are written as one integer. */
  predicate IsInteger(n: nat) {
    n in {IF_NONE_MATCH, OBSERVE, URI_PORT, CONTENT_TYPE, MAX_AGE, BLOCK2, BLOCK1, SIZE}
  }

  function IntegerOf(p: Packet, n: nat): uint32
    requires IsInteger(n)
  {
    if n == IF_NONE_MATCH then 0 else if n == OBSERVE then p.observe else if n == URI_PORT then p.uriPort
    else if n == CONTENT_TYPE then p.contentType else if n == MAX_AGE then p.maxAge
    else if n == BLOCK2 then BlockValue(p.block2) else if n == BLOCK1 then BlockValue(p.block1) else p.size
  }

  lemma {:induction false} IntegerSpare(p: Packet, n: nat)
    requires IsInteger(n) && n in p.options
    ensures var delta := n - CurrentNumber(p, n);
            && 0 <= delta <= n
            && Spare(p, n) == 4 - Extension(delta) - |IntBytes(IntegerOf(p, n))|
            && (Spare(p, n) < 0 <==> delta >= 13 && IntegerOf(p, n) >= 0x100_0000)
  {
    hide BlockValue;
    var v := IntegerOf(p, n);
    assert |IntBytes(v)| <= 4 && (|IntBytes(v)| == 4 <==> v >= 0x100_0000);
    hide IntBytes;
    IntegerCost(n - CurrentNumber(p, n), IntBytes(v));
    hide Cost, CurrentNumber;
    assert OptionValues(p, n) == [IntBytes(v)];
    assert Allowance(p, n) == MAX_OPTION_HEADER_LEN;
    hide OptionValues, Allowance, IntegerOf;
  }

  lemma {:induction false} IntegerCost(delta: nat, value: seq<byte>)
    requires |value| <= 4
    ensures Cost(delta, [value]) == 1 + Extension(delta) + |value|
  {
    assert [value][1..] == [];
  }

  // ----- a query of several parts -------------------------------------------------------------

  function Extensions(values: seq<seq<byte>>): nat
    decreases |values|
  {
    if values == [] then 0 else Extension(|values[0]|) + Extensions(values[1..])
  }

  lemma {:induction false} CostOf(delta: nat, values: seq<seq<byte>>)
    requires values != []
    ensures Cost(delta, values) == |values| + Extension(delta) + Extensions(values) + TotalLength(values)
    decreases |values|
  {
    assert Extension(0) == 0;
    hide Extension;
    if |values| > 1 {
      CostOf(0, values[1..]);
    } else {
      assert values[1..] == [];
    }
  }

  /** The parts and the separators between them make up the query, but for a separator at the end that is lost. */
  lemma {:induction false} PartsLength(s: seq<byte>, start: nat, j: nat)
    requires start <= j <= |s|
    ensures var parts := SplitFrom(s, start, j);
            parts != [] && TotalLength(parts) + |parts| - 1 + (if EndsInSeparator(s, j) then 1 else 0) == |s| - start
    decreases |s| - j
  {
    if j < |s| && s[j] != AMPERSAND {
      PartsLength(s, start, j + 1);
    } else {
      var (part, rest) := (s[start..j], SplitFrom(s, j + 1, j + 2));
      assert SplitFrom(s, start, j) == [part] + rest && ([part] + rest)[1..] == rest;
      if j + 2 <= |s| {
        PartsLength(s, j + 1, j + 2);
        hide SplitFrom;
      }
    }
  }

  /** What the estimate has to spare for a query: each part of 13 bytes or more costs a byte (of 269 or more, two). */
  lemma {:induction false} QuerySpare(p: Packet)
    requires LOCATION_QUERY in p.options
    ensures var delta := LOCATION_QUERY - CurrentNumber(p, LOCATION_QUERY);
            0 <= delta && Spare(p, LOCATION_QUERY)
              == 4 + TrailingSeparators(p.locationQuery) % 2 - Extension(delta) - Extensions(SplitFrom(p.locationQuery, 0, 0))
  {
    var (s, delta) := (p.locationQuery, LOCATION_QUERY - CurrentNumber(p, LOCATION_QUERY));
    PartsLength(s, 0, 0);
    EndsInOdd(s, 0);
    CostOf(delta, SplitFrom(s, 0, 0));
    hide SplitFrom, EndsInSeparator, TrailingSeparators, Cost, Extension, CurrentNumber;
  }

  lemma {:induction false} OnlyOptionSize(p: Packet, n: nat)
    requires p.msgType < 4 && |p.token| <= TOKEN_LEN && p.options == {n} && n < OPTION_END
    ensures GetSize(p) - |Message(p)| == Spare(p, n) && CurrentNumber(p, n) == 0
  {
    hide OptionsBytes, AllowanceFrom, ValuesBytes, Cost, CurrentNumber, OptionValues, Allowance, GetSize, Message;
    SizeDifference(p);
    NoneBelow(p, n);
    OnlyOption(p, n, 0);
    CostIsExact(n, 0, OptionValues(p, n));
  }

  /** A query as the only option overruns the estimate exactly when its parts are too many and too long. */
  lemma {:induction false} LongQueryOverruns(p: Packet)
    requires p.msgType < 4 && |p.token| <= TOKEN_LEN && p.options == {LOCATION_QUERY}
    ensures |Message(p)| > GetSize(p) <==>
              Extensions(SplitFrom(p.locationQuery, 0, 0)) > 3 + TrailingSeparators(p.locationQuery) % 2
  {
    hide Message, GetSize, Spare, SplitFrom, TrailingSeparators, CurrentNumber, Extensions;
    OnlyOptionSize(p, LOCATION_QUERY);
    QuerySpare(p);
  }

  // ----- the usual case -----------------------------------------------------------------------

  /** The values whose byte count the estimate relies on. */
  predicate SmallIntegers(p: Packet) {
    p.maxAge < 0x100_0000 && p.size < 0x100_0000 && p.block1.num < 0x10_0000 && p.block2.num < 0x10_0000
  }

  /** The parts of a query are few or short enough for the one header that the estimate has for all of them. */
  predicate FewParts(p: Packet) {
    LOCATION_QUERY in p.options ==>
      Extension(LOCATION_QUERY - CurrentNumber(p, LOCATION_QUERY)) + Extensions(SplitFrom(p.locationQuery, 0, 0))
        <= 4 + TrailingSeparators(p.locationQuery) % 2
  }

  /** An integer option stays within its allowance unless it takes four bytes and its delta needs
      an extension byte. */
  lemma {:induction false} IntOptionAllowance(n: nat, current: nat, v: uint32)
    requires current <= n < current + 269
    ensures |ValuesBytes(n, current, [IntBytes(v)])| <= MAX_OPTION_HEADER_LEN <==> v < 0x100_0000 || n - current < 13
  {
    assert ValuesBytes(n, current, [IntBytes(v)]) == OptionHeader(n - current, |IntBytes(v)|) + IntBytes(v) + ValuesBytes(n, n, []);
  }

  lemma {:induction false} StringOptionAllowance(n: nat, current: nat, value: seq<byte>)
    requires current <= n
    ensures |ValuesBytes(n, current, [value])| <= MAX_OPTION_HEADER_LEN + |value|
  {
    assert ValuesBytes(n, current, [value]) == OptionHeader(n - current, |value|) + value + ValuesBytes(n, n, []);
  }

  lemma {:induction false} SegmentsAllowance(n: nat, current: nat, segments: seq<seq<byte>>)
    requires current <= n
    ensures |ValuesBytes(n, current, segments)| <= SegmentsSize(segments)
    decreases |segments|
  {
    if segments != [] {
      SegmentsAllowance(n, n, segments[1..]);
      SegmentsSizeCons(segments);
    }
  }

  lemma {:induction false} SegmentsSizeCons(segments: seq<seq<byte>>)
    requires segments != []
    ensures SegmentsSize(segments) == MAX_OPTION_HEADER_LEN + |segments[0]| + SegmentsSize(segments[1..])
  {
    if |segments| > 1 {
      var front := segments[..|segments| - 1];
      SegmentsSizeCons(front);
      assert segments[1..][..|segments| - 2] == front[1..];
    }
  }

  lemma {:induction false} AcceptAllowance(n: nat, current: nat, vs: seq<uint16>)
    requires current <= n < current + 269
    ensures |ValuesBytes(n, current, IntValues(vs))| <= |vs| * MAX_OPTION_HEADER_LEN
    decreases |vs|
  {
    if vs != [] {
      assert IntValues(vs)[1..] == IntValues(vs[1..]);
      AcceptAllowance(n, n, vs[1..]);
      assert |IntBytes(vs[0])| <= 2;
      assert |OptionHeader(n - current, |IntBytes(vs[0])|)| <= 2;
    }
  }

  /** Options that are neither integers nor a query stay within their allowance. */
  lemma {:induction false} OtherAllowance(p: Packet, n: nat)
    requires n < OPTION_END && n != LOCATION_QUERY && !(n in p.options && IsInteger(n))
    ensures |NumberBytes(p, n)| <= Allowance(p, n)
  {
    hide IntBytes, BlockValue;
    var current := CurrentNumber(p, n);
    if n in p.options && IsKnown(n) {
      if n == IF_MATCH || n == URI_HOST || n == ETAG || n == PROXY_URI {
        StringOptionAllowance(n, current, OptionValues(p, n)[0]);
      } else if n == LOCATION_PATH || n == URI_PATH || n == URI_QUERY {
        SegmentsAllowance(n, current, OptionValues(p, n));
      } else {
        AcceptAllowance(n, current, p.accept);
      }
    }
  }

  lemma {:induction false} NumberAllowance(p: Packet, n: nat)
    requires SmallIntegers(p) && FewParts(p) && n < OPTION_END
    ensures |NumberBytes(p, n)| <= Allowance(p, n)
  {
    CostIsExact(n, CurrentNumber(p, n), OptionValues(p, n));
    if n in p.options && IsInteger(n) {
      SmallBlock(p.block1);
      SmallBlock(p.block2);
      IntegerSpare(p, n);
    } else if n in p.options && n == LOCATION_QUERY {
      QuerySpare(p);
    } else if n != LOCATION_QUERY {
      OtherAllowance(p, n);
    }
    hide Allowance, OptionValues, Cost, BlockValue, SplitFrom, ValuesBytes;
  }

  lemma {:induction false} SmallBlock(b: Block)
    requires b.num < 0x10_0000
    ensures BlockValue(b) < 0x100_0000
  {
  }

  lemma {:induction false} OptionsAllowance(p: Packet, n: nat)
    requires SmallIntegers(p) && FewParts(p)
    ensures |OptionsBytes(p, n)| <= AllowanceFrom(p, n)
    decreases OPTION_END - n
  {
    if n < OPTION_END {
      NumberAllowance(p, n);
      hide SmallIntegers, FewParts, Allowance, NumberBytes;
      OptionsAllowance(p, n + 1);
    }
  }

  /** With small integers and no query of many long parts, the message never outgrows the buffer that is allocated for
      it. */
  lemma {:induction false} SizeBound(p: Packet)
    requires p.msgType < 4 && |p.token| <= TOKEN_LEN && SmallIntegers(p) && FewParts(p)
    ensures |Message(p)| <= GetSize(p)
  {
    OptionsAllowance(p, 0);
    SizeDifference(p);
    hide Message, GetSize, AllowanceFrom, OptionsBytes;
  }

  /** The four-byte case is real: a large Max-Age as the only option overruns the estimate. */
  lemma {:induction false} LargeMaxAgeOverruns(p: Packet)
    requires p.msgType < 4 && |p.token| <= TOKEN_LEN && p.options == {MAX_AGE} && p.maxAge >= 0x100_0000
    ensures |Message(p)| == GetSize(p) + 1
  {
    hide Message, GetSize, Spare, CurrentNumber;
    OnlyOptionSize(p, MAX_AGE);
    IntegerSpare(p, MAX_AGE);
    assert Extension(MAX_AGE) == 1 && |IntBytes(p.maxAge)| == 4;
  }

  lemma {:induction false} NoneBelow(p: Packet, n: nat)
    requires forall o :: o in p.options ==> o >= n
    ensures CurrentNumber(p, n) == 0
  {
    if n > 0 {
      assert n - 1 !in p.options;
      NoneBelow(p, n - 1);
    }
  }

  lemma {:induction false} UnsetIsSilent(p: Packet, n: nat)
    requires n !in p.options && n < OPTION_END
    ensures OptionsBytes(p, n) == OptionsBytes(p, n + 1) && AllowanceFrom(p, n) == AllowanceFrom(p, n + 1)
  {
    assert OptionValues(p, n) == [] && Allowance(p, n) == 0;
    hide OptionValues, Allowance, CurrentNumber;
    assert ValuesBytes(n, CurrentNumber(p, n), []) == [];
  }

  lemma {:induction false} NothingAfter(p: Packet, from: nat)
    requires forall o :: o in p.options ==> o < from
    ensures OptionsBytes(p, from) == [] && AllowanceFrom(p, from) == 0
    decreases OPTION_END - from
  {
    if from < OPTION_END {
      UnsetIsSilent(p, from);
      NothingAfter(p, from + 1);
    }
  }

  lemma {:induction false} OnlyOption(p: Packet, n: nat, from: nat)
    requires p.options == {n} && from <= n < OPTION_END
    ensures OptionsBytes(p, from) == NumberBytes(p, n)
    ensures AllowanceFrom(p, from) == Allowance(p, n)
    decreases n - from
  {
    hide Allowance, NumberBytes;
    if from == n {
      NothingAfter(p, n + 1);
    } else {
      UnsetIsSilent(p, from);
      OnlyOption(p, n, from + 1);
    }
  }

  /** The list loops of `coap_serialize_get_size`. */
  method AddSegments(segments: seq<seq<byte>>) returns (length: nat)
    ensures length == SegmentsSize(segments)
  {
    length := 0;
    for i := 0 to |segments|
      invariant length == SegmentsSize(segments[..i])
    {
      assert segments[..i + 1][..i] == segments[..i];
      length := length + MAX_OPTION_HEADER_LEN + |segments[i]|;
    }
    assert segments[..|segments|] == segments;
  }

  // ----- the serializer -----------------------------------------------------------------------

  /** `coap_set_option_header` */
  method SetOptionHeader(buffer: array<byte>, at: nat, delta: nat, length: nat) returns (next: nat)
    requires at + |OptionHeader(delta, length)| <= buffer.Length
    modifies buffer
    ensures next == at + |OptionHeader(delta, length)|
    ensures Wrote(old(buffer[..]), buffer[..], at, OptionHeader(delta, length))
  {
    CopyBytes(buffer, at, OptionHeader(delta, length));
    next := at + |OptionHeader(delta, length)|;
  }

  /** One option: header and value. */
  method WriteOption(buffer: array<byte>, at: nat, delta: nat, value: seq<byte>) returns (next: nat)
    requires at + |OptionHeader(delta, |value|)| + |value| <= buffer.Length
    modifies buffer
    ensures next == at + |OptionHeader(delta, |value|) + value|
    ensures Wrote(old(buffer[..]), buffer[..], at, OptionHeader(delta, |value|) + value)
  {
    hide OptionHeader;
    ghost var s0 := buffer[..];
    next := SetOptionHeader(buffer, at, delta, |value|);
    ghost var s1 := buffer[..];
    CopyBytes(buffer, next, value);
    WroteMore(s0, s1, buffer[..], at, OptionHeader(delta, |value|), value);
    next := next + |value|;
  }

  lemma {:induction false} ValuesStep(done: seq<byte>, number: nat, last: nat, values: seq<seq<byte>>, j: nat)
    requires last <= number && j < |values|
    ensures done + ValuesBytes(number, last, values[j..])
         == (done + (OptionHeader(number - last, |values[j]|) + values[j])) + ValuesBytes(number, number, values[j + 1..])
  {
    hide OptionHeader;
    assert values[j..][0] == values[j] && values[j..][1..] == values[j + 1..];
  }

  /** `coap_serialize_multi_option`; a single value is a list of one. */
  method SerializeValues(buffer: array<byte>, at: nat, number: nat, current: nat, values: seq<seq<byte>>) returns (next: nat)
    requires current <= number
    requires at + |ValuesBytes(number, current, values)| <= buffer.Length
    modifies buffer
    ensures next == at + |ValuesBytes(number, current, values)|
    ensures Wrote(old(buffer[..]), buffer[..], at, ValuesBytes(number, current, values))
  {
    hide OptionHeader;
    next := at;
    var last := current;
    ghost var done: seq<byte> := [];
    ghost var s0 := buffer[..];
    assert values[0..] == values;
    var j := 0;
    while j < |values|
      invariant 0 <= j <= |values| && current <= last <= number
      invariant next == at + |done|
      invariant done + ValuesBytes(number, last, values[j..]) == ValuesBytes(number, current, values)
      invariant Wrote(s0, buffer[..], at, done)
    {
      ValuesStep(done, number, last, values, j);
      ghost var s1 := buffer[..];
      ghost var bytes := OptionHeader(number - last, |values[j]|) + values[j];
      next := WriteOption(buffer, next, number - last, values[j]);
      WroteMore(s0, s1, buffer[..], at, done, bytes);
      done := done + bytes;
      last := number;
      j := j + 1;
    }
  }

  lemma {:induction false} SplitStep(done: seq<byte>, number: nat, last: nat, s: seq<byte>, start: nat, j: nat)
    requires last <= number && start <= j <= |s| && (j == |s| || s[j] == AMPERSAND)
    ensures var part := s[start..j];
            done + ValuesBytes(number, last, SplitFrom(s, start, j))
              == (done + (OptionHeader(number - last, |part|) + part)) + ValuesBytes(number, number, SplitFrom(s, j + 1, j + 2))
  {
    var (part, rest) := (s[start..j], SplitFrom(s, j + 1, j + 2));
    assert SplitFrom(s, start, j) == [part] + rest;
    ValuesStep(done, number, last, [part] + rest, 0);
    assert ([part] + rest)[0..] == [part] + rest && ([part] + rest)[1..] == rest;
    hide SplitFrom, ValuesBytes, OptionHeader;
  }

  /** `coap_serialize_array_option` with a separator: the parts are written as they are found. */
  method SerializeSplit(buffer: array<byte>, at: nat, number: nat, current: nat, s: seq<byte>) returns (next: nat)
    requires current <= number
    requires at + |ValuesBytes(number, current, SplitFrom(s, 0, 0))| <= buffer.Length
    modifies buffer
    ensures next == at + |ValuesBytes(number, current, SplitFrom(s, 0, 0))|
    ensures Wrote(old(buffer[..]), buffer[..], at, ValuesBytes(number, current, SplitFrom(s, 0, 0)))
  {
    hide OptionHeader, ValuesBytes;
    next := at;
    var last := current;
    var partStart := 0;
    ghost var done: seq<byte> := [];
    ghost var s0 := buffer[..];
    ghost var all := ValuesBytes(number, current, SplitFrom(s, 0, 0));
    var j := 0;
    while j <= |s|
      invariant 0 <= partStart <= j && current <= last <= number
      invariant next == at + |done|
      invariant done + ValuesBytes(number, last, SplitFrom(s, partStart, j)) == all
      invariant Wrote(s0, buffer[..], at, done)
      decreases |s| + 1 - j
    {
      if j == |s| || s[j] == AMPERSAND {
        SplitStep(done, number, last, s, partStart, j);
        ghost var s1 := buffer[..];
        ghost var bytes := OptionHeader(number - last, |s[partStart..j]|) + s[partStart..j];
        next := WriteOption(buffer, next, number - last, s[partStart..j]);
        WroteMore(s0, s1, buffer[..], at, done, bytes);
        done := done + bytes;
        last := number;
        j := j + 1;
        partStart := j;
      }
      j := j + 1;
    }
    assert ValuesBytes(number, last, []) == [] by { NoValues(number, last); }
  }

  lemma {:induction false} NoValues(number: nat, last: nat)
    requires last <= number
    ensures ValuesBytes(number, last, []) == []
  {
  }

  /** The option bytes below number `n`. */
  function OptionsBefore(p: Packet, n: nat): seq<byte>
  {
    if n == 0 then []
    else OptionsBefore(p, n - 1) + NumberBytes(p, n - 1)
  }

  lemma {:induction false} OptionsSplit(p: Packet, n: nat)
    requires n <= OPTION_END
    ensures OptionsBefore(p, n) + OptionsBytes(p, n) == OptionsBytes(p, 0)
  {
    hide NumberBytes;
    if n > 0 {
      OptionsSplit(p, n - 1);
      ConcatAssociative(OptionsBefore(p, n - 1), NumberBytes(p, n - 1), OptionsBytes(p, n));
    }
  }

  lemma {:induction false} NumberWithinOptions(p: Packet, n: nat)
    requires n < OPTION_END
    ensures |OptionsBefore(p, n)| + |NumberBytes(p, n)| <= |OptionsBytes(p, 0)|
  {
    hide NumberBytes;
    OptionsSplit(p, n + 1);
  }

  /** Numbers without an option of ours leave the bytes and the current number alone. */
  lemma {:induction false} GapIsSilent(p: Packet, n: nat, next: nat)
    requires n <= next && forall k :: n <= k < next ==> !IsKnown(k)
    ensures OptionsBefore(p, next) == OptionsBefore(p, n) && CurrentNumber(p, next) == CurrentNumber(p, n)
    decreases next - n
  {
    if n < next {
      GapIsSilent(p, n, next - 1);
      assert !IsKnown(next - 1) && OptionValues(p, next - 1) == [];
    }
  }

  lemma {:induction false} QueryValues(p: Packet)
    requires LOCATION_QUERY in p.options
    ensures OptionValues(p, LOCATION_QUERY) == SplitFrom(p.locationQuery, 0, 0)
  {
  }

  /** One `COAP_SERIALIZE_*` macro, for the option `n` whose successor among ours is `next`. */
  method SerializeOption(p: Packet, n: nat, next: nat, buffer: array<byte>, option: nat, currentNumber: nat,
                         ghost s0: seq<byte>, ghost start: nat)
      returns (option': nat, currentNumber': nat)
    requires n < next <= OPTION_END && forall k :: n < k < next ==> !IsKnown(k)
    requires IsKnown(n) && currentNumber == CurrentNumber(p, n)
    requires option == start + |OptionsBefore(p, n)| && start + |OptionsBytes(p, 0)| <= buffer.Length
    requires Wrote(s0, buffer[..], start, OptionsBefore(p, n))
    modifies buffer
    ensures option' == start + |OptionsBefore(p, next)| && currentNumber' == CurrentNumber(p, next)
    ensures Wrote(s0, buffer[..], start, OptionsBefore(p, next))
  {
    hide ValuesBytes, OptionValues, OptionsBytes;
    ghost var s1 := buffer[..];
    NumberWithinOptions(p, n);
    if n == LOCATION_QUERY && n in p.options {
      assert OptionValues(p, n) == SplitFrom(p.locationQuery, 0, 0) by { QueryValues(p); }
      option' := SerializeSplit(buffer, option, n, currentNumber, p.locationQuery);
    } else {
      option' := SerializeValues(buffer, option, n, currentNumber, OptionValues(p, n));
    }
    WroteMore(s0, s1, buffer[..], start, OptionsBefore(p, n), NumberBytes(p, n));
    GapIsSilent(p, n + 1, next);
    currentNumber' := if Advances(p, n) then n else currentNumber;
  }

  /** The macros of `coap_serialize_message`, in the order of the option numbers. */
  method SerializeOptions(p: Packet, buffer: array<byte>, start: nat) returns (option: nat)
    requires start + |OptionsBytes(p, 0)| <= buffer.Length
    modifies buffer
    ensures option == start + |OptionsBytes(p, 0)|
    ensures Wrote(old(buffer[..]), buffer[..], start, OptionsBytes(p, 0))
  {
    hide OptionsBytes, OptionsBefore, CurrentNumber;
    ghost var s0 := buffer[..];
    var currentNumber := 0;
    option := start;
    NoneYet(p);
    option, currentNumber := SerializeOption(p, IF_MATCH, URI_HOST, buffer, option, currentNumber, s0, start);
    option, currentNumber := SerializeOption(p, URI_HOST, ETAG, buffer, option, currentNumber, s0, start);
    option, currentNumber := SerializeOption(p, ETAG, IF_NONE_MATCH, buffer, option, currentNumber, s0, start);
    option, currentNumber := SerializeOption(p, IF_NONE_MATCH, OBSERVE, buffer, option, currentNumber, s0, start);
    option, currentNumber := SerializeOption(p, OBSERVE, URI_PORT, buffer, option, currentNumber, s0, start);
    option, currentNumber := SerializeMiddleOptions(p, buffer, option, currentNumber, s0, start);
    option, currentNumber := SerializeLastOptions(p, buffer, option, currentNumber, s0, start);
    AllBefore(p);
  }

  /** The macros from Uri-Port to Uri-Query. */
  method SerializeMiddleOptions(p: Packet, buffer: array<byte>, at: nat, current: nat, ghost s0: seq<byte>, ghost start: nat)
      returns (option: nat, currentNumber: nat)
    requires current == CurrentNumber(p, URI_PORT)
    requires at == start + |OptionsBefore(p, URI_PORT)| && start + |OptionsBytes(p, 0)| <= buffer.Length
    requires Wrote(s0, buffer[..], start, OptionsBefore(p, URI_PORT))
    modifies buffer
    ensures option == start + |OptionsBefore(p, ACCEPT)| && currentNumber == CurrentNumber(p, ACCEPT)
    ensures Wrote(s0, buffer[..], start, OptionsBefore(p, ACCEPT))
  {
    hide OptionsBytes, OptionsBefore, CurrentNumber;
    option, currentNumber := at, current;
    option, currentNumber := SerializeOption(p, URI_PORT, LOCATION_PATH, buffer, option, currentNumber, s0, start);
    option, currentNumber := SerializeOption(p, LOCATION_PATH, URI_PATH, buffer, option, currentNumber, s0, start);
    option, currentNumber := SerializeOption(p, URI_PATH, CONTENT_TYPE, buffer, option, currentNumber, s0, start);
    option, currentNumber := SerializeOption(p, CONTENT_TYPE, MAX_AGE, buffer, option, currentNumber, s0, start);
    option, currentNumber := SerializeOption(p, MAX_AGE, URI_QUERY, buffer, option, currentNumber, s0, start);
    option, currentNumber := SerializeOption(p, URI_QUERY, ACCEPT, buffer, option, currentNumber, s0, start);
  }

  /** The macros from Accept to Proxy-Uri. */
  method SerializeLastOptions(p: Packet, buffer: array<byte>, at: nat, current: nat, ghost s0: seq<byte>, ghost start: nat)
      returns (option: nat, currentNumber: nat)
    requires current == CurrentNumber(p, ACCEPT)
    requires at == start + |OptionsBefore(p, ACCEPT)| && start + |OptionsBytes(p, 0)| <= buffer.Length
    requires Wrote(s0, buffer[..], start, OptionsBefore(p, ACCEPT))
    modifies buffer
    ensures option == start + |OptionsBefore(p, OPTION_END)| && currentNumber == CurrentNumber(p, OPTION_END)
    ensures Wrote(s0, buffer[..], start, OptionsBefore(p, OPTION_END))
  {
    hide OptionsBytes, OptionsBefore, CurrentNumber;
    option, currentNumber := at, current;
    option, currentNumber := SerializeOption(p, ACCEPT, LOCATION_QUERY, buffer, option, currentNumber, s0, start);
    option, currentNumber := SerializeOption(p, LOCATION_QUERY, BLOCK2, buffer, option, currentNumber, s0, start);
    option, currentNumber := SerializeOption(p, BLOCK2, BLOCK1, buffer, option, currentNumber, s0, start);
    option, currentNumber := SerializeOption(p, BLOCK1, SIZE, buffer, option, currentNumber, s0, start);
    option, currentNumber := SerializeOption(p, SIZE, PROXY_URI, buffer, option, currentNumber, s0, start);
    option, currentNumber := SerializeOption(p, PROXY_URI, OPTION_END, buffer, option, currentNumber, s0, start);
  }

  lemma {:induction false} NoneYet(p: Packet)
    ensures OptionsBefore(p, IF_MATCH) == [] && CurrentNumber(p, IF_MATCH) == 0
  {
    GapIsSilent(p, 0, IF_MATCH);
  }

  lemma {:induction false} AllBefore(p: Packet)
    ensures OptionsBefore(p, OPTION_END) == OptionsBytes(p, 0)
  {
    OptionsSplit(p, OPTION_END);
  }

  /** `coap_serialize_message` writes the message; it also sets the version and frees the lists. */
  method SerializeMessage(p: Packet, buffer: array<byte>) returns (length: nat, after: Packet)
    requires p.msgType < 4 && |p.token| <= TOKEN_LEN && |Message(p)| <= buffer.Length
    modifies buffer
    ensures length == |Message(p)| && buffer[..length] == Message(p)
    ensures after == p.(version := 1, uriPath := [], uriQuery := [], locationPath := [])
  {
    hide OptionsBytes;
    ghost var s0 := buffer[..];
    CopyBytes(buffer, 0, HeaderBytes(p));
    ghost var s1 := buffer[..];
    var option := SerializeOptions(p, buffer, HEADER_LEN + |p.token|);
    ghost var s2 := buffer[..];
    CopyBytes(buffer, option, PayloadBytes(p.payload));
    length := option + |PayloadBytes(p.payload)|;
    after := p.(version := 1, uriPath := [], uriQuery := [], locationPath := []);
    WroteMore(s1, s2, buffer[..], HEADER_LEN + |p.token|, OptionsBytes(p, 0), PayloadBytes(p.payload));
    WroteMore(s0, s1, buffer[..], 0, HeaderBytes(p), OptionsBytes(p, 0) + PayloadBytes(p.payload));
    assert buffer[..length] == s0[..0] + Message(p);
  }

  /** The allocation and serialization of `message_send`: the whole message, or nothing where the estimate is too small
      and the serializer would write behind the end of its buffer. */
  method BuildDatagram(p: Packet) returns (datagram: Option<seq<byte>>)
    requires p.msgType < 4 && |p.token| <= TOKEN_LEN
    ensures datagram == if SpareFrom(p, 0) >= 0 then Some(Message(p)) else None
  {
    SizeIsExact(p);
    hide Message, SpareFrom, GetSize;
    var buffer := new byte[GetSize(p)];
    if |Message(p)| > buffer.Length { return None; }
    var length, _ := SerializeMessage(p, buffer);
    datagram := Some(buffer[..length]);
  }

  // ----- the parser ---------------------------------------------------------------------------

  /** `coap_parse_message` */
  method ParseMessage(data: seq<byte>) returns (result: ParseResult)
    ensures result == Parse(data)
  {
    hide StoreOption, ReadOptionHeader, ParseHeader;
    if |data| < HEADER_LEN { return Rejected(BAD_REQUEST); }
    if data[0] / 64 != 1 { return Rejected(BAD_REQUEST); }
    if data[1] == 0 && |data| > HEADER_LEN { return Rejected(BAD_REQUEST); }
    var tokenLen := data[0] % 16;
    if tokenLen > TOKEN_LEN || HEADER_LEN + tokenLen > |data| { return Rejected(BAD_REQUEST); }
    var packet := ParseHeader(data, tokenLen);
    var currentOption := HEADER_LEN + tokenLen;
    var optionNumber: nat := 0;
    while currentOption < |data|
      invariant currentOption <= |data|
      invariant Parse(data) == ParseOptions(packet, optionNumber, data[currentOption..])
    {
      var rest := data[currentOption..];
      if rest[0] == 0xFF {
        if |rest| == 1 { return Rejected(BAD_REQUEST); }
        return Parsed(packet.(payload := rest[1..]));
      }
      var frame := ReadOptionHeader(rest);
      if frame == None { return Rejected(BAD_REQUEST); }
      var f := frame.value;
      optionNumber := optionNumber + f.delta;
      var stored := StoreOption(packet, optionNumber, rest[f.headerLen..f.headerLen + f.length]);
      if stored.Rejected? { return stored; }
      packet := stored.packet;
      currentOption := currentOption + f.headerLen + f.length;
      assert data[currentOption..] == rest[f.headerLen + f.length..];
    }
    return Parsed(packet);
  }
}
