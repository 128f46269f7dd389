/** Parsing undoes serializing, for exactly the consistent packets. */
module CoapRoundTrip {
  import opened Bytes
  import opened Coap
  import opened CoapMessage

  // ----- storing the values of one option -----------------------------------------------------

  function StoreAll(p: Packet, n: nat, values: seq<seq<byte>>): ParseResult
    decreases |values|
  {
    if values == [] then Parsed(p)
    else
      match StoreOption(p, n, values[0])
      case Rejected(status) => Rejected(status)
      case Parsed(q) => StoreAll(q, n, values[1..])
  }

  /** One option, cut out of the data whatever follows it. */
  lemma {:induction false} OptionParses(p: Packet, number: nat, delta: nat, value: seq<byte>, tail: seq<byte>)
    requires delta <= MAX_EXTENDED && |value| <= MAX_EXTENDED
    ensures ParseOptions(p, number, OptionHeader(delta, |value|) + value + tail)
         == match StoreOption(p, number + delta, value)
            case Rejected(status) => Rejected(status)
            case Parsed(q) => ParseOptions(q, number + delta, tail)
  {
    hide OptionHeader, StoreOption, ReadOptionHeader;
    var h := OptionHeader(delta, |value|);
    var data := h + value + tail;
    OptionHeaderReads(delta, value, tail);
    assert data[0] == h[0];
    assert data[|h|..|h| + |value|] == value;
    assert data[|h| + |value|..] == tail;
  }

  lemma {:induction false} FirstValue(n: nat, current: nat, values: seq<seq<byte>>, tail: seq<byte>)
    requires current <= n && values != []
    ensures ValuesBytes(n, current, values) + tail
         == OptionHeader(n - current, |values[0]|) + values[0] + (ValuesBytes(n, n, values[1..]) + tail)
  {
  }

  lemma {:induction false} ValuesParse(p: Packet, n: nat, current: nat, values: seq<seq<byte>>, tail: seq<byte>)
    requires current <= n <= current + MAX_EXTENDED
    requires forall v :: v in values ==> |v| <= MAX_EXTENDED
    requires StoreAll(p, n, values).Parsed?
    ensures ParseOptions(p, current, ValuesBytes(n, current, values) + tail)
         == ParseOptions(StoreAll(p, n, values).packet, if values == [] then current else n, tail)
    decreases |values|
  {
    hide StoreOption, ParseOptions, OptionHeader;
    if values == [] {
      assert ValuesBytes(n, current, values) + tail == tail;
    } else {
      var rest := ValuesBytes(n, n, values[1..]);
      FirstValue(n, current, values, tail);
      OptionParses(p, current, n - current, values[0], rest + tail);
      ValuesParse(StoreOption(p, n, values[0]).packet, n, n, values[1..], tail);
    }
  }

  lemma {:induction false} ValuesNotLonger(n: nat, current: nat, values: seq<seq<byte>>)
    requires current <= n
    ensures forall v :: v in values ==> |v| <= |ValuesBytes(n, current, values)|
    decreases |values|
  {
    if values != [] {
      ValuesNotLonger(n, n, values[1..]);
    }
  }

  // ----- the packet as it is being parsed -----------------------------------------------------

  /** What is left of a query once its parts are merged again: without a separator at either end. */
  function MergedParts(query: seq<byte>, parts: seq<seq<byte>>): seq<byte>
    decreases |parts|
  {
    if parts == [] then query else MergedParts(Merged(query, parts[0]), parts[1..])
  }

  /** The packet as it is restored. */
  function Restored(p: Packet): Packet
  {
    p.(locationQuery := MergedParts([], OptionValues(p, LOCATION_QUERY)))
  }

  /** `p` as far as the options below `n` tell. */
  function Upto(p: Packet, n: nat): Packet
  {
    Packet(1, p.msgType, p.code, p.mid, p.token, set o | o in p.options && (o < n || o == TOKEN),
      if IF_MATCH < n then p.ifMatch else [], if URI_HOST < n then p.uriHost else [], if ETAG < n then p.etag else [],
      IF_NONE_MATCH < n && p.ifNoneMatch, if OBSERVE < n then p.observe else 0, if URI_PORT < n then p.uriPort else 0,
      if LOCATION_PATH < n then p.locationPath else [], if URI_PATH < n then p.uriPath else [],
      if CONTENT_TYPE < n then p.contentType else 0, if MAX_AGE < n then p.maxAge else 0,
      if URI_QUERY < n then p.uriQuery else [], if ACCEPT < n then p.accept else [],
      if LOCATION_QUERY < n then Restored(p).locationQuery else [],
      if BLOCK2 < n then p.block2 else NoBlock, if BLOCK1 < n then p.block1 else NoBlock,
      if SIZE < n then p.size else 0, [], [])
  }

  lemma {:induction false} StorePaths(p: Packet, values: seq<seq<byte>>)
    requires values != [] && forall v :: v in values ==> |v| < 0x100
    ensures StoreAll(p, LOCATION_PATH, values) == Parsed(p.(locationPath := p.locationPath + values, options := p.options + {LOCATION_PATH}))
    ensures StoreAll(p, URI_PATH, values) == Parsed(p.(uriPath := p.uriPath + values, options := p.options + {URI_PATH}))
    ensures StoreAll(p, URI_QUERY, values) == Parsed(p.(uriQuery := p.uriQuery + values, options := p.options + {URI_QUERY}))
    decreases |values|
  {
    var v, rest := values[0], values[1..];
    assert Segment(v) == v by { SmallMod(|v|, 0x100); }
    assert values == [v] + rest;
    if rest != [] {
      StorePaths(p.(locationPath := p.locationPath + [v], options := p.options + {LOCATION_PATH}), rest);
      StorePaths(p.(uriPath := p.uriPath + [v], options := p.options + {URI_PATH}), rest);
      StorePaths(p.(uriQuery := p.uriQuery + [v], options := p.options + {URI_QUERY}), rest);
      ConcatAssociative(p.locationPath, [v], rest);
      ConcatAssociative(p.uriPath, [v], rest);
      ConcatAssociative(p.uriQuery, [v], rest);
    }
  }

  /** Storing the values of option `n` completes the packet up to `n`, and something is stored
      exactly when the serializer moves its current number. */
  ghost predicate NumberStored(p: Packet, n: nat) {
    && StoreAll(Upto(p, n), n, OptionValues(p, n)) == Parsed(Upto(p, n + 1))
    && (OptionValues(p, n) != [] <==> Advances(p, n))
  }

  predicate Good(p: Packet) {
    Representable(p) && Consistent(p)
  }

  lemma {:induction false} StoreOne(p: Packet, n: nat, value: seq<byte>)
    ensures StoreAll(p, n, [value]) == StoreOption(p, n, value)
  {
  }

  lemma {:induction false} StoreTwo(p: Packet, n: nat, a: seq<byte>, b: seq<byte>)
    requires StoreOption(p, n, a).Parsed?
    ensures StoreAll(p, n, [a] + [b]) == StoreOption(StoreOption(p, n, a).packet, n, b)
  {
    hide StoreOption;
    assert ([a] + [b])[1..] == [b];
    StoreOne(StoreOption(p, n, a).packet, n, b);
  }

  lemma {:induction false} BitAdded(p: Packet, n: nat)
    requires n in p.options
    ensures Upto(p, n + 1).options == Upto(p, n).options + {n}
  {
  }

  /** What an option that is not set leaves empty. */
  predicate IsBlank(p: Packet, n: nat) {
    && (n == IF_MATCH ==> p.ifMatch == []) && (n == URI_HOST ==> p.uriHost == []) && (n == ETAG ==> p.etag == [])
    && (n == IF_NONE_MATCH ==> !p.ifNoneMatch) && (n == OBSERVE ==> p.observe == 0) && (n == URI_PORT ==> p.uriPort == 0)
    && (n == LOCATION_PATH ==> p.locationPath == []) && (n == URI_PATH ==> p.uriPath == [])
    && (n == CONTENT_TYPE ==> p.contentType == 0) && (n == MAX_AGE ==> p.maxAge == 0)
    && (n == URI_QUERY ==> p.uriQuery == []) && (n == ACCEPT ==> p.accept == [])
    && (n == LOCATION_QUERY ==> Restored(p).locationQuery == [])
    && (n == BLOCK2 ==> p.block2 == NoBlock) && (n == BLOCK1 ==> p.block1 == NoBlock) && (n == SIZE ==> p.size == 0)
  }

  lemma {:induction false} UnsetIsBlank(p: Packet, n: nat)
    requires Good(p) && n !in p.options
    ensures IsBlank(p, n)
  {
    assert n == LOCATION_QUERY ==> OptionValues(p, n) == [] && Restored(p).locationQuery == [];
    hide Restored, Representable, ValidBlock, OptionValues;
  }

  lemma {:induction false} UptoUnset(p: Packet, n: nat)
    requires Good(p) && (n !in p.options || n == TOKEN)
    ensures Upto(p, n + 1) == Upto(p, n)
  {
    if n !in p.options { UnsetIsBlank(p, n); }
    hide Good, Restored;
    assert Upto(p, n + 1).options == Upto(p, n).options;
  }

  lemma {:induction false} SkipStored(p: Packet, n: nat)
    requires Good(p) && (n !in p.options || n == TOKEN)
    ensures NumberStored(p, n)
  {
    hide Upto;
    UptoUnset(p, n);
    assert OptionValues(p, n) == [];
  }

  lemma {:induction false} IfMatchStored(p: Packet)
    requires Good(p) && IF_MATCH in p.options
    ensures NumberStored(p, IF_MATCH)
  {
    BitAdded(p, IF_MATCH);
    StoreOne(Upto(p, IF_MATCH), IF_MATCH, OptionValues(p, IF_MATCH)[0]);
  }

  lemma {:induction false} UriHostStored(p: Packet)
    requires Good(p) && URI_HOST in p.options
    ensures NumberStored(p, URI_HOST)
  {
    BitAdded(p, URI_HOST);
    StoreOne(Upto(p, URI_HOST), URI_HOST, OptionValues(p, URI_HOST)[0]);
  }

  lemma {:induction false} EtagStored(p: Packet)
    requires Good(p) && ETAG in p.options
    ensures NumberStored(p, ETAG)
  {
    BitAdded(p, ETAG);
    StoreOne(Upto(p, ETAG), ETAG, OptionValues(p, ETAG)[0]);
  }

  lemma {:induction false} IfNoneMatchStored(p: Packet)
    requires Good(p) && IF_NONE_MATCH in p.options
    ensures NumberStored(p, IF_NONE_MATCH)
  {
    BitAdded(p, IF_NONE_MATCH);
    StoreOne(Upto(p, IF_NONE_MATCH), IF_NONE_MATCH, OptionValues(p, IF_NONE_MATCH)[0]);
  }

  lemma {:induction false} ObserveStored(p: Packet)
    requires Good(p) && OBSERVE in p.options
    ensures NumberStored(p, OBSERVE)
  {
    BitAdded(p, OBSERVE);
    IntRoundTrip(p.observe);
    StoreOne(Upto(p, OBSERVE), OBSERVE, OptionValues(p, OBSERVE)[0]);
  }

  lemma {:induction false} UriPortStored(p: Packet)
    requires Good(p) && URI_PORT in p.options
    ensures NumberStored(p, URI_PORT)
  {
    BitAdded(p, URI_PORT);
    IntRoundTrip(p.uriPort);
    StoreOne(Upto(p, URI_PORT), URI_PORT, OptionValues(p, URI_PORT)[0]);
  }

  lemma {:induction false} ContentTypeStored(p: Packet)
    requires Good(p) && CONTENT_TYPE in p.options
    ensures NumberStored(p, CONTENT_TYPE)
  {
    BitAdded(p, CONTENT_TYPE);
    IntRoundTrip(p.contentType);
    StoreOne(Upto(p, CONTENT_TYPE), CONTENT_TYPE, OptionValues(p, CONTENT_TYPE)[0]);
  }

  lemma {:induction false} MaxAgeStored(p: Packet)
    requires Good(p) && MAX_AGE in p.options
    ensures NumberStored(p, MAX_AGE)
  {
    BitAdded(p, MAX_AGE);
    IntRoundTrip(p.maxAge);
    StoreOne(Upto(p, MAX_AGE), MAX_AGE, OptionValues(p, MAX_AGE)[0]);
  }

  lemma {:induction false} Block2Stored(p: Packet)
    requires Good(p) && BLOCK2 in p.options
    ensures NumberStored(p, BLOCK2)
  {
    BitAdded(p, BLOCK2);
    IntRoundTrip(BlockValue(p.block2));
    BlockRoundTrip(p.block2);
    StoreOne(Upto(p, BLOCK2), BLOCK2, OptionValues(p, BLOCK2)[0]);
  }

  lemma {:induction false} Block1Stored(p: Packet)
    requires Good(p) && BLOCK1 in p.options
    ensures NumberStored(p, BLOCK1)
  {
    BitAdded(p, BLOCK1);
    IntRoundTrip(BlockValue(p.block1));
    BlockRoundTrip(p.block1);
    StoreOne(Upto(p, BLOCK1), BLOCK1, OptionValues(p, BLOCK1)[0]);
  }

  lemma {:induction false} SizeStored(p: Packet)
    requires Good(p) && SIZE in p.options
    ensures NumberStored(p, SIZE)
  {
    BitAdded(p, SIZE);
    IntRoundTrip(p.size);
    StoreOne(Upto(p, SIZE), SIZE, OptionValues(p, SIZE)[0]);
  }

  lemma {:induction false} LocationPathStored(p: Packet)
    requires Good(p) && LOCATION_PATH in p.options
    ensures NumberStored(p, LOCATION_PATH)
  {
    BitAdded(p, LOCATION_PATH);
    StorePaths(Upto(p, LOCATION_PATH), OptionValues(p, LOCATION_PATH));
  }

  lemma {:induction false} UriPathStored(p: Packet)
    requires Good(p) && URI_PATH in p.options
    ensures NumberStored(p, URI_PATH)
  {
    BitAdded(p, URI_PATH);
    StorePaths(Upto(p, URI_PATH), OptionValues(p, URI_PATH));
  }

  lemma {:induction false} UriQueryStored(p: Packet)
    requires Good(p) && URI_QUERY in p.options
    ensures NumberStored(p, URI_QUERY)
  {
    BitAdded(p, URI_QUERY);
    StorePaths(Upto(p, URI_QUERY), OptionValues(p, URI_QUERY));
  }

  lemma {:induction false} StoreQuery(p: Packet, parts: seq<seq<byte>>)
    requires LOCATION_QUERY in p.options
    ensures StoreAll(p, LOCATION_QUERY, parts) == Parsed(p.(locationQuery := MergedParts(p.locationQuery, parts)))
    decreases |parts|
  {
    if parts != [] {
      var q := p.(locationQuery := Merged(p.locationQuery, parts[0]));
      assert p.options + {LOCATION_QUERY} == p.options;
      assert StoreOption(p, LOCATION_QUERY, parts[0]) == Parsed(q);
      hide StoreOption, Merged;
      StoreQuery(q, parts[1..]);
    }
  }

  lemma {:induction false} LocationQueryStored(p: Packet)
    requires Good(p) && LOCATION_QUERY in p.options
    ensures NumberStored(p, LOCATION_QUERY)
  {
    BitAdded(p, LOCATION_QUERY);
    var (q, parts) := (Upto(p, LOCATION_QUERY), OptionValues(p, LOCATION_QUERY));
    SplitNotEmpty(p.locationQuery, 0, 0);
    var first := q.(locationQuery := parts[0], options := q.options + {LOCATION_QUERY});
    assert StoreOption(q, LOCATION_QUERY, parts[0]) == Parsed(first);
    hide StoreOption;
    StoreQuery(first, parts[1..]);
  }

  lemma {:induction false} SplitNotEmpty(s: seq<byte>, start: nat, j: nat)
    requires start <= j <= |s|
    ensures SplitFrom(s, start, j) != []
    decreases |s| - j
  {
    if j < |s| && s[j] != AMPERSAND {
      SplitNotEmpty(s, start, j + 1);
    }
  }

  /** The part that ends at `j`, merged with what is there, and the parts behind it. */
  lemma {:induction false} MergeCut(query: seq<byte>, s: seq<byte>, start: nat, j: nat)
    requires start <= j <= |s| && (j == |s| || s[j] == AMPERSAND)
    ensures var merged := Merged(query, s[start..j]);
            MergedParts(query, SplitFrom(s, start, j)) == if j + 2 <= |s| then MergedParts(merged, SplitFrom(s, j + 1, j + 2)) else merged
  {
    var (part, rest) := (s[start..j], SplitFrom(s, j + 1, j + 2));
    assert SplitFrom(s, start, j) == [part] + rest && ([part] + rest)[1..] == rest;
    assert j + 2 > |s| ==> rest == [];
    hide SplitFrom, Merged;
  }

  /** Parts that follow something are merged to what they were cut from, but for a separator the loop meets last. */
  lemma {:induction false} PartsMerge(query: seq<byte>, s: seq<byte>, start: nat, j: nat)
    requires query != [] && start <= j <= |s|
    ensures EndsInSeparator(s, j) ==> j < |s|
    ensures MergedParts(query, SplitFrom(s, start, j))
         == query + [AMPERSAND] + s[start..if EndsInSeparator(s, j) then |s| - 1 else |s|]
    decreases |s| - j
  {
    hide MergedParts;
    if j < |s| && s[j] != AMPERSAND {
      PartsMerge(query, s, start, j + 1);
    } else {
      hide SplitFrom;
      MergeCut(query, s, start, j);
      if j + 2 <= |s| {
        PartsMerge(Merged(query, s[start..j]), s, j + 1, j + 2);
        JoinAt(s, start, j, if EndsInSeparator(s, j + 2) then |s| - 1 else |s|);
        hide EndsInSeparator;
      }
    }
  }

  lemma {:induction false} JoinAt(s: seq<byte>, start: nat, j: nat, end: nat)
    requires start <= j < end <= |s| && s[j] == AMPERSAND
    ensures s[start..end] == s[start..j] + [AMPERSAND] + s[j + 1..end]
  {
  }

  /** A query comes back from its parts exactly when nothing is lost at its ends. */
  lemma {:induction false} QueryRoundTrip(s: seq<byte>)
    ensures MergedParts([], SplitFrom(s, 0, 0)) == s <==> QueryKept(s)
  {
    EndsInOdd(s, 0);
    hide MergedParts, SplitFrom;
    if s == [] || s[0] == AMPERSAND {
      MergeCut([], s, 0, 0);
      if |s| >= 2 {
        LaterParts(s, 2);
      }
    } else {
      FirstPart(s, 0);
    }
  }

  /** Without a separator at its beginning a query has a first part that is not empty. */
  lemma {:induction false} FirstPart(s: seq<byte>, j: nat)
    requires j <= |s| && s != [] && (j == 0 ==> s[0] != AMPERSAND)
    ensures MergedParts([], SplitFrom(s, 0, j)) == s[..if EndsInSeparator(s, j) then |s| - 1 else |s|]
    decreases |s| - j
  {
    hide MergedParts;
    if j < |s| && s[j] != AMPERSAND {
      FirstPart(s, j + 1);
    } else {
      hide SplitFrom;
      MergeCut([], s, 0, j);
      if j + 2 <= |s| {
        PartsMerge(s[..j], s, j + 1, j + 2);
        JoinAt(s, 0, j, if EndsInSeparator(s, j + 2) then |s| - 1 else |s|);
        hide EndsInSeparator;
      }
    }
  }

  /** Behind a separator at the beginning there is less than the query. */
  lemma {:induction false} LaterParts(s: seq<byte>, j: nat)
    requires 2 <= j <= |s|
    ensures |MergedParts([], SplitFrom(s, 1, j))| < |s|
    decreases |s| - j
  {
    hide MergedParts;
    if j < |s| && s[j] != AMPERSAND {
      LaterParts(s, j + 1);
    } else {
      hide SplitFrom;
      MergeCut([], s, 1, j);
      if j + 2 <= |s| {
        PartsMerge(s[1..j], s, j + 1, j + 2);
      }
    }
  }

  lemma {:induction false} AcceptOnce(p: Packet, v: uint16)
    requires |p.accept| < MAX_ACCEPT_NUM
    ensures StoreOption(p, ACCEPT, IntBytes(v)) == Parsed(p.(accept := p.accept + [v], options := p.options + {ACCEPT}))
  {
    hide IntBytes;
    IntRoundTrip(v);
    SmallMod(v, 0x1_0000);
  }

  lemma {:induction false} AcceptStored(p: Packet)
    requires Good(p) && ACCEPT in p.options
    ensures NumberStored(p, ACCEPT)
  {
    BitAdded(p, ACCEPT);
    var q, vs := Upto(p, ACCEPT), p.accept;
    AcceptOnce(q, vs[0]);
    var q1 := q.(accept := [vs[0]], options := q.options + {ACCEPT});
    if |vs| == 1 {
      assert vs == [vs[0]] && IntValues(vs) == [IntBytes(vs[0])];
      StoreOne(q, ACCEPT, IntBytes(vs[0]));
    } else {
      assert vs == [vs[0]] + [vs[1]];
      assert IntValues(vs) == [IntBytes(vs[0])] + IntValues(vs[1..]);
      assert IntValues(vs[1..]) == [IntBytes(vs[1])];
      AcceptOnce(q1, vs[1]);
      StoreTwo(q, ACCEPT, IntBytes(vs[0]), IntBytes(vs[1]));
    }
  }

  lemma {:induction false} EveryNumberStored(p: Packet, n: nat)
    requires Good(p)
    ensures NumberStored(p, n)
  {
    hide NumberStored;
    if n !in p.options || n == TOKEN {
      SkipStored(p, n);
    } else {
      assert IsKnown(n);
      if n == IF_MATCH { IfMatchStored(p); }
      if n == URI_HOST { UriHostStored(p); }
      if n == ETAG { EtagStored(p); }
      if n == IF_NONE_MATCH { IfNoneMatchStored(p); }
      if n == OBSERVE { ObserveStored(p); }
      if n == URI_PORT { UriPortStored(p); }
      if n == CONTENT_TYPE { ContentTypeStored(p); }
      if n == MAX_AGE { MaxAgeStored(p); }
      if n == BLOCK2 { Block2Stored(p); }
      if n == BLOCK1 { Block1Stored(p); }
      if n == SIZE { SizeStored(p); }
      if n == LOCATION_PATH { LocationPathStored(p); }
      if n == URI_PATH { UriPathStored(p); }
      if n == URI_QUERY { UriQueryStored(p); }
      if n == ACCEPT { AcceptStored(p); }
      if n == LOCATION_QUERY { LocationQueryStored(p); }
    }
  }

  // ----- whole messages -----------------------------------------------------------------------

  /** No value is longer than the bytes it is part of. */
  lemma {:induction false} ValuesFit(p: Packet, n: nat, limit: nat)
    requires |OptionsBytes(p, n)| <= limit && n < OPTION_END
    ensures |OptionsBytes(p, n + 1)| <= limit
    ensures forall v :: v in OptionValues(p, n) ==> |v| <= limit
  {
    ValuesNotLonger(n, CurrentNumber(p, n), OptionValues(p, n));
  }

  lemma {:induction false} OptionsStep(p: Packet, n: nat, tail: seq<byte>)
    requires Good(p) && n < OPTION_END && |OptionsBytes(p, n)| <= MAX_EXTENDED
    ensures ParseOptions(Upto(p, n), CurrentNumber(p, n), OptionsBytes(p, n) + tail)
         == ParseOptions(Upto(p, n + 1), CurrentNumber(p, n + 1), OptionsBytes(p, n + 1) + tail)
  {
    hide ParseOptions, Upto, OptionValues, StoreOption, StoreAll, Advances, ValuesBytes, Good;
    EveryNumberStored(p, n);
    ValuesFit(p, n, MAX_EXTENDED);
    ValuesParse(Upto(p, n), n, CurrentNumber(p, n), OptionValues(p, n), OptionsBytes(p, n + 1) + tail);
    ConcatAssociative(ValuesBytes(n, CurrentNumber(p, n), OptionValues(p, n)), OptionsBytes(p, n + 1), tail);
  }

  /** The options are parsed whatever follows them. */
  lemma {:induction false} OptionsParse(p: Packet, n: nat, tail: seq<byte>)
    requires Good(p) && n <= OPTION_END && |OptionsBytes(p, n)| <= MAX_EXTENDED
    ensures ParseOptions(Upto(p, n), CurrentNumber(p, n), OptionsBytes(p, n) + tail)
         == ParseOptions(Upto(p, OPTION_END), CurrentNumber(p, OPTION_END), tail)
    decreases OPTION_END - n
  {
    hide ParseOptions, Upto, OptionValues, Good;
    if n == OPTION_END {
      assert OptionsBytes(p, n) + tail == tail;
    } else {
      OptionsStep(p, n, tail);
      ValuesFit(p, n, MAX_EXTENDED);
      OptionsParse(p, n + 1, tail);
    }
  }

  lemma {:induction false} PayloadParses(p: Packet, number: nat)
    requires Good(p)
    ensures ParseOptions(Upto(p, OPTION_END), number, PayloadBytes(p.payload)) == Parsed(Restored(p))
  {
    assert Upto(p, OPTION_END).options == p.options;
    assert Upto(p, OPTION_END).(payload := p.payload) == Restored(p);
    if p.payload != [] {
      assert PayloadBytes(p.payload)[1..] == p.payload;
    }
  }

  /** Header and token come back. */
  lemma {:induction false} HeaderParses(p: Packet, tail: seq<byte>)
    requires Good(p)
    ensures var data := HeaderBytes(p) + tail;
            && data[0] % 16 == |p.token| && data[0] / 64 == 1 && data[1] == p.code
            && ParseHeader(data, |p.token|) == Upto(p, 0) && data[HEADER_LEN + |p.token|..] == tail
  {
    var data := HeaderBytes(p) + tail;
    FirstByteOfMessage(p.msgType, |p.token|);
    MessageId(p.mid, data[2..4]);
    assert data[HEADER_LEN..HEADER_LEN + |p.token|] == p.token;
    assert Upto(p, 0).options == if p.token == [] then {} else {TOKEN};
  }

  lemma {:induction false} FirstByteOfMessage(t: nat, n: nat)
    requires t < 4 && n < 16
    ensures var b := 1 * 64 + t * 16 + n; b / 64 == 1 && b / 16 % 4 == t && b % 16 == n
  {
  }

  lemma {:induction false} MessageId(mid: uint16, s: seq<byte>)
    requires s == [mid / 256, mid % 256]
    ensures FromBigEndian(s) == mid
  {
    assert FromBigEndian([]) == 0;
    assert s[..1] == [mid / 256];
    assert [mid / 256][..0] == [];
  }

  lemma {:induction false} ConsistentParses(p: Packet)
    requires Good(p) && EmptyMessageOk(p) && |Message(p)| <= 0xFFFF
    ensures Parse(Message(p)) == Parsed(Restored(p))
  {
    assert |p.token| <= TOKEN_LEN;
    hide ParseOptions, Upto, ParseHeader, Good, HeaderBytes, OptionsBytes;
    var tail := OptionsBytes(p, 0) + PayloadBytes(p.payload);
    HeaderParses(p, tail);
    OptionsParse(p, 0, PayloadBytes(p.payload));
    PayloadParses(p, CurrentNumber(p, OPTION_END));
    if p.code == 0 {
      NoOptions(p, 0);
    }
  }

  lemma {:induction false} NoOptions(p: Packet, n: nat)
    requires p.options == {}
    ensures OptionsBytes(p, n) == []
    decreases OPTION_END - n
  {
    if n < OPTION_END {
      NoOptions(p, n + 1);
    }
  }

  // ----- everything the parser accepts is consistent ------------------------------------------

  lemma {:induction false} StoreKeepsStrings(p: Packet, n: nat, value: seq<byte>)
    requires StoreOption(p, n, value).Parsed? && StringsConsistent(p)
    ensures StringsConsistent(StoreOption(p, n, value).packet)
  {
    hide BlockOf, ParseInt, Segment;
  }

  lemma {:induction false} StoreKeepsHints(p: Packet, n: nat, value: seq<byte>)
    requires StoreOption(p, n, value).Parsed? && HintsConsistent(p)
    ensures HintsConsistent(StoreOption(p, n, value).packet)
  {
    hide BlockOf, ParseInt, Segment;
  }

  lemma {:induction false} StoreKeepsNumbers(p: Packet, n: nat, value: seq<byte>)
    requires StoreOption(p, n, value).Parsed? && NumbersConsistent(p)
    ensures NumbersConsistent(StoreOption(p, n, value).packet)
  {
    hide BlockOf, ParseInt, Segment;
  }

  lemma {:induction false} StoreKeepsPaths(p: Packet, n: nat, value: seq<byte>)
    requires StoreOption(p, n, value).Parsed? && PathsConsistent(p)
    ensures PathsConsistent(StoreOption(p, n, value).packet)
  {
    hide BlockOf, ParseInt, Segment;
  }

  lemma {:induction false} StoreKeepsQueries(p: Packet, n: nat, value: seq<byte>)
    requires StoreOption(p, n, value).Parsed? && QueriesConsistent(p)
    ensures QueriesConsistent(StoreOption(p, n, value).packet)
  {
    hide BlockOf, ParseInt, Segment;
  }

  lemma {:induction false} StoreKeepsBlocks(p: Packet, n: nat, value: seq<byte>)
    requires StoreOption(p, n, value).Parsed? && BlocksConsistent(p)
    ensures BlocksConsistent(StoreOption(p, n, value).packet)
  {
    hide BlockOf, ParseInt, Segment, ValidBlock;
    BlockOfIsValid(ParseInt(value));
  }

  lemma {:induction false} StoreKeepsConsistent(p: Packet, n: nat, value: seq<byte>)
    requires Consistent(p) && StoreOption(p, n, value).Parsed?
    ensures Consistent(StoreOption(p, n, value).packet)
  {
    hide StoreOption, StringsConsistent, HintsConsistent, NumbersConsistent, PathsConsistent, QueriesConsistent, BlocksConsistent;
    StoreKeepsStrings(p, n, value);
    StoreKeepsHints(p, n, value);
    StoreKeepsNumbers(p, n, value);
    StoreKeepsPaths(p, n, value);
    StoreKeepsQueries(p, n, value);
    StoreKeepsBlocks(p, n, value);
  }

  lemma {:induction false} ParseKeepsConsistent(p: Packet, number: nat, data: seq<byte>)
    requires Consistent(p) && ParseOptions(p, number, data).Parsed?
    ensures Consistent(ParseOptions(p, number, data).packet)
    decreases |data|
  {
    hide StoreOption, Consistent;
    if data != [] && data[0] != 0xFF {
      var f := ReadOptionHeader(data).value;
      var value := data[f.headerLen..f.headerLen + f.length];
      StoreKeepsConsistent(p, number + f.delta, value);
      ParseKeepsConsistent(StoreOption(p, number + f.delta, value).packet, number + f.delta, data[f.headerLen + f.length..]);
    } else {
      PayloadKeepsConsistent(p, data);
    }
  }

  lemma {:induction false} PayloadKeepsConsistent(p: Packet, payload: seq<byte>)
    requires Consistent(p)
    ensures forall s :: Consistent(p.(payload := s))
  {
  }

  lemma {:induction false} ParsedIsConsistent(data: seq<byte>)
    requires Parse(data).Parsed?
    ensures Consistent(Parse(data).packet)
  {
    hide StoreOption;
    var tokenLen := data[0] % 16;
    var p := ParseHeader(data, tokenLen);
    ParseKeepsConsistent(p, 0, data[HEADER_LEN + tokenLen..]);
  }

  /** Parsing what was serialized restores the packet for exactly the consistent packets whose query loses nothing: a
      list option that is set but empty, a block size that is no power of two, a stale field, a Proxy-Uri or an Empty
      message with content never comes back. */
  lemma {:induction false} RoundTrip(p: Packet)
    requires Representable(p) && |Message(p)| <= 0xFFFF
    ensures Parse(Message(p)) == Parsed(p) <==> Consistent(p) && EmptyMessageOk(p) && QueryKept(p.locationQuery)
  {
    hide Consistent, OptionsBytes, StoreOption, OptionValues;
    if Parse(Message(p)) == Parsed(p) {
      ParsedIsConsistent(Message(p));
      assert Message(p)[1] == p.code;
    }
    if Consistent(p) && EmptyMessageOk(p) {
      ConsistentParses(p);
      RestoredIsSame(p);
    }
  }

  lemma {:induction false} RestoredIsSame(p: Packet)
    requires Consistent(p)
    ensures Restored(p) == p <==> QueryKept(p.locationQuery)
  {
    if LOCATION_QUERY in p.options {
      QueryRoundTrip(p.locationQuery);
    } else {
      assert p.locationQuery == [] && OptionValues(p, LOCATION_QUERY) == [];
    }
  }
}
