/** Serializing and parsing whole messages (coap/er-coap-13/er-coap-13.c:162-245, 514-985). */
module CoapMessage {
  import opened Bytes
  import opened Coap

  // ----- what the serializer writes -----------------------------------------------------------

  /** One past the largest option number the serializer knows. */
  const OPTION_END: nat := 36

  predicate IsKnown(n: nat) {
    n == IF_MATCH || n == URI_HOST || n == ETAG || n == IF_NONE_MATCH || n == OBSERVE || n == URI_PORT
    || n == LOCATION_PATH || n == URI_PATH || n == CONTENT_TYPE || n == MAX_AGE || n == URI_QUERY || n == ACCEPT
    || n == LOCATION_QUERY || n == BLOCK2 || n == BLOCK1 || n == SIZE || n == PROXY_URI
  }

  function IntValues(vs: seq<uint16>): (r: seq<seq<byte>>)
    ensures |r| == |vs|
  {
    if vs == [] then [] else [IntBytes(vs[0])] + IntValues(vs[1..])
  }

  const AMPERSAND: byte := 38

  /** The parts of a query: the loop of `coap_serialize_array_option` at position `j` of the part that begins at
      `start`. Behind a separator it goes on with the second character of the next part, so a separator there belongs to
      the part, and an empty part at the very end is not written. */
  function SplitFrom(s: seq<byte>, start: nat, j: nat): seq<seq<byte>>
    requires start <= j
    decreases |s| + 1 - j
  {
    if j > |s| then []
    else if j == |s| || s[j] == AMPERSAND then [s[start..j]] + SplitFrom(s, j + 1, j + 2)
    else SplitFrom(s, start, j + 1)
  }

  /** How many separators a query ends in. */
  function TrailingSeparators(s: seq<byte>): (n: nat)
    ensures n <= |s|
    ensures forall i :: |s| - n <= i < |s| ==> s[i] == AMPERSAND
    ensures n < |s| ==> s[|s| - n - 1] != AMPERSAND
  {
    if s == [] || s[|s| - 1] != AMPERSAND then 0 else 1 + TrailingSeparators(s[..|s| - 1])
  }

  /** Does the loop, from position `j` on, meet a separator in the last place? */
  predicate EndsInSeparator(s: seq<byte>, j: nat)
    decreases |s| - j
  {
    j < |s| && if s[j] == AMPERSAND then j == |s| - 1 || EndsInSeparator(s, j + 2) else EndsInSeparator(s, j + 1)
  }

  /** The loop meets the first of the separators at the end, and every other one behind it. */
  lemma {:induction false} EndsInOdd(s: seq<byte>, j: nat)
    requires j <= |s|
    ensures var n := TrailingSeparators(s);
            EndsInSeparator(s, j) <==> (if j <= |s| - n then n else |s| - j) % 2 == 1
    decreases |s| - j
  {
    if j < |s| {
      if s[j] != AMPERSAND {
        EndsInOdd(s, j + 1);
      } else if j + 2 <= |s| {
        EndsInOdd(s, j + 2);
      }
    }
  }

  /** The option values written under number `n`, in order. */
  function OptionValues(p: Packet, n: nat): seq<seq<byte>>
  {
    if n !in p.options then []
    else if n == IF_MATCH then [p.ifMatch]
    else if n == URI_HOST then [p.uriHost]
    else if n == ETAG then [p.etag]
    else if n == IF_NONE_MATCH then [IntBytes(0)]
    else if n == OBSERVE then [IntBytes(p.observe)]
    else if n == URI_PORT then [IntBytes(p.uriPort)]
    else if n == LOCATION_PATH then p.locationPath
    else if n == URI_PATH then p.uriPath
    else if n == CONTENT_TYPE then [IntBytes(p.contentType)]
    else if n == MAX_AGE then [IntBytes(p.maxAge)]
    else if n == URI_QUERY then p.uriQuery
    else if n == ACCEPT then IntValues(p.accept)
    else if n == LOCATION_QUERY then SplitFrom(p.locationQuery, 0, 0)
    else if n == BLOCK2 then [IntBytes(BlockValue(p.block2))]
    else if n == BLOCK1 then [IntBytes(BlockValue(p.block1))]
    else if n == SIZE then [IntBytes(p.size)]
    else if n == PROXY_URI then [p.proxyUri]
    else []
  }

  /** Does writing option `n` move `current_number`? A multi-option that is set moves it even when
      its list is empty; the Accept loop moves it only when it writes something. */
  predicate Advances(p: Packet, n: nat) {
    n in p.options && IsKnown(n) && (n == ACCEPT ==> p.accept != [])
  }

  /** The bytes of the values of one option number: only the first carries a delta. */
  function ValuesBytes(n: nat, current: nat, values: seq<seq<byte>>): seq<byte>
    requires current <= n
    decreases |values|
  {
    if values == [] then []
    else OptionHeader(n - current, |values[0]|) + values[0] + ValuesBytes(n, n, values[1..])
  }

  /** `current_number` once every option below `n` has been handled. */
  function CurrentNumber(p: Packet, n: nat): (current: nat)
    ensures n > 0 ==> current < n
    ensures current <= n
  {
    if n == 0 then 0 else if Advances(p, n - 1) then n - 1 else CurrentNumber(p, n - 1)
  }

  /** The bytes of option number `n`. */
  function NumberBytes(p: Packet, n: nat): seq<byte>
  {
    ValuesBytes(n, CurrentNumber(p, n), OptionValues(p, n))
  }

  /** The option bytes from number `n` on. */
  function OptionsBytes(p: Packet, n: nat): seq<byte>
    decreases OPTION_END - n
  {
    if n >= OPTION_END then []
    else NumberBytes(p, n) + OptionsBytes(p, n + 1)
  }

  function HeaderBytes(p: Packet): (s: seq<byte>)
    requires p.msgType < 4 && |p.token| <= TOKEN_LEN
    ensures |s| == HEADER_LEN + |p.token|
  {
    [1 * 64 + p.msgType * 16 + |p.token|, p.code, p.mid / 256, p.mid % 256] + p.token
  }

  function PayloadBytes(payload: seq<byte>): seq<byte>
  {
    if payload == [] then [] else [0xFF] + payload
  }

  /** The message `coap_serialize_message` produces. */
  function Message(p: Packet): seq<byte>
    requires p.msgType < 4 && |p.token| <= TOKEN_LEN
  {
    HeaderBytes(p) + (OptionsBytes(p, 0) + PayloadBytes(p.payload))
  }

  // ----- what the parser reads ----------------------------------------------------------------

  datatype ParseResult = Parsed(packet: Packet) | Rejected(status: uint8)

  /** `SET_OPTION` */
  function SetOption(p: Packet, n: nat): Packet
  {
    if n < OPTION_BITS then p.(options := p.options + {n}) else p
  }

  /** One round of the option switch. Segment lengths are kept in eight bits. */
  function StoreOption(p: Packet, n: nat, value: seq<byte>): ParseResult
  {
    var q := SetOption(p, n);
    if n == CONTENT_TYPE then
      if |value| > 2 then Rejected(BAD_REQUEST) else Parsed(q.(contentType := ParseInt(value) % 0x1_0000))
    else if n == MAX_AGE then Parsed(q.(maxAge := ParseInt(value)))
    else if n == ETAG then Parsed(q.(etag := value[..Min(ETAG_LEN, |value|)]))
    else if n == ACCEPT then
      Parsed(if |p.accept| < MAX_ACCEPT_NUM then q.(accept := p.accept + [ParseInt(value) % 0x1_0000]) else q)
    else if n == IF_MATCH then Parsed(q.(ifMatch := value[..Min(ETAG_LEN, |value|)]))
    else if n == IF_NONE_MATCH then Parsed(q.(ifNoneMatch := true))
    else if n == URI_HOST then Parsed(q.(uriHost := value))
    else if n == URI_PORT then Parsed(q.(uriPort := ParseInt(value) % 0x1_0000))
    else if n == URI_PATH then Parsed(q.(uriPath := p.uriPath + [Segment(value)]))
    else if n == URI_QUERY then Parsed(q.(uriQuery := p.uriQuery + [Segment(value)]))
    else if n == LOCATION_PATH then Parsed(q.(locationPath := p.locationPath + [Segment(value)]))
    else if n == LOCATION_QUERY then
      Parsed(q.(locationQuery := Merged(p.locationQuery, value)))
    else if n == PROXY_URI then Rejected(PROXYING_NOT_SUPPORTED)
    else if n == OBSERVE then Parsed(q.(observe := ParseInt(value)))
    else if n == BLOCK2 then Parsed(q.(block2 := BlockOf(ParseInt(value))))
    else if n == BLOCK1 then Parsed(q.(block1 := BlockOf(ParseInt(value))))
    else if n == SIZE then Parsed(q.(size := ParseInt(value)))
    else if n % 2 == 1 then Rejected(BAD_OPTION)
    else Parsed(q)
  }

  /** `coap_merge_multi_option` */
  function Merged(query: seq<byte>, part: seq<byte>): seq<byte>
  {
    if query == [] then part else query + [AMPERSAND] + part
  }

  /** `coap_add_multi_option`: the length is cast to eight bits. */
  function Segment(value: seq<byte>): (s: seq<byte>)
    ensures |s| < 0x100
  {
    value[..|value| % 0x100]
  }

  /** The option loop, at option number `number` with `data` still to read. */
  function ParseOptions(p: Packet, number: nat, data: seq<byte>): ParseResult
    decreases |data|
  {
    if data == [] then Parsed(p)
    else if data[0] == 0xFF then
      if |data| == 1 then Rejected(BAD_REQUEST) else Parsed(p.(payload := data[1..]))
    else
      match ReadOptionHeader(data)
      case None => Rejected(BAD_REQUEST)
      case Some(f) =>
        match StoreOption(p, number + f.delta, data[f.headerLen..f.headerLen + f.length])
        case Rejected(status) => Rejected(status)
        case Parsed(q) => ParseOptions(q, number + f.delta, data[f.headerLen + f.length..])
  }

  /** The packet once header and token are read. */
  function ParseHeader(data: seq<byte>, tokenLen: nat): Packet
    requires HEADER_LEN + tokenLen <= |data|
  {
    var p := InitMessage(data[0] / 16 % 4, data[1], FromBigEndian(data[2..4]) % 0x1_0000);
    var q := p.(version := data[0] / 64, token := data[HEADER_LEN..HEADER_LEN + tokenLen]);
    if tokenLen != 0 then SetOption(q, TOKEN) else q
  }

  /** `coap_parse_message` */
  function Parse(data: seq<byte>): ParseResult
  {
    if |data| < HEADER_LEN then Rejected(BAD_REQUEST)
    else
      var tokenLen := data[0] % 16;
      if data[0] / 64 != 1 then Rejected(BAD_REQUEST)
      else if data[1] == 0 && |data| > HEADER_LEN then Rejected(BAD_REQUEST)
      else if tokenLen > TOKEN_LEN then Rejected(BAD_REQUEST)
      else if HEADER_LEN + tokenLen > |data| then Rejected(BAD_REQUEST)
      else ParseOptions(ParseHeader(data, tokenLen), 0, data[HEADER_LEN + tokenLen..])
  }

  // ----- packets the format can carry ---------------------------------------------------------

  /** Field widths of `coap_packet_t`, and only options the library knows. */
  predicate Representable(p: Packet) {
    && p.version == 1 && p.msgType < 4
    && |p.token| <= TOKEN_LEN && |p.ifMatch| <= ETAG_LEN && |p.etag| <= ETAG_LEN && |p.accept| <= MAX_ACCEPT_NUM
    && (forall s :: s in p.locationPath ==> |s| < 0x100)
    && (forall s :: s in p.uriPath ==> |s| < 0x100)
    && (forall s :: s in p.uriQuery ==> |s| < 0x100)
    && (forall n :: n in p.options ==> IsKnown(n) || n == TOKEN)
  }

  /** The fields agree with the bitmap: what is not set is empty or zero, a list that is set is not
      empty, block descriptions are expressible, and there is no Proxy-Uri, which the parser refuses. */
  predicate Consistent(p: Packet) {
    StringsConsistent(p) && HintsConsistent(p) && NumbersConsistent(p) && PathsConsistent(p) && QueriesConsistent(p) && BlocksConsistent(p)
  }

  predicate StringsConsistent(p: Packet) {
    && (TOKEN in p.options <==> p.token != [])
    && (IF_MATCH !in p.options ==> p.ifMatch == [])
    && (URI_HOST !in p.options ==> p.uriHost == [])
    && (ETAG !in p.options ==> p.etag == [])
    && (IF_NONE_MATCH in p.options <==> p.ifNoneMatch)
  }

  predicate HintsConsistent(p: Packet) {
    && (OBSERVE !in p.options ==> p.observe == 0)
    && (URI_PORT !in p.options ==> p.uriPort == 0)
    && PROXY_URI !in p.options && p.proxyUri == []
  }

  predicate NumbersConsistent(p: Packet) {
    && (CONTENT_TYPE !in p.options ==> p.contentType == 0)
    && (MAX_AGE !in p.options ==> p.maxAge == 0)
    && (SIZE !in p.options ==> p.size == 0)
  }

  predicate PathsConsistent(p: Packet) {
    && (LOCATION_PATH in p.options <==> p.locationPath != [])
    && (URI_PATH in p.options <==> p.uriPath != [])
  }

  predicate QueriesConsistent(p: Packet) {
    && (URI_QUERY in p.options <==> p.uriQuery != [])
    && (ACCEPT in p.options <==> p.accept != [])
    && (LOCATION_QUERY !in p.options ==> p.locationQuery == [])
  }

  predicate BlocksConsistent(p: Packet) {
    && (if BLOCK2 in p.options then ValidBlock(p.block2) else p.block2 == NoBlock)
    && (if BLOCK1 in p.options then ValidBlock(p.block1) else p.block1 == NoBlock)
  }

  /** A query that is cut into parts and merged again loses a separator at its beginning, and the last of an odd number
      of separators at its end. */
  predicate QueryKept(s: seq<byte>) {
    s == [] || (s[0] != AMPERSAND && TrailingSeparators(s) % 2 == 0)
  }

  /** An Empty message is nothing but its four header bytes. */
  predicate EmptyMessageOk(p: Packet) {
    p.code == 0 ==> p.token == [] && p.options == {} && p.payload == []
  }
}
