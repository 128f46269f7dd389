/** The SenML-CBOR parser (data/senml_cbor.c:68-395, data/senml_common.c:101-209). */
module SenmlCborReader {
  import opened Bytes
  import opened Data
  import opened Uri
  import opened Cbor
  import opened SenmlRecords

  const UNDERSCORE: byte := 95
  const LINK_LABEL: seq<byte> := [118, 108, 111] // "vlo"

  /** What carries over from one record to the next. */
  datatype Base = Base(name: seq<byte>, value: Option<Value>)

  predicate IsBase(base: Base) {
    base.value.Some? ==> base.value.value.Integer? || base.value.value.Unsigned?
  }

  /** What one record has shown so far; an empty name is the same as none. */
  datatype Seen = Seen(base: Base, name: seq<byte>, value: Option<Value>,
                       bn: bool, bt: bool, bv: bool, bver: bool, time: bool)

  datatype Label = Known(n: int) | LinkValue | Unknown

  /** `prv_get_cbor_type_and_value`: skips one tag. */
  function ReadHeadUntagged(buffer: seq<byte>): (r: Option<Head>)
    ensures r.Some? ==> 1 <= r.value.size <= |buffer|
    ensures r.Some? && !r.value.itemType.TNegative? ==> 0 <= r.value.value
  {
    match ReadHead(buffer)
    case None => None
    case Some(h) =>
      if !h.itemType.TTag? then Some(h)
      else
        match ReadHead(buffer[h.size..])
        case None => None
        case Some(g) => Some(g.(size := h.size + g.size))
  }

  /** What a label stands for; a text label that ends in an underscore has to be understood. */
  function LabelOf(v: Value): Option<Label>
  {
    if v.Str? then
      if v.bytes == LINK_LABEL then Some(LinkValue)
      else if v.bytes == [] || v.bytes[|v.bytes| - 1] == UNDERSCORE then None
      else Some(Unknown)
    else
      match DecodeInt(v)
      case None => Some(Unknown)
      case Some(n) => if -6 <= n <= 8 then Some(Known(n)) else None
  }

  /** A C string ends at its first zero. */
  function CString(s: seq<byte>): (t: seq<byte>)
    ensures |t| <= |s|
  {
    if s == [] || s[0] == 0 then [] else [s[0]] + CString(s[1..])
  }

  /** The value of a numeric label, if it is of a numeric type. */
  function Numeric(v: Value): Option<Value>
  {
    if v.Integer? || v.Unsigned? then Some(v) else None
  }

  function SetValue(s: Seen, v: Option<Value>): Option<Seen>
  {
    if s.value.Some? || v.None? then None else Some(s.(value := v))
  }

  /** One label and its value: the switch of `prv_parseItem`. */
  function Apply(key: Label, v: Value, s: Seen): Option<Seen>
  {
    match key
    case Unknown => Some(s)
    case LinkValue =>
      (match if v.Str? then TextToLink(v.bytes) else None
       case None => None
       case Some(link) => SetValue(s, Some(ObjectLink(link.objectId, link.instanceId))))
    case Known(n) =>
      if n == -5 then
        if s.bv || Numeric(v).None? then None
        else Some(s.(bv := true, base := s.base.(value := if v == Integer(0) || v == Unsigned(0) then None else Some(v))))
      else if n == -3 then
        if s.bt || DecodeInt(v).None? then None else Some(s.(bt := true))
      else if n == -2 then
        if s.bn || !v.Str? || (|v.bytes| == 1 && v.bytes[0] != SLASH) || |v.bytes| > MAX_STRING_LEN then None
        else Some(s.(bn := true, base := s.base.(name := CString(v.bytes))))
      else if n == -1 then
        if s.bver || DecodeInt(v) != Some(10) then None else Some(s.(bver := true))
      else if n == 0 then
        if s.name != [] || !v.Str? then None else Some(s.(name := v.bytes))
      else if n == 2 then SetValue(s, Numeric(v))
      else if n == 3 then SetValue(s, if v.Str? then Some(v) else None)
      else if n == 4 then SetValue(s, match DecodeBool(v) case None => None case Some(b) => Some(Boolean(b)))
      else if n == 6 then
        if s.time || DecodeInt(v).None? then None else Some(s.(time := true))
      else if n == 8 then SetValue(s, if v.Opaque? then Some(v) else None)
      else Some(s)
  }

  /** One round of the loop of `prv_parseItem`: what was seen and where it ended. */
  function ReadPair(buffer: seq<byte>, at: nat, s: Seen): (r: Option<(Seen, nat)>)
    requires at <= |buffer|
    ensures r.Some? ==> at <= r.value.1 <= |buffer|
    ensures r.Some? && IsBase(s.base) ==> IsBase(r.value.0.base)
  {
    match GetSingular(buffer[at..])
    case None => None
    case Some(l) =>
      match LabelOf(l.value)
      case None => None
      case Some(key) =>
        match GetSingular(buffer[at + l.size..])
        case None => None
        case Some(v) =>
          match Apply(key, v.value, s)
          case None => None
          case Some(next) => Some((next, at + l.size + v.size))
  }

  /** `count` rounds. */
  function ReadPairs(buffer: seq<byte>, at: nat, count: nat, s: Seen): (r: Option<(Seen, nat)>)
    requires at <= |buffer|
    ensures r.Some? ==> at <= r.value.1 <= |buffer|
    ensures r.Some? && IsBase(s.base) ==> IsBase(r.value.0.base)
    decreases count
  {
    if count == 0 then Some((s, at))
    else
      match ReadPair(buffer, at, s)
      case None => None
      case Some((next, end)) => ReadPairs(buffer, end, count - 1, next)
  }

  /** Sums are taken in 64 bits. */
  function WrapSigned(n: int): int64
  {
    var u := n % 0x1_0000_0000_0000_0000;
    if u <= INT64_MAX then u else u - 0x1_0000_0000_0000_0000
  }

  function WrapUnsigned(n: int): uint64
  {
    n % 0x1_0000_0000_0000_0000
  }

  function NumberOf(v: Value): int
    requires v.Integer? || v.Unsigned?
  {
    if v.Integer? then v.i else v.u
  }

  /** A record's own value combined with the base value. */
  function Combine(value: Option<Value>, base: Option<Value>): Option<Option<Value>>
    requires base.Some? ==> base.value.Integer? || base.value.Unsigned?
  {
    if base.None? then Some(value)
    else
      match value
      case None => Some(base)
      case Some(Integer(i)) => Some(Some(Integer(WrapSigned(i + NumberOf(base.value)))))
      case Some(Unsigned(u)) => Some(Some(Unsigned(WrapUnsigned(u + NumberOf(base.value)))))
      case _ => None
  }

  /** The path of a record: the base name followed by its name. */
  function PathOf(base: seq<byte>, name: seq<byte>): Option<Path>
  {
    if base == [] && name == [] then Some([])
    else if |base| > MAX_STRING_LEN || |base| + |name| > MAX_STRING_LEN then None
    else FromText(base + name)
  }

  datatype Parsed = Parsed(record: Record, base: Base, size: nat)

  lemma {:induction false} FromTextIsPath(s: seq<byte>)
    ensures FromText(s).Some? ==> IsPath(FromText(s).value)
  {
    var head := SkipSpaces(s, 0);
    if head < |s| {
      IdsArePath(s, head + 1, []);
    }
  }

  lemma {:induction false} IdsArePath(s: seq<byte>, head: nat, ids: Path)
    requires head <= |s| && IsPath(ids)
    ensures IdsFrom(s, head, ids).Some? ==> IsPath(IdsFrom(s, head, ids).value)
    decreases |s| - head
  {
    if head < |s| && |ids| < 4 && ParseNumber(s, head).Some? && ParseNumber(s, head).value.value < MAX_ID {
      var n := ParseNumber(s, head).value;
      IdsArePath(s, if |ids| < 3 && n.head < |s| && s[n.head] == SLASH then n.head + 1 else n.head, ids + [n.value]);
    }
  }

  function Fresh(base: Base): Seen
  {
    Seen(base, [], None, false, false, false, false, false)
  }

  /** `prv_parseItem` */
  function ParseItem(buffer: seq<byte>, base: Base): (r: Option<Parsed>)
    requires IsBase(base)
    ensures r.Some? ==> IsBase(r.value.base) && 1 <= r.value.size <= |buffer| && IsPath(r.value.record.path)
  {
    match ReadHeadUntagged(buffer)
    case None => None
    case Some(h) =>
      if !h.itemType.TMap? || h.value > INT_MAX || h.value == 0 || h.value > |buffer| / 2 then None
      else
        match ReadPairs(buffer, h.size, h.value, Fresh(base))
        case None => None
        case Some((s, end)) =>
          match (PathOf(s.base.name, s.name), Combine(s.value, s.base.value))
          case (Some(path), Some(value)) =>
            FromTextIsPath(s.base.name + s.name);
            Some(Parsed(Record(path, value), s.base, end))
          case _ => None
  }

  /** The records of the document, and that they end exactly where the buffer does. */
  function ParseRecords(buffer: seq<byte>, at: nat, count: nat, base: Base): (r: Option<seq<Record>>)
    requires at <= |buffer| && IsBase(base)
    ensures r.Some? ==> IsRecords(r.value)
    decreases count
  {
    if count == 0 then (if at == |buffer| then Some([]) else None)
    else
      match ParseItem(buffer[at..], base)
      case None => None
      case Some(p) =>
        match ParseRecords(buffer, at + p.size, count - 1, p.base)
        case None => None
        case Some(more) => Some([p.record] + more)
  }

  // ----- the part the request asked for -------------------------------------------------------

  function ChildIndex(nodes: seq<Node>, id: uint16): (i: nat)
    ensures i <= |nodes|
    ensures i < |nodes| ==> nodes[i].id == id
  {
    if nodes == [] || nodes[0].id == id then 0 else 1 + ChildIndex(nodes[1..], id)
  }

  /** One node of a list, by identifier. */
  function Only(nodes: seq<Node>, id: uint16): Option<seq<Node>>
  {
    var i := ChildIndex(nodes, id);
    if i < |nodes| then Some([nodes[i]]) else None
  }

  /** `senml_convert_records` below the instance: the resource, or the resource instance. */
  function SelectResource(resources: seq<Node>, rest: Path): Option<seq<Node>>
    requires 1 <= |rest| <= 2
  {
    var i := ChildIndex(resources, rest[0]);
    if i == |resources| then None
    else if |rest| == 1 then Some([resources[i]])
    else if resources[i].Container? && resources[i].kind == KMultiple then Only(resources[i].children, rest[1])
    else Only([resources[i]], rest[1])
  }

  /** The part of the parsed tree that answers the request: the first root has to be the object asked for. */
  function Select(uri: Option<Path>, parsed: seq<Node>): Option<seq<Node>>
    requires uri.Some? ==> |uri.value| <= 4
  {
    if parsed == [] then None
    else if uri.None? || uri.value == [] then Some(parsed)
    else
      var path := uri.value;
      if !parsed[0].Container? || parsed[0].kind != KObject || parsed[0].id != path[0] then None
      else if |path| == 1 then (if parsed[0].children == [] then None else Some(parsed[0].children))
      else
        var instances := parsed[0].children;
        var i := ChildIndex(instances, path[1]);
        if i == |instances| || !instances[i].Container? || instances[i].children == [] then None
        else if |path| == 2 then Some(instances[i].children)
        else SelectResource(instances[i].children, path[2..])
  }

  /** `senml_cbor_parse` */
  function Parse(uri: Option<Path>, buffer: seq<byte>): Option<seq<Node>>
    requires uri.Some? ==> |uri.value| <= 4
  {
    match ReadHeadUntagged(buffer)
    case None => None
    case Some(h) =>
      if !h.itemType.TArray? || h.value > INT_MAX || h.value == 0 || h.value > |buffer| / 3 then None
      else
        match ParseRecords(buffer, h.size, h.value, Base([], None))
        case None => None
        case Some(records) =>
          match AddAll([], records)
          case None => None
          case Some(parsed) => Select(uri, parsed)
  }
}
