/** What the SenML-CBOR parser makes of the serializer's documents. */
module SenmlCborRoundTrip {
  import opened Bytes
  import opened Data
  import opened Uri
  import opened Cbor
  import opened SenmlRecords
  import opened W = SenmlCborWriter
  import opened R = SenmlCborReader
  import Decimal

  // ----- labels and values --------------------------------------------------------------------

  /** A value as the parser returns it. */
  function NormalValue(v: Value): Value
  {
    match v
    case Integer(i) => if i >= 0 then Unsigned(i) else v
    case CoreLink(s) => Str(s)
    case _ => v
  }

  function NormalOption(v: Option<Value>): Option<Value>
  {
    match v case None => None case Some(x) => Some(NormalValue(x))
  }

  function ApplyPair(p: Pair, s: Seen): Option<Seen>
  {
    match LabelOf(Received(p.key))
    case None => None
    case Some(key) => Apply(key, Received(p.value), s)
  }

  function ApplyPairs(ps: seq<Pair>, s: Seen): Option<Seen>
  {
    if ps == [] then Some(s)
    else
      match ApplyPair(ps[0], s)
      case None => None
      case Some(next) => ApplyPairs(ps[1..], next)
  }

  lemma {:induction false} SingularAt(buffer: seq<byte>, at: nat, v: Value)
    requires Sizable(v) && Holds(buffer, at, SingularBytes(v))
    ensures at + |SingularBytes(v)| <= |buffer|
    ensures GetSingular(buffer[at..]) == Some(Singular(Received(v), |SingularBytes(v)|))
  {
    hide Holds, SingularBytes, Received, GetSingular;
    HoldsRest(buffer, at, SingularBytes(v));
    SingularRoundTrip(v, buffer[at + |SingularBytes(v)|..]);
  }

  lemma {:induction false} PairRoundTrip(buffer: seq<byte>, at: nat, p: Pair, s: Seen)
    requires Sizable(p.key) && Sizable(p.value) && Holds(buffer, at, PairBytes(p))
    ensures at <= |buffer|
    ensures ReadPair(buffer, at, s) == match ApplyPair(p, s) case None => None case Some(next) => Some((next, at + |PairBytes(p)|))
  {
    hide Holds, SingularBytes, GetSingular, Apply, LabelOf, Received, Sizable;
    HoldsParts(buffer, at, SingularBytes(p.key), SingularBytes(p.value));
    SingularAt(buffer, at, p.key);
    SingularAt(buffer, at + |SingularBytes(p.key)|, p.value);
  }

  lemma {:induction false} PairsRoundTrip(buffer: seq<byte>, at: nat, ps: seq<Pair>, s: Seen)
    requires SizablePairs(ps) && Holds(buffer, at, PairsBytes(ps))
    ensures at <= |buffer|
    ensures var (r, t) := (ReadPairs(buffer, at, |ps|, s), ApplyPairs(ps, s));
            if t.None? then r.None? else r.Some? && r.value.0 == t.value && r.value.1 == at + |PairsBytes(ps)|
    decreases ps
  {
    hide ReadPair, ApplyPair, PairBytes;
    if ps != [] {
      HoldsParts(buffer, at, PairBytes(ps[0]), PairsBytes(ps[1..]));
      PairRoundTrip(buffer, at, ps[0], s);
      if ApplyPair(ps[0], s).Some? {
        PairsRoundTrip(buffer, at + |PairBytes(ps[0])|, ps[1..], ApplyPair(ps[0], s).value);
      }
    }
  }

  lemma {:induction false} PairsLength(ps: seq<Pair>)
    requires SizablePairs(ps)
    ensures |PairsBytes(ps)| >= 2 * |ps|
  {
    if ps != [] {
      PairsLength(ps[1..]);
    }
  }

  // ----- one record ---------------------------------------------------------------------------

  /** A base name that can be stored as it is. */
  predicate PlainBase(s: seq<byte>) {
    |s| <= MAX_STRING_LEN && (|s| == 1 ==> s[0] == SLASH) && 0 !in s
  }

  lemma {:induction false} PlainCString(s: seq<byte>)
    requires 0 !in s
    ensures CString(s) == s
  {
    if s != [] {
      assert s[0] in s;
      PlainCString(s[1..]);
    }
  }

  lemma {:induction false} ValuePair(v: Value, s: Seen)
    requires s.value.None?
    ensures ApplyPair(Pair(ValueKey(v), v), s) == Some(s.(value := Some(NormalValue(v))))
  {
    if v.ObjectLink? {
      LinkRoundTrip(v.objectId, v.instanceId);
    }
  }

  lemma {:induction false} BasePair(base: seq<byte>, s: Seen)
    requires PlainBase(base) && !s.bn
    ensures ApplyPair(Pair(Integer(BASE_NAME_LABEL), Str(base)), s) == Some(s.(bn := true, base := s.base.(name := base)))
  {
    PlainCString(base);
  }

  lemma {:induction false} NamePair(name: seq<byte>, s: Seen)
    requires s.name == []
    ensures ApplyPair(Pair(Unsigned(NAME_LABEL), Str(name)), s) == Some(s.(name := name))
  {
  }

  /** The base name after a record. */
  function NewBase(item: Item, old_: seq<byte>): seq<byte>
  {
    if item.base != [] then item.base else old_
  }

  /** What the parser has seen once all labels of a record were read. */
  lemma {:induction false} ItemSeen(item: Item, base: Base)
    requires PlainBase(item.base)
    ensures var r := ApplyPairs(Pairs(item), Fresh(base));
            r.Some? && r.value.base == Base(NewBase(item, base.name), base.value)
            && r.value.name == item.name && r.value.value == NormalOption(item.value)
  {
    var a := if item.base != [] then [Pair(Integer(BASE_NAME_LABEL), Str(item.base))] else [];
    var b := if item.name != [] then [Pair(Unsigned(NAME_LABEL), Str(item.name))] else [];
    var c := if item.value.Some? then [Pair(ValueKey(item.value.value), item.value.value)] else [];
    var s0 := Fresh(base);
    var s1 := if item.base != [] then s0.(bn := true, base := s0.base.(name := item.base)) else s0;
    var s2 := s1.(name := item.name);
    var s3 := s2.(value := NormalOption(item.value));
    BasePair(item.base, s0);
    NamePair(item.name, s1);
    if item.value.Some? { ValuePair(item.value.value, s2); }
    hide ApplyPair, PlainBase;
    assert ApplyPairs(a, s0) == Some(s1);
    assert ApplyPairs(b, s1) == Some(s2);
    assert ApplyPairs(c, s2) == Some(s3);
    ApplyPairsConcat(a, b, s0);
    ApplyPairsConcat(a + b, c, s0);
  }

  lemma {:induction false} ApplyPairsConcat(a: seq<Pair>, b: seq<Pair>, s: Seen)
    ensures ApplyPairs(a + b, s) == match ApplyPairs(a, s) case None => None case Some(t) => ApplyPairs(b, t)
  {
    if a == [] {
      assert a + b == b;
    } else {
      assert (a + b)[1..] == a[1..] + b;
      if ApplyPair(a[0], s).Some? {
        ApplyPairsConcat(a[1..], b, ApplyPair(a[0], s).value);
      }
    }
  }

  lemma {:induction false} SizablePairsOf(item: Item)
    requires SizableItem(item)
    ensures SizablePairs(Pairs(item))
  {
  }

  /** The head of a record, and where its labels begin. */
  lemma {:induction false} ItemHead(buffer: seq<byte>, item: Item)
    requires SizableItem(item) && SizablePairs(Pairs(item)) && Pairs(item) != [] && Holds(buffer, 0, ItemBytes(item))
    ensures |ItemBytes(item)| == 1 + |PairsBytes(Pairs(item))| && |Pairs(item)| <= |buffer| / 2
    ensures ReadHeadUntagged(buffer) == Some(Head(TMap, |Pairs(item)|, 1))
    ensures Holds(buffer, 1, PairsBytes(Pairs(item)))
  {
    var ps := Pairs(item);
    var head := HeadBytes(MAP, |ps|);
    assert |head| == 1;
    HoldsParts(buffer, 0, head, PairsBytes(ps));
    HoldsRest(buffer, 0, head);
    PairsLength(ps);
    hide HeadBytes, PairsBytes, ReadHead, Pairs, SizablePairs, SizableItem;
    HeadRoundTrip(MAP, |ps|, buffer[1..]);
    assert buffer[0..] == buffer;
  }

  lemma {:induction false} ItemFromSeen(buffer: seq<byte>, n: nat, base: Base, s: Seen, end: nat, path: Path)
    requires ReadHeadUntagged(buffer) == Some(Head(TMap, n, 1)) && 0 < n <= 3 && n <= |buffer| / 2
    requires base.value.None? && s.base.value.None?
    requires 1 <= |buffer|
    requires var r := ReadPairs(buffer, 1, n, Fresh(base)); r.Some? && r.value.0 == s && r.value.1 == end
    requires PathOf(s.base.name, s.name) == Some(path)
    ensures IsPath(path) && ParseItem(buffer, base) == Some(Parsed(Record(path, s.value), s.base, end))
  {
    hide ReadHeadUntagged, ReadPairs, PathOf, IsPath;
    PathOfIsPath(s.base.name, s.name);
  }

  /** Reading one record of a document. */
  lemma {:induction false} ItemRoundTrip(buffer: seq<byte>, item: Item, base: seq<byte>, path: Path)
    requires SizableItem(item) && PlainBase(item.base) && Pairs(item) != [] && Holds(buffer, 0, ItemBytes(item))
    requires PathOf(NewBase(item, base), item.name) == Some(path)
    ensures IsPath(path)
    ensures ParseItem(buffer, Base(base, None))
         == Some(Parsed(Record(path, NormalOption(item.value)), Base(NewBase(item, base), None), |ItemBytes(item)|))
  {
    SizablePairsOf(item);
    hide Holds, PairsBytes, ReadHeadUntagged, Pairs, ApplyPairs, ReadPairs, PathOf, SizablePairs, SizableItem, PlainBase, ItemBytes;
    hide ParseItem, Fresh, IsPath, NormalOption, NewBase;
    var start := Base(base, None);
    ItemHead(buffer, item);
    PairsRoundTrip(buffer, 1, Pairs(item), Fresh(start));
    ItemSeen(item, start);
    ItemFromSeen(buffer, |Pairs(item)|, start, ApplyPairs(Pairs(item), Fresh(start)).value, |ItemBytes(item)|, path);
  }

  lemma {:induction false} PathOfIsPath(base: seq<byte>, name: seq<byte>)
    ensures PathOf(base, name).Some? ==> IsPath(PathOf(base, name).value)
  {
    FromTextIsPath(base + name);
  }

  // ----- all records --------------------------------------------------------------------------

  /** The base name after several records. */
  function LastBase(items: seq<Item>, base: seq<byte>): seq<byte>
  {
    if items == [] then base else LastBase(items[1..], NewBase(items[0], base))
  }

  predicate ReadsItem(item: Item, base: seq<byte>, record: Record) {
    && PlainBase(item.base) && Pairs(item) != []
    && PathOf(NewBase(item, base), item.name) == Some(record.path) && record.value == NormalOption(item.value)
  }

  /** Do these items stand for these records when the base name is `base`? */
  predicate Reads(items: seq<Item>, base: seq<byte>, records: seq<Record>) {
    && |items| == |records|
    && (items != [] ==> ReadsItem(items[0], base, records[0]) && Reads(items[1..], NewBase(items[0], base), records[1..]))
  }

  lemma {:induction false} ReadsParse(buffer: seq<byte>, at: nat, items: seq<Item>, base: seq<byte>, records: seq<Record>)
    requires SizableItems(items) && Reads(items, base, records)
    requires Holds(buffer, at, ItemsBytes(items)) && at + |ItemsBytes(items)| == |buffer|
    ensures ParseRecords(buffer, at, |items|, Base(base, None)) == Some(records)
    decreases items
  {
    hide ItemBytes, SizableItem, ReadsItem, ParseItem, NewBase;
    if items != [] {
      var (item, more) := (items[0], items[1..]);
      HoldsParts(buffer, at, ItemBytes(item), ItemsBytes(more));
      HoldsWithin(buffer, at, 0, ItemBytes(item));
      ReadsItemParse(buffer[at..], item, base, records[0]);
      ReadsParse(buffer, at + |ItemBytes(item)|, more, NewBase(item, base), records[1..]);
      assert records == [records[0]] + records[1..];
    }
  }

  lemma {:induction false} ReadsItemParse(buffer: seq<byte>, item: Item, base: seq<byte>, record: Record)
    requires SizableItem(item) && ReadsItem(item, base, record) && Holds(buffer, 0, ItemBytes(item))
    ensures IsPath(record.path)
    ensures ParseItem(buffer, Base(base, None)) == Some(Parsed(record, Base(NewBase(item, base), None), |ItemBytes(item)|))
  {
    ItemRoundTrip(buffer, item, base, record.path);
    hide ParseItem, ItemBytes;
  }

  lemma {:induction false} ReadsConcat(a: seq<Item>, b: seq<Item>, base: seq<byte>, ra: seq<Record>, rb: seq<Record>)
    requires Reads(a, base, ra) && Reads(b, LastBase(a, base), rb)
    ensures Reads(a + b, base, ra + rb) && LastBase(a + b, base) == LastBase(b, LastBase(a, base))
    decreases a
  {
    hide ReadsItem, NewBase;
    if a == [] {
      assert a + b == b && ra + rb == rb;
    } else {
      ReadsConcat(a[1..], b, NewBase(a[0], base), ra[1..], rb);
      assert (a + b)[1..] == a[1..] + b && (ra + rb)[1..] == ra[1..] + rb;
    }
  }

  // ----- the records of a tree ----------------------------------------------------------------

  /** The records of a tree below `prefix`, depth first. */
  function TreeRecords(nodes: seq<Node>, prefix: Path): seq<Record>
    decreases nodes
  {
    if nodes == [] then [] else NodeRecords(nodes[0], prefix) + TreeRecords(nodes[1..], prefix)
  }

  function NodeRecords(n: Node, prefix: Path): seq<Record>
    decreases n
  {
    if IsRecord(n) then [Record(prefix + [n.id], NormalOption(ValueOf(n)))] else TreeRecords(n.children, prefix + [n.id])
  }

  /** A tree whose siblings have distinct valid identifiers, with objects, instances and resources at their levels. */
  predicate Tidy(nodes: seq<Node>, level: nat) {
    DistinctIds(nodes) && forall n :: n in nodes ==> TidyNode(n, level)
  }

  predicate TidyNode(n: Node, level: nat) {
    n.id < MAX_ID && level <= 3 &&
    match n
    case Container(_, kind, children) => level < 3 && kind == LevelKind(level) && Tidy(children, level + 1)
    case Resource(_, v) => level >= 2 && Sizable(v)
    case Undefined(_) => level >= 2
  }

  /** The base name that is in force for a record. */
  function InForce(base: seq<byte>, earlier: seq<byte>): seq<byte>
  {
    if base != [] then base else earlier
  }

  lemma {:induction false} NameReads(n: Node, parent: seq<byte>, base: seq<byte>, earlier: seq<byte>, prefix: Path)
    requires IsPath(prefix + [n.id]) && PlainBase(base)
    requires InForce(base, earlier) + parent == Text(prefix) + [SLASH]
    ensures ReadsItem(Item(base, parent + Decimal.Digits(n.id), ValueOf(n)), earlier, Record(prefix + [n.id], NormalOption(ValueOf(n))))
  {
    var (b, d, p) := (InForce(base, earlier), Decimal.Digits(n.id), prefix + [n.id]);
    assert p[..|p| - 1] == prefix;
    assert Text(p) == Text(prefix) + [SLASH] + d;
    ConcatAssociative(b, parent, d);
    assert b + (parent + d) == Text(p);
    TextLength(p);
    TextRoundTrip(p);
    assert |b| <= |Text(p)| <= 24;
    hide FromText, Text, Decimal.Digits;
    assert Pairs(Item(base, parent + d, ValueOf(n))) != [];
  }

  lemma {:induction false} TreeReads(nodes: seq<Node>, parent: seq<byte>, base: seq<byte>, earlier: seq<byte>, prefix: Path)
    requires IsPath(prefix) && |prefix| <= 3 && Tidy(nodes, |prefix|) && PlainBase(base)
    requires InForce(base, earlier) + parent == Text(prefix) + [SLASH]
    ensures var items := Items(nodes, parent, true, base);
            && Reads(items, earlier, TreeRecords(nodes, prefix))
            && LastBase(items, earlier) == if nodes == [] then earlier else InForce(base, earlier)
    decreases nodes, 1
  {
    if nodes != [] {
      assert nodes[0] in nodes;
      TidyTail(nodes, |prefix|);
      hide Tidy, Reads, Text;
      NodeReads(nodes[0], parent, base, earlier, prefix);
      assert InForce([], InForce(base, earlier)) == InForce(base, earlier);
      TreeReads(nodes[1..], parent, [], InForce(base, earlier), prefix);
      ReadsConcat(NodeItems(nodes[0], parent, true, base), Items(nodes[1..], parent, true, []), earlier,
                  NodeRecords(nodes[0], prefix), TreeRecords(nodes[1..], prefix));
    }
  }

  lemma {:induction false} TidyTail(nodes: seq<Node>, level: nat)
    requires Tidy(nodes, level) && nodes != []
    ensures TidyNode(nodes[0], level) && Tidy(nodes[1..], level)
  {
    assert nodes[0] in nodes;
  }

  lemma {:induction false} NodeReads(n: Node, parent: seq<byte>, base: seq<byte>, earlier: seq<byte>, prefix: Path)
    requires IsPath(prefix) && |prefix| <= 3 && TidyNode(n, |prefix|) && PlainBase(base)
    requires InForce(base, earlier) + parent == Text(prefix) + [SLASH]
    ensures var items := NodeItems(n, parent, true, base);
            && Reads(items, earlier, NodeRecords(n, prefix))
            && LastBase(items, earlier) == InForce(base, earlier)
    decreases n, 0
  {
    var name := parent + Decimal.Digits(n.id);
    if IsRecord(n) {
      NameReads(n, parent, base, earlier, prefix);
      hide ReadsItem;
    } else {
      var p := prefix + [n.id];
      assert p[..|p| - 1] == prefix;
      assert InForce(base, earlier) + (name + [SLASH]) == Text(p) + [SLASH];
      TreeReads(n.children, name + [SLASH], base, earlier, p);
    }
  }
}
